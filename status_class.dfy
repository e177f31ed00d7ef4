/** `getStatusClass` of the metrics middleware: the label a response status
    code is counted under. */
module StatusClass {

  const Success := "success"
  const ClientError := "client_error"
  const ServerError := "server_error"
  const Unknown := "unknown"

  /** The ranges are tested in order: [200, 300), then [400, 500), then
      500 and above; every other code is unknown. */
  function GetStatusClass(statusCode: int): (c: string)
    ensures c == Success || c == ClientError || c == ServerError || c == Unknown
  {
    if 200 <= statusCode < 300 then Success
    else if 400 <= statusCode < 500 then ClientError
    else if statusCode >= 500 then ServerError
    else Unknown
  }

  /** The label of a non-negative code is decided by its hundreds digit:
      2 is success, 4 a client error, 5 and above a server error, and 0, 1
      and 3 (informational and redirect codes) are unknown, as is every
      negative code. */
  lemma StatusClassByHundreds(statusCode: int)
    ensures statusCode >= 0 ==> (GetStatusClass(statusCode) == Success <==> statusCode / 100 == 2)
    ensures statusCode >= 0 ==> (GetStatusClass(statusCode) == ClientError <==> statusCode / 100 == 4)
    ensures statusCode >= 0 ==> (GetStatusClass(statusCode) == ServerError <==> statusCode / 100 >= 5)
    ensures statusCode >= 0 ==> (GetStatusClass(statusCode) == Unknown <==> statusCode / 100 in {0, 1, 3})
    ensures statusCode < 0 ==> GetStatusClass(statusCode) == Unknown
  {
  }
}
