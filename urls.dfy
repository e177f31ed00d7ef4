/** The parts of Go's `net/url` the analyzer uses, as an oracle: the model
    fixes no URL grammar. */
module Urls {
  import opened Wrappers

  /** A parsed or resolved URL: its scheme and its host (host and port, as
      `URL.Host`), which the analyzer compares, and everything else (user
      information, path, query, fragment), which only its rendering by
      `URL.String` reads. */
  datatype Url = Url(scheme: string, host: string, rest: string)

  /** `url.Parse` (None for a parse error), `URL.ResolveReference` of a
      reference against a base, and `URL.String`. */
  datatype UrlLib = UrlLib(parse: string -> Option<Url>, resolve: (Url, Url) -> Url, render: Url -> string)

  /** The schemes whose links are probed. */
  predicate IsWebScheme(scheme: string) {
    scheme == "http" || scheme == "https"
  }
}
