/** The optional-value type used where the Go code returns a value together
    with an error, or a nil pointer. */
module Wrappers {

  datatype Option<+T> = None | Some(value: T)
}
