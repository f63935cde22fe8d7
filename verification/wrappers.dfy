/** Option and Result, shared by the modules of this model. */
module Wrappers {

  /** A value that may be absent; Go's `error` result is `Option<Error>`, with `None` for nil. */
  datatype Option<+T> = None | Some(value: T)

  /** Either a value or an error, as Go's `(value, err)` pairs. */
  datatype Result<+R, +E> = Success(value: R) | Failure(error: E)
}
