/** Option and Result, the two failure-carrying types the model uses in place of
    Go's nil pointers and (value, error) returns. */
module Wrappers {

  /** A value that may be absent (a Go `*T` that may be nil). */
  datatype Option<+T> = None | Some(value: T)

  /** A value or an error (a Go `(T, error)` pair where exactly one side is meaningful). */
  datatype Result<+T, +E> = Ok(value: T) | Err(error: E)
}
