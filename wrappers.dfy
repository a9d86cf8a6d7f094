/** Option and Result, the failure-carrying values used across the model. */
module Wrappers {

  datatype Option<+T> = None | Some(value: T)

  /** A computation that yields a value or an error, in place of Go's `(T, error)` pairs. */
  datatype Result<+T, +E> = Ok(value: T) | Err(error: E)

  /** A computation that only succeeds or fails, in place of a bare Go `error`. */
  datatype Outcome<+E> = Pass | Fail(error: E)
}
