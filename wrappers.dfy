/** Option and Result, the failure-carrying datatypes used throughout the model. */
module Wrappers {

  datatype Option<+T> = None | Some(value: T)

  /** The value of a Go call that returns `(T, error)`: either the value or the error. */
  datatype Result<+T, +E> = Ok(value: T) | Err(error: E)
}
