/** Option and Result, the two failure-carrying shapes the model uses. */
module Wrappers {

  datatype Option<+T> = None | Some(value: T)

  /** The settled state of a promise: resolved with a value, or rejected. */
  datatype Result<+T, +E> = Ok(value: T) | Err(error: E)
}
