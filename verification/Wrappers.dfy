/** Failure-carrying results shared by every component. */
module Wrappers {

  datatype Option<+T> = None | Some(value: T)

  /** Go's (value, error) pair, where exactly one side is meaningful. */
  datatype Result<+T, +E> = Ok(value: T) | Err(error: E)
}
