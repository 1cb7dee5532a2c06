/** Failure-compatible wrappers used for the exceptions and optional values of the modelled programs. */
module Wrappers {

  datatype Option<+T> = None | Some(value: T)

  datatype Result<+T, +E> = Ok(value: T) | Err(error: E)
}
