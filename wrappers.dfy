/** Option and Result: the error paths of the driver as values instead of exceptions. */
module Wrappers {

  datatype Option<+T> = None | Some(value: T)

  /** Ok carries what a call returns; Err carries what it raises. */
  datatype Result<+T, +E> = Ok(value: T) | Err(error: E)
}
