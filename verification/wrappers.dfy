/** Option and Result, the failure-carrying values the rest of the model returns
    in place of Python's None and raised exceptions. */
module Wrappers {

  datatype Option<+T> = None | Some(value: T)

  /** Ok carries the value a Python call returns; Err the exception it raises. */
  datatype Result<+T, +E> = Ok(value: T) | Err(error: E)
}
