/** Option and Result values used in place of Python's None and raised exceptions. */
module Wrappers {

  /** Either nothing (Python's None) or a value. */
  datatype Option<+T> = None | Some(value: T)

  /** Either the value an operation returns or the exception it raises. */
  datatype Result<+T, +E> = Success(value: T) | Failure(error: E)
}
