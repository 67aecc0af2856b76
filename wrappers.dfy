/** Option and Result: the model's stand-ins for Python's None and for an exception that escapes a call. */
module Wrappers {

  datatype Option<+T> = None | Some(value: T)

  datatype Result<+R, +E> = Success(value: R) | Failure(error: E)
}
