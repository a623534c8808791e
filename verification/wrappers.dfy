/** Option and Result values standing in for Python's `None` and for exceptions. */
module Wrappers {

  datatype Option<+T> = None | Some(value: T)

  /** The outcome of a step that may raise: `Failure` carries `str(e)` of the exception. */
  datatype Result<+T, +E> = Success(value: T) | Failure(error: E)
}
