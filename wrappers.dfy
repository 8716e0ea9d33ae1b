/** Option and Result values standing for Python's None and for raised exceptions. */
module Wrappers {

  datatype Option<+T> = None | Some(value: T)

  /** `Success` is a normal return; `Failure` is an exception of kind `error`. */
  datatype Result<+T, +E> = Success(value: T) | Failure(error: E)
}
