/** The optional and either-or values that the rest of the model returns. */
module Wrappers {

  datatype Option<+T> = None | Some(value: T)

  /** A computation that either produces a value or raises an error. */
  datatype Result<+R, +E> = Success(value: R) | Failure(error: E)
}
