// Results that may be missing or fail.
module Wrappers {

  datatype Option<+T> = None | Some(value: T)

  /** The value, or an exception of the given kind. */
  datatype Result<+T, +E> = Success(value: T) | Failure(error: E)
}
