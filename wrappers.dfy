/** Failure-compatible wrappers used across the model. */
module Wrappers {

  /** A value that may be absent (a C# null reference or a missing key). */
  datatype Option<+T> = None | Some(value: T)

  /** The outcome of an operation that may throw. */
  datatype Result<+R, +E> = Success(value: R) | Failure(error: E)
}
