/** Failure-compatible wrappers used throughout the model. */
module Wrappers {

  datatype Option<+T> = None | Some(value: T)

  /** The outcome of an operation that can raise in the original program. */
  datatype Result<+R, +E> = Success(value: R) | Failure(error: E)
}
