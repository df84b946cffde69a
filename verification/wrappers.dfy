/** Failure-compatible wrappers used across the model. */
module Wrappers {

  /** A value that may be missing: an unopened file, an absent row. */
  datatype Option<+T> = None | Some(value: T)

  /** The outcome of an operation that either produces a value or stops with an error. */
  datatype Result<+R, +E> = Success(value: R) | Failure(error: E)
}
