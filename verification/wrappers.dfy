/** Failure-carrying wrappers used across the model. */
module Wrappers {

  /** A value that may be absent; a SQL NULL is `None`. */
  datatype Option<+T> = None | Some(value: T)

  /** The outcome of an operation that either produces a value or fails with an error. */
  datatype Result<+R, +E> = Success(value: R) | Failure(error: E)
}
