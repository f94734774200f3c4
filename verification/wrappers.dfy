/** Failure-carrying datatypes shared by both services: an optional value and
    the outcome of an operation that may throw. */
module Wrappers {

  /** A value that may be absent (a nullable column, a missing row). */
  datatype Option<+T> = None | Some(value: T)

  /** The outcome of an operation: a value, or the error it throws. */
  datatype Result<+T, +E> = Success(value: T) | Failure(error: E)
}
