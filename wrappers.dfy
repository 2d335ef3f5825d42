/** Result types used in place of null and of exceptions. */
module Wrappers {

  /** A value that may be absent: the model of a reference that may be null. */
  datatype Option<+T> = None | Some(value: T)

  /** The outcome of an operation that returns nothing but may throw. */
  datatype Outcome<+E> = Pass | Fail(error: E)

  /** A value, or the exception raised instead of returning it. */
  datatype Result<+T, +E> = Success(value: T) | Failure(error: E)
}
