/** Failure-carrying datatypes used in place of C#'s null and caught exceptions. */
module Wrappers {

  /** A value that may be absent (a C# null reference). */
  datatype Option<+T> = None | Some(value: T)

  /** The outcome of an operation that either yields a value or reports an error. */
  datatype Result<+T, +E> = Success(value: T) | Failure(error: E)
}
