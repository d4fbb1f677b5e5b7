/** Optional values and operation outcomes, used by every layer of the model. */
module Wrappers {

  /** A value that may be absent: Java's `Optional<T>` (and a nullable reference). */
  datatype Option<+T> = None | Some(value: T)

  /** The outcome of an operation that returns a value or raises an exception. */
  datatype Result<+R, +E> = Success(value: R) | Failure(error: E)

  /** The outcome of a `void` operation that may raise an exception. */
  datatype Outcome<+E> = Pass | Fail(error: E)
}
