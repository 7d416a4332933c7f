/** Option, Result and Outcome: the values that stand for Java's null and for a thrown exception. */
module Wrappers {

  /** A value that may be absent (a Java reference that may be null). */
  datatype Option<+T> = None | Some(value: T)

  /** A computation that either yields a value or throws an error. */
  datatype Result<+T, +E> = Success(value: T) | Failure(error: E)

  /** A computation with no value of its own that either completes or throws an error. */
  datatype Outcome<+E> = Pass | Fail(error: E)
}
