/** Option, Result and Outcome: Java's null references and thrown exceptions as values. */
module Wrappers {

  /** A reference that may be null. */
  datatype Option<+T> = None | Some(value: T)

  /** A computation that returns a value or throws. */
  datatype Result<+T, +E> = Success(value: T) | Failure(error: E)

  /** A computation that returns nothing or throws. */
  datatype Outcome<+E> = Pass | Fail(error: E)
}
