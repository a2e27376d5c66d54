/** Failure-carrying values used in place of the exceptions and null references of the program. */
module Wrappers {

  /** A value that may be absent: a nullable reference. */
  datatype Option<+T> = None | Some(value: T)

  /** A computation that either produced a value or raised an error. */
  datatype Result<+R, +E> = Success(value: R) | Failure(error: E)

  /** A computation with no value that either completed or raised an error. */
  datatype Outcome<+E> = Pass | Fail(error: E)
}
