/** Option, Result and Outcome: the error paths of the crawler as values. */
module Wrappers {

  datatype Option<+T> = None | Some(value: T)

  /** A computation that either produced a value or raised an error. */
  datatype Result<+R, +E> = Success(value: R) | Failure(error: E)

  /** A computation with no value that either passed or raised an error. */
  datatype Outcome<+E> = Pass | Fail(error: E)
}
