/** Failure-compatible result types standing in for the back end's exceptions. */
module Wrappers {

  datatype Option<+T> = None | Some(value: T)

  datatype Result<+T, +E> = Success(value: T) | Failure(error: E)

  /** Pass, or the first problem found. */
  datatype Outcome<+E> = Pass | Fail(error: E)
}
