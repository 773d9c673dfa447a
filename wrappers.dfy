/** Failure-compatible result types used in place of the source's exceptions. */
module Wrappers {

  datatype Option<+T> = None | Some(value: T)

  /** A value or the error that replaced it. */
  datatype Result<+R, +E> = Success(value: R) | Failure(error: E)

  /** An operation that either completed (Pass) or raised (Fail). */
  datatype Outcome<+E> = Pass | Fail(error: E)
}
