/** Plain optional-value, result and outcome types used by the carousel model. */
module Wrappers {

  /** A value that may be absent. */
  datatype Option<+T> = None | Some(value: T)

  /** A computed value, or the error that stopped it. */
  datatype Result<+R, +E> = Success(value: R) | Failure(error: E)

  /** An operation that either completes or fails with an error. */
  datatype Outcome<+E> = Pass | Fail(error: E)
}
