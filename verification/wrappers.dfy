/** The Option, Outcome and Result types used throughout the session model. */
module Wrappers {

  /** An optional value: Swift's `T?`. */
  datatype Option<+T> = None | Some(value: T) {

    /** Returns the value held in Some, or `default` when None (Swift's `??`). */
    function GetOr(default: T): T
    {
      match this
      case Some(v) => v
      case None => default
    }
  }

  /** The outcome of an action that either succeeds or fails with an error value. */
  datatype Outcome<+E> = Pass | Fail(error: E)

  /** Either a value or the error that stopped it from being produced (Swift's `throws`). */
  datatype Result<+R, +E> = Success(value: R) | Failure(error: E)
}
