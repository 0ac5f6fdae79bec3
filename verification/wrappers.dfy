/** Failure-carrying datatypes used throughout the model in place of Python's
    `None` and raised exceptions. */
module Wrappers {

  /** A value that may be absent: Python's `None` versus a present value. */
  datatype Option<+T> = None | Some(value: T) {

    /** The present value, or `default` when absent (Python's `x or default`
        for values whose only falsy form is `None`). */
    function GetOr(default: T): T {
      match this
      case Some(v) => v
      case None => default
    }
  }

  /** The outcome of a computation that either produces a value or fails. */
  datatype Result<+R, +E> = Success(value: R) | Failure(error: E)

  /** The outcome of a check that produces no value: it passes or fails. */
  datatype Outcome<+E> = Pass | Fail(error: E)
}
