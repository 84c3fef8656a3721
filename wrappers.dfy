/** Option and Result, the stock failure-carrying datatypes used throughout. */
module Wrappers {

  datatype Option<+T> = None | Some(value: T) {
    /** The value in Some, or `default` when None (Python's `d.get(k, default)`). */
    function GetOr(default: T): T {
      match this
      case Some(v) => v
      case None => default
    }
  }

  /** A computation that either succeeds with a value or raised an exception with a message. */
  datatype Result<+R, +E> = Success(value: R) | Failure(error: E)
}
