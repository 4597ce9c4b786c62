/** Failure-carrying results for the operations whose Python original raises
    (KeyError, IndexError, ZeroDivisionError, TypeError) or returns None. */
module Wrappers {

  /** A value that may be absent: Python's `None`. */
  datatype Option<+T> = None | Some(value: T) {
    function GetOr(default: T): T {
      match this
      case Some(v) => v
      case None => default
    }
  }

  /** The outcome of an operation that may raise. */
  datatype Result<+R, +E> = Success(value: R) | Failure(error: E)
}
