/** Option and Result, the two failure-carrying values used throughout the model. */
module Wrappers {

  /** A value that may be absent (Python's `None`, a missing dict key). */
  datatype Option<+T> = None | Some(value: T) {
    function GetOr(default: T): T {
      match this
      case Some(v) => v
      case None => default
    }
  }

  /** A computation that either succeeds or raises the error `error`. */
  datatype Result<+T, +E> = Ok(value: T) | Err(error: E)
}
