/** Failure-compatible wrappers shared by the whole model. */
module Wrappers {

  /** A value that may be missing: an absent (or null) JSON field, a failed parse. */
  datatype Option<+T> = None | Some(value: T) {

    /** The value, or `default` when there is none. */
    function GetOr(default: T): T {
      match this
      case Some(v) => v
      case None => default
    }
  }

  /** The outcome of an operation that can throw: the value, or the error message. */
  datatype Result<+T, +E> = Success(value: T) | Failure(error: E)
}
