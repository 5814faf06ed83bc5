/** Failure-compatible wrappers shared by the whole model. */
module Wrappers {

  /** A value that may be absent: Ruby's `nil` or a missing hash key. */
  datatype Option<+T> = None | Some(value: T) {
    function GetOr(default: T): T {
      match this
      case Some(v) => v
      case None => default
    }
  }

  /** The outcome of an operation that may raise. */
  datatype Result<+R, +E> = Ok(value: R) | Err(error: E)
}
