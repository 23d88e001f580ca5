/** Failure-compatible wrappers shared by every module of the model. */
module Wrappers {

  /** A value that may be absent: C#'s `null`, TypeScript's `undefined`. */
  datatype Option<+T> = None | Some(value: T) {

    /** The wrapped value, or `default` when absent (C# `??`, TypeScript `??`). */
    function GetOr(default: T): T
    {
      match this
      case Some(v) => v
      case None => default
    }
  }

  /** The outcome of an operation that can fail: the source's exceptions and error replies. */
  datatype Result<+T, +E> = Ok(value: T) | Err(error: E)
}
