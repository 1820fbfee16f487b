/** Option and Result, the two failure-carrying shapes used throughout the model. */
module Wrappers {

  /** A value that may be absent (JavaScript `null`/`undefined`, a missing field). */
  datatype Option<+T> = None | Some(value: T) {
    function GetOr(default: T): T {
      match this
      case Some(v) => v
      case None => default
    }
  }

  /** The outcome of a request handler or a library call that can fail. */
  datatype Result<+R, +E> = Success(value: R) | Failure(error: E)
}
