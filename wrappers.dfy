/** Failure-carrying values shared by the modules of this model. */
module Wrappers {

  /** A value that may be absent. */
  datatype Option<+T> = None | Some(value: T) {
    function GetOr(default: T): T {
      match this
      case Some(v) => v
      case None => default
    }
  }

  /** The outcome of a computation that can raise. */
  datatype Result<+R, +E> = Success(value: R) | Failure(error: E)
}
