/** Option and Result values used across the model. */
module Wrappers {

  /** A value that may be absent (JavaScript `null` / `undefined`). */
  datatype Option<+T> = None | Some(value: T) {
    function GetOr(default: T): T {
      match this
      case Some(v) => v
      case None => default
    }
  }

  /** The outcome of a call to an external service that can reject. */
  datatype Result<+T> = Success(value: T) | Failure(error: string)
}
