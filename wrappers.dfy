/** Optional values and results with an error, used wherever the source has
    `undefined`/`null` or throws an exception that the caller catches. */
module Wrappers {

  datatype Option<+T> = None | Some(value: T) {
    /** `x || fallback` / `x ?? fallback` for an optional value. */
    function GetOr(default: T): T {
      match this
      case Some(v) => v
      case None => default
    }
  }

  datatype Result<+T, +E> = Success(value: T) | Failure(error: E)
}
