/** Optional values and success-or-failure results, used throughout the model
    for the source's "key may be missing" lookups and its error responses. */
module Outcomes {

  /** A value that may be absent, such as a document key that was never written. */
  datatype Option<+T> = None | Some(value: T) {

    /** The Python `dict.get(key, default)` idiom. */
    function GetOr(default: T): T {
      match this
      case Some(v) => v
      case None => default
    }
  }

  /** Either a validated value or the reason it was refused. */
  datatype Result<+R, +E> = Success(value: R) | Failure(error: E)
}
