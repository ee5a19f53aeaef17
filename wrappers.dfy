/** Optional values and error-or-value results, used wherever the dashboard
    reads a field that may be missing or an operation that may throw. */
module Wrappers {

  datatype Option<+T> = None | Some(value: T) {
    /** The JavaScript `x ?? d` / `x || d` fallback on a possibly missing value. */
    function GetOr(default: T): T {
      match this
      case Some(v) => v
      case None => default
    }
  }

  /** `Failure(message)` stands for a thrown `Error(message)`. */
  datatype Result<+T, +E> = Success(value: T) | Failure(error: E)
}
