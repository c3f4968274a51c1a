/** Optional values and fallible results, shared by the whole model. */
module Wrappers {

  /** A value that may be absent (`undefined` / `null` in the original program). */
  datatype Option<+T> = None | Some(value: T) {
    function GetOr(default: T): T {
      match this
      case Some(v) => v
      case None => default
    }
  }

  /** The outcome of an operation that can throw: its value, or the condition it throws. */
  datatype Result<+T, +E> = Success(value: T) | Failure(error: E)
}
