/** Optional values and call results shared by the model. */
module Wrappers {

  /** A value that may be absent: a missing mapping key, a JSON `null` or a Python `None`. */
  datatype Option<+T> = None | Some(value: T) {

    /** The wrapped value, or `default` when absent (Python's `d.get(key, default)`). */
    function GetOr(default: T): T {
      match this
      case Some(v) => v
      case None => default
    }
  }

  /** The outcome of a remote call: the payload on success, a human-readable reason on failure. */
  datatype Result<+R, +E> = Success(value: R) | Failure(error: E)
}
