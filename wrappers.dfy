/** Optional values and results that carry either a value or an error. */
module Wrappers {

  /** A value that may be absent; Python's `None` is `None` here. */
  datatype Option<+T> = None | Some(value: T) {

    /** The value held, or `default` when there is none. */
    function GetOr(default: T): T {
      match this
      case Some(v) => v
      case None => default
    }
  }

  /** The outcome of a step that can fail: a value, or the error that stopped it. */
  datatype Result<+T, +E> = Ok(value: T) | Err(error: E)
}
