/** The two wrappers the model needs: `Option` for JSON fields that may be absent,
    `Result` for calls that either return a value or raise. */
module Wrappers {

  datatype Option<+T> = None | Some(value: T) {

    /** Python's `dict.get(key, default)`: the value when present, the default otherwise. */
    function GetOr(default: T): T {
      match this
      case Some(v) => v
      case None => default
    }
  }

  /** A value, or the error that was raised instead. */
  datatype Result<+T, +E> = Ok(value: T) | Err(error: E)
}
