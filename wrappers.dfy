/** Option and Result, the two wrapper datatypes the model uses. */
module Wrappers {

  /** A value that may be absent (Python's `None`). */
  datatype Option<+T> = None | Some(value: T) {

    /** The wrapped value, or `default` when absent. */
    function GetOr(default: T): T {
      match this
      case Some(v) => v
      case None => default
    }
  }

  /** Either a value or an error that escapes the caller. */
  datatype Result<+R, +E> = Success(value: R) | Failure(error: E)
}
