/** Failure-compatible wrappers: an optional value (a null or NaN cell, a
    prediction that was not produced) and a result that carries either a
    value or the message of the error the program raises. */
module Wrappers {

  datatype Option<+T> = None | Some(value: T) {
    /** The value, or `default` when absent (Python's `dict.get(key, default)`). */
    function GetOr(default: T): T {
      match this
      case Some(v) => v
      case None => default
    }
  }

  datatype Result<+T, +E> = Success(value: T) | Failure(error: E)
}
