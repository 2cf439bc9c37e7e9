/** Option and Result, the failure-carrying types the rest of the model uses. */
module Wrappers {

  /** An optional value: `None` stands for a missing request parameter or a null column. */
  datatype Option<+T> = None | Some(value: T) {

    /** The value, or `default` when absent (Python's `dict.get(key, default)`). */
    function GetOr(default: T): T {
      match this
      case Some(v) => v
      case None => default
    }
  }

  /** Either a value or the error a Python call would raise instead. */
  datatype Result<+T, +E> = Success(value: T) | Failure(error: E)
}
