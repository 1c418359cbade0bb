/** Option and Result, the failure-carrying datatypes used throughout the model. */
module Wrappers {

  /** A value that may be absent (Python's `dict.get` returning the missing default). */
  datatype Option<+T> = None | Some(value: T) {

    /** The encapsulated value, or `default` when absent */
    function GetOr(default: T): T {
      match this
      case Some(v) => v
      case None => default
    }
  }

  /** Either a value or the exception the source would raise. */
  datatype Result<+R, +E> = Success(value: R) | Failure(error: E)
}
