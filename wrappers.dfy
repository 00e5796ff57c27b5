/** Failure-carrying values shared by every module of the model. */
module Wrappers {

  /** A value that may be absent: C#'s `null`. */
  datatype Option<+T> = None | Some(value: T) {
    /** C#'s `x ?? default`. */
    function GetOr(default: T): T {
      match this
      case Some(v) => v
      case None => default
    }
  }

  /** The outcome of an operation that either yields a value or throws. */
  datatype Result<+T, +E> = Success(value: T) | Failure(error: E)

  /**
   * What deserialising a JSON file yields: no file at all, content the
   * deserialiser refused (an exception) or read as `null`, or a record.
   */
  datatype Stored<+T> = Missing | Unreadable | Present(value: T)
}
