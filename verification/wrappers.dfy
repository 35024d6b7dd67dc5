/** Option and Result datatypes used throughout the model for the source's
    `undefined`/`null` values and thrown errors. */
module Wrappers {

  /** A value that may be absent: `undefined` or `null` in the source. */
  datatype Option<+T> = None | Some(value: T) {

    /** The value if present, otherwise `default`. */
    function GetOr(default: T): T {
      match this
      case Some(v) => v
      case None => default
    }
  }

  /** The outcome of an operation that can throw: `Failure` carries the error. */
  datatype Result<+T, +E> = Success(value: T) | Failure(error: E)
}
