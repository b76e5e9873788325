/** The `Option`, `Result` and `Outcome` datatypes shared by the modules of this model. */
module Wrappers {

  /** A value that may be absent: JavaScript's `undefined` / `null`. */
  datatype Option<+T> = None | Some(value: T) {
    function GetOr(default: T): T {
      match this
      case Some(v) => v
      case None => default
    }
  }

  /** A computation that either resolves with a value or rejects with an error. */
  datatype Result<+R, +E> = Success(value: R) | Failure(error: E)

  /** A computation that resolves without a value or rejects with an error. */
  datatype Outcome<+E> = Pass | Fail(error: E)
}
