/** Failure-compatible wrappers used for the `{ error } | { result }` unions of the source. */
module Wrappers {

  datatype Option<+T> = None | Some(value: T) {
    function GetOr(default: T): T {
      match this
      case Some(v) => v
      case None => default
    }
  }

  /** A returned value or a returned error (never an exception). */
  datatype Result<+T, +E> = Success(value: T) | Failure(error: E)
}
