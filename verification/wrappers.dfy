/** Failure-compatible result types used for the Go `(value, error)` returns. */
module Wrappers {

  /** `None` stands for a Go nil (a missing rule, a missing slot). */
  datatype Option<+T> = None | Some(value: T) {

    /** The wrapped value, or `default` when there is none. */
    function GetOr(default: T): T {
      match this
      case Some(v) => v
      case None => default
    }
  }

  /** A value or an error message, the shape of a Go `(T, error)` return. */
  datatype Result<+R, +E> = Success(value: R) | Failure(error: E)

  /** A Go `error` return that carries no value: nil (`Pass`) or an error (`Fail`). */
  datatype Outcome<+E> = Pass | Fail(error: E)
}
