/** Failure-carrying values shared by every module of the model. */
module Wrappers {

  /** A value that may be absent: Rust's `Option`, TypeScript's `undefined`/`null`. */
  datatype Option<+T> = None | Some(value: T) {
    function GetOr(default: T): T {
      match this
      case Some(v) => v
      case None => default
    }
  }

  /** Rust's `Result`: a success value or an error value. */
  datatype Result<+T, +E> = Ok(value: T) | Err(error: E)
}
