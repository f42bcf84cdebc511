/** Failure-carrying result types shared by the model. */
module Wrappers {

  /** A value that may be absent: a missing document field, or a parse that failed. */
  datatype Option<+T> = None | Some(value: T) {
    function GetOr(default: T): T {
      match this
      case Some(v) => v
      case None => default
    }
  }

  /** The outcome of an operation that either yields a value or reports an error. */
  datatype Result<+T, +E> = Success(value: T) | Failure(error: E)
}
