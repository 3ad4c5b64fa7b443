/** Option and Result, the failure-carrying values the model uses for Go's
    `(value, error)` returns and nil slices. */
module Wrappers {

  datatype Option<+T> = None | Some(value: T) {
    function GetOr(default: T): T {
      match this
      case Some(v) => v
      case None => default
    }
  }

  datatype Result<+T, +E> = Success(value: T) | Failure(error: E) {
    function GetOr(default: T): T {
      match this
      case Success(v) => v
      case Failure(_) => default
    }

    function ToOption(): Option<T> {
      match this
      case Success(v) => Some(v)
      case Failure(_) => None
    }
  }
}
