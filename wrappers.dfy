/** Failure-carrying values shared by every module of the model: Go's nil-able
    pointers become `Option`, Go's `(value, error)` pairs become `Result`. */
module Wrappers {

  datatype Option<+T> = None | Some(value: T) {
    /** The wrapped value, or `default` for None. */
    function GetOr(default: T): T {
      match this
      case Some(v) => v
      case None => default
    }
  }

  datatype Result<+T, +E> = Ok(value: T) | Err(error: E)
}
