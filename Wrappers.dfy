/** Option and Result: Go's nil pointers and (value, error) pairs. */
module Wrappers {

  /** A nullable value: Go's `*T` field, `nil` is `None`. */
  datatype Option<+T> = None | Some(value: T) {
    function GetOr(default: T): T {
      match this
      case Some(v) => v
      case None => default
    }
  }

  /** A Go `(T, error)` return: exactly one of the two is meaningful. */
  datatype Result<+T, +E> = Ok(value: T) | Err(error: E)
}
