/** The two wrapper types used across the model: an optional value (a
    nullable column or an absent dictionary key) and a result that is either a
    value or an error (a Python exception that leaves the store untouched). */
module Wrappers {

  datatype Option<+T> = None | Some(value: T) {

    /** The wrapped value, or `default` when there is none (Python's `x or d`
        for a value that is never falsy when present). */
    function GetOr(default: T): T {
      match this
      case Some(v) => v
      case None => default
    }
  }

  datatype Result<+R, +E> = Success(value: R) | Failure(error: E)
}
