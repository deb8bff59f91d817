/** The two failure-carrying shapes used across the model: an optional value
    (a DOM lookup that may come back null) and a result that is either a
    value or an error message (a function that may throw). */
module Wrappers {

  datatype Option<+T> = None | Some(value: T) {

    /** The wrapped value, or `default` when there is none. */
    function GetOr(default: T): T {
      match this
      case Some(v) => v
      case None => default
    }
  }

  datatype Result<+T, +E> = Success(value: T) | Failure(error: E)
}
