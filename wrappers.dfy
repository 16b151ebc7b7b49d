/** Option and Result: the values the modelled code returns where it may
    produce nothing (JavaScript `undefined`, a Go `nil` pointer) or an error. */
module Wrappers {

  datatype Option<+T> = None | Some(value: T) {
    /** `x ?? default` in JavaScript. */
    function GetOr(default: T): T {
      match this
      case Some(v) => v
      case None => default
    }
  }

  datatype Result<+T, +E> = Success(value: T) | Failure(error: E)
}
