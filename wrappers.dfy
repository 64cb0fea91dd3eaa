/** Optional values (a field that may be `undefined`) and the outcome of a call
    that may throw (`Failure` carries the thrown error's message). */
module Wrappers {

  datatype Option<+T> = None | Some(value: T) {
    function GetOr(default: T): T {
      match this
      case Some(v) => v
      case None => default
    }
  }

  datatype Result<+R, +E> = Success(value: R) | Failure(error: E)
}
