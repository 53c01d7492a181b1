/** Option and Result, the failure-carrying values used throughout the model.
    A JavaScript `null`/`undefined` becomes `None`; a thrown or rejected
    `Error` becomes `Failure(message)`. */
module Wrappers {

  datatype Option<+T> = None | Some(value: T) {
    function GetOr(default: T): T {
      match this
      case Some(v) => v
      case None => default
    }
  }

  datatype Result<+T, +E> = Success(value: T) | Failure(error: E)
}
