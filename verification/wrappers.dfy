/** Option and Result values standing in for Ruby's nil and raised exceptions. */
module Wrappers {

  datatype Option<+T> = None | Some(value: T) {
    function GetOr(default: T): T {
      match this
      case Some(v) => v
      case None => default
    }
  }

  /** A computation that either produces a value or raises (the message names the exception). */
  datatype Result<+T> = Ok(value: T) | Err(error: string)
}
