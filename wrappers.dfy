/** Option and Result, the two failure-carrying datatypes the model threads through. */
module Wrappers {

  datatype Option<+T> = None | Some(value: T) {
    function GetOr(default: T): T {
      match this
      case Some(v) => v
      case None => default
    }
  }

  /** A Python computation either returns a value or raises an exception, whose str() is `msg`. */
  datatype Result<+T> = Ok(value: T) | Err(msg: string)
}
