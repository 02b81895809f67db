/** Option and Result, the two failure-carrying shapes the endpoints return. */
module Wrappers {

  datatype Option<+T> = None | Some(value: T) {
    function GetOr(default: T): T {
      match this
      case Some(v) => v
      case None => default
    }
  }

  /** Every failing endpoint ends in the same generic server error (status 500). */
  datatype Result<+T> = Ok(value: T) | Error(message: string)
}
