/** Option and a status-coded error, shared by the modules below. */
module Wrappers {

  /** A value that may be absent: JavaScript's `null`/`undefined`. */
  datatype Option<+T> = None | Some(value: T) {
    function GetOr(default: T): T {
      match this
      case Some(v) => v
      case None => default
    }
  }

  /** An HTTP outcome of a route: a success value or a status with a message. */
  datatype Response<+T> = Ok(body: T) | Fail(status: nat, message: string)
}
