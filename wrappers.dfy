/** Optional values and the outcome of a server action: the value it returns, or the
    message of the `Error` it throws. */
module Wrappers {

  datatype Option<+T> = None | Some(value: T) {
    /** JavaScript's `x || d` on a nullable value. */
    function GetOr(default: T): T {
      match this
      case Some(v) => v
      case None => default
    }
  }

  /** A call that either returns `value` or throws an `Error` carrying `error`. */
  datatype Result<+T> = Ok(value: T) | Err(error: string)

  /** A call that returns nothing or throws. */
  datatype Outcome = Done | Failed(error: string)
}
