/** The small option and result types the channel needs: `Option` for the
    chain that reads an inbound message's type, `Outcome` for what `connect`
    and `disconnect` return, and `Result` for what `parse` returns. */
module Wrappers {

  datatype Option<+T> = None | Some(value: T) {

    /** `Option::and_then`: feeds the carried value to `f`, or stays None. */
    function AndThen<U>(f: T -> Option<U>): Option<U> {
      match this
      case None => None
      case Some(v) => f(v)
    }

    /** `Option::unwrap_or`: the carried value, or `default` when None. */
    function GetOr(default: T): T {
      match this
      case None => default
      case Some(v) => v
    }
  }

  datatype Outcome<+E> = Pass | Fail(error: E)

  datatype Result<+R, +E> = Success(value: R) | Failure(error: E)
}
