/** Optional values and error-carrying results shared by the other modules. */
module Wrappers {

  /** A value that may be absent: Python's `None` or a present value. */
  datatype Option<+T> = None | Some(value: T) {

    /** The present value, or `default` when absent (Python's `x or default` for strings). */
    function GetOr(default: T): T
    {
      match this
      case Some(v) => v
      case None => default
    }
  }

  /** The outcome of a call that may raise: a value or the exception's message. */
  datatype Result<+T> = Ok(value: T) | Err(message: string)
}
