/** Optional values and results whose failure carries the message a Python
    exception would give as `str(e)`. */
module Wrappers {

  datatype Option<+T> = None | Some(value: T) {
    /** The contained value, or `default` when there is none. */
    function GetOr(default: T): T {
      match this
      case Some(v) => v
      case None => default
    }
  }

  /** Either a value or the message of the exception that was raised instead. */
  datatype Result<+T> = Ok(value: T) | Err(msg: string)
}
