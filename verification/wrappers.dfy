/** Optional values and pass/fail outcomes shared by the whole model. */
module Wrappers {

  /** A value that may be absent: an optional field of a record, a lookup
      that can miss, a JavaScript `undefined`. */
  datatype Option<+T> = None | Some(value: T) {

    /** The value, or `default` when absent. */
    function GetOr(default: T): T {
      match this
      case Some(v) => v
      case None => default
    }
  }

  /** Success carrying a value, or failure carrying the message of the
      error the backend throws. */
  datatype Result<+R> = Ok(value: R) | Err(error: string)

  /** An operation that returns nothing on success and throws otherwise. */
  datatype Outcome = Pass | Fail(error: string)
}
