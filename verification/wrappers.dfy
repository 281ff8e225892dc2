/** Option and Result, the model's stand-ins for JavaScript's `null`/`undefined` and for handlers that bail out with a toast. */
module Wrappers {

  /** A value that may be absent (`null` or `undefined` in the source). */
  datatype Option<+T> = None | Some(value: T) {

    /** Returns the value, or `default` when absent. */
    function GetOr(default: T): T {
      match this
      case Some(v) => v
      case None => default
    }
  }

  /** The outcome of a handler: a request to send, or the message of the error toast it shows instead. */
  datatype Result<+T, +E> = Ok(value: T) | Err(error: E)
}
