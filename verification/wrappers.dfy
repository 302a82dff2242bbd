/** The optional-value and result types shared by every module of the model. */
module Wrappers {

  /** A value that may be absent: a missing JavaScript property is `None`. */
  datatype Option<+T> = None | Some(value: T) {

    /** The wrapped value, or `default` when absent. */
    function GetOr(default: T): T {
      match this
      case Some(v) => v
      case None => default
    }
  }

  /** The outcome of a request handler: a value, or the message of an error response. */
  datatype Result<+R> = Ok(value: R) | Err(message: string)
}
