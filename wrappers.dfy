/** The two failure-carrying wrappers the model needs: an absent value (an
    undefined prop, a failed fetch) and a call that either returns a value or
    throws / panics with a message. */
module Wrappers {

  datatype Option<+T> = None | Some(value: T) {

    /** The wrapped value, or `default` when there is none. */
    function GetOr(default: T): T {
      match this
      case Some(v) => v
      case None => default
    }
  }

  datatype Result<+T> = Ok(value: T) | Err(message: string)
}
