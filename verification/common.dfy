/** Failure-carrying wrappers shared by the other modules. */
module Common {

  /** A value that may be absent (Python's `None`). */
  datatype Option<+T> = None | Some(value: T) {
    function GetOr(default: T): T {
      match this
      case Some(v) => v
      case None => default
    }
  }

  /** The outcome of a step that either yields a value or raises with a message. */
  datatype Result<+T> = Success(value: T) | Failure(error: string)
}
