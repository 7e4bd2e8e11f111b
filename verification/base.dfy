/** Failure-carrying values shared by every module of the model. */
module Base {

  /** A value that may be absent: the source's `T | null`. */
  datatype Option<+T> = None | Some(value: T) {

    /** The wrapped value, or `default` when there is none (the source's `x || default`). */
    function GetOr(default: T): T {
      match this
      case Some(v) => v
      case None => default
    }
  }

  /** The outcome of an operation that may throw: a value, or the thrown message. */
  datatype Result<+T> = Ok(value: T) | Err(message: string)
}
