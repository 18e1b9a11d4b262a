/** A value that may be absent: a dictionary key that is missing, or an argument left as None. */
module Optional {

  datatype Option<+T> = None | Some(value: T) {

    /** The value, or `default` when absent (Python's `d.get(key, default)`). */
    function GetOr(default: T): T {
      match this
      case Some(v) => v
      case None => default
    }
  }

  /** The outcome of an operation that can fail with a message, as a raised exception does. */
  datatype Result<+T> = Success(value: T) | Failure(error: string)
}
