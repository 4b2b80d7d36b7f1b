/** Failure-carrying wrappers used wherever the relay's Python raises or
    returns a sentinel. */
module Results {

  datatype Option<+T> = None | Some(value: T) {

    /** The wrapped value, or `default` when there is none. */
    function GetOr(default: T): T {
      match this
      case Some(v) => v
      case None => default
    }
  }

  /** `Ok` carries a value; `Err` carries the reason a Python exception
      would have been raised. */
  datatype Result<+T, +E> = Ok(value: T) | Err(error: E)
}
