/** Optional values and results with an error, the two shapes the Python code
    expresses with `None` and with raised exceptions. */
module Maybe {

  datatype Option<+T> = None | Some(value: T) {
    /** Python's `x or default` for a value that is either present or None. */
    function GetOr(default: T): T {
      match this
      case Some(v) => v
      case None => default
    }
  }

  datatype Result<+T, +E> = Ok(value: T) | Err(error: E)
}
