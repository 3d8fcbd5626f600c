/** Small failure-carrying datatypes shared by every module of the model. */
module Common {

  /** A value that may be missing: Python's `None` or an absent dictionary key. */
  datatype Option<+T> = None | Some(value: T) {
    /** The value, or `default` when missing (Python's `d.get(k, default)`). */
    function GetOr(default: T): T {
      match this
      case Some(v) => v
      case None => default
    }
  }

  /** The outcome of a call that can raise: either a value or an error. */
  datatype Result<+R, +E> = Ok(value: R) | Err(error: E)

  /** An HTTP error response raised by a route: status code and detail text. */
  datatype HttpError = HttpError(code: int, detail: string)

  /** The smaller of two integers (Python's `min`). */
  function Min(a: int, b: int): int {
    if a <= b then a else b
  }
}
