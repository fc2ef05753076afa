/** Option and Result values shared by every module of the model. */
module Base {

  /** A value that may be absent: a JSON `null`, a missing dictionary key or a pandas `NaN`. */
  datatype Option<+T> = None | Some(value: T) {
    function GetOr(default: T): T {
      match this
      case Some(v) => v
      case None => default
    }
  }

  /** The outcome of an operation that either returns a value or raises. */
  datatype Result<+T, +E> = Ok(value: T) | Err(error: E)
}
