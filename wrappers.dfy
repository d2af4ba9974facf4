/** Option and Result: the model's stand-ins for Python's `None` and for raised errors. */
module Wrappers {

  datatype Option<+T> = None | Some(value: T) {

    /** `d.get(key, default)` once the lookup has produced this option. */
    function GetOr(default: T): T {
      match this
      case Some(v) => v
      case None => default
    }
  }

  /** A value, or the error an operation raises instead of returning. */
  datatype Result<+T, +E> = Ok(value: T) | Err(error: E)
}
