/** Failure-compatible wrappers used throughout the model.
    `Option.None` stands for a missing value: pandas NaN, an absent dictionary
    key, or a comparison that NaN makes false. */
module Wrappers {

  datatype Option<+T> = None | Some(value: T) {
    function GetOr(default: T): T
    {
      match this
      case Some(v) => v
      case None => default
    }
  }

  /** An operation that either succeeds with a value or fails with an error,
      standing for a Python exception or a `sys.exit(1)`. */
  datatype Result<+T, +E> = Ok(value: T) | Err(error: E)
}
