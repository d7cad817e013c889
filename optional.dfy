/** Failure-compatible wrappers shared by every module of the model. */
module Optional {

  /** A value that may be missing: the model's stand-in for a NaN cell or a NaN result. */
  datatype Option<+T> = None | Some(value: T)

  /** The outcome of an operation that the Python source lets raise a ValueError. */
  datatype Result<+T, +E> = Ok(value: T) | Err(error: E)
}
