/** Shared value types. */
module Common {
  datatype Option<+T> = None | Some(value: T)

  /** A value, or the error raised instead of it. */
  datatype Result<+T, +E> = Ok(value: T) | Err(error: E)
}
