/** Optional values and error returns shared by the scanner modules. */
module Common {

  /** Python's `None`-or-value. */
  datatype Option<+T> = None | Some(value: T)

  /** A value, or the exception the Python code would raise instead. */
  datatype Result<+T, +E> = Ok(value: T) | Err(error: E)
}
