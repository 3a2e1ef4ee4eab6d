/** Optional values and results with an error value, shared by the other modules. */
module Wrappers {

  /** Python's `None`-or-value. */
  datatype Option<+T> = None | Some(value: T)

  /** A value, or the exception that ended the computation instead. */
  datatype Result<+T, +E> = Ok(value: T) | Err(error: E)
}
