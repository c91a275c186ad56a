/** Optional values and outcomes, shared by every module. */
module Wrappers {

  datatype Option<+T> = None | Some(value: T)

  /** A value, or the error raised instead. */
  datatype Result<+T, +E> = Ok(value: T) | Err(error: E)
}
