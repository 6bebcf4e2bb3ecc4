/** The two result shapes every module shares. */
module Wrappers {

  datatype Option<+T> = None | Some(value: T)

  /** A value, or the error the caller gets instead. */
  datatype Result<+T, +E> = Ok(value: T) | Err(error: E)
}
