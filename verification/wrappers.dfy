/** Optional values and error results shared by every module of the model. */
module Wrappers {

  /** A value that may be missing (Python's `None`). */
  datatype Option<+T> = None | Some(value: T)

  /** A successful value or an error. */
  datatype Result<+T, +E> = Ok(value: T) | Err(error: E)
}
