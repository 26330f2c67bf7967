/** Optional values and success-or-error results shared by every module. */
module Wrappers {

  /** A value that may be absent: a nullable column, an optional input field. */
  datatype Option<+T> = None | Some(value: T)

  /** The outcome of an operation that either returns a value or throws. */
  datatype Result<+T, +E> = Ok(value: T) | Err(error: E)
}
