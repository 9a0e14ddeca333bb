/** The two failure-free and failure-carrying results used across the project. */
module Wrappers {

  /** A value that may be missing: the source's `None` and `null`. */
  datatype Option<+T> = None | Some(value: T)

  /** The source's exceptions: a value, or the error that was raised. */
  datatype Result<+T, +E> = Ok(value: T) | Err(error: E)
}
