/** Failure-compatible wrappers used across the model: a value that may be
    absent (Python's `None`) and an outcome that may be an exception. */
module Wrappers {

  datatype Option<+T> = None | Some(value: T)

  /** The outcome of a call that may raise: `Raised` carries the exception's name. */
  datatype Result<+T> = Ok(value: T) | Raised(exception: string)
}
