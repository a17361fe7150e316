/** Option and Result values used in place of Python's `None` and raised exceptions. */
module Wrappers {

  /** A value that may be missing, as a Python function that can fall off its end and return `None`. */
  datatype Option<+T> = None | Some(value: T)

  /** The outcome of a call that either returns a value or raises an error. */
  datatype Result<+T, +E> = Ok(value: T) | Err(error: E)
}
