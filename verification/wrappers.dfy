/** Failure-compatible wrappers shared by every module of the model. */
module Wrappers {

  /** A value that may be missing: JavaScript's `T | null` (or `undefined`). */
  datatype Option<+T> = None | Some(value: T)

  /** The outcome of an operation that may reject its input with an error. */
  datatype Result<+T, +E> = Ok(value: T) | Err(error: E)
}
