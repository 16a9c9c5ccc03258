/** Failure-carrying values shared by the codec and the upload loop. */
module Wrappers {

  /** A value that may be absent (JavaScript's `undefined`). */
  datatype Option<+T> = None | Some(value: T)

  /** The outcome of an operation that either returns a value or throws an error. */
  datatype Result<+T, +E> = Ok(value: T) | Err(error: E)
}
