/** Option and Result, used for JavaScript's null/undefined and for thrown errors. */
module Wrappers {

  datatype Option<+T> = None | Some(value: T)

  /** A computation that either returns a value or throws; the error carries the thrown message. */
  datatype Result<+T, +E> = Ok(value: T) | Err(error: E)
}
