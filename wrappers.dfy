/** Failure-carrying results shared by the whole model. */
module Wrappers {

  datatype Option<+T> = None | Some(value: T)

  /** The outcome of an operation that either returns a value or rejects with an error. */
  datatype Result<+T, +E> = Ok(value: T) | Err(error: E)

  /** The outcome of an operation that returns nothing (a `Promise<void>`) or rejects. */
  datatype Outcome<+E> = Pass | Fail(error: E)
}
