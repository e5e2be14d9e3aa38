/** Option and Result, the two wrappers the Rust code returns, and the outcome of a call that may panic. */
module Wrappers {

  datatype Option<+T> = None | Some(value: T)

  datatype Result<+T, +E> = Success(value: T) | Failure(error: E)

  /** A call either returns a value or panics. */
  datatype Outcome<+T> = Returned(value: T) | Panicked
}
