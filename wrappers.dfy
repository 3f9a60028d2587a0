/** Option and Result: a value that may be missing, and a computation that may fail. */
module Wrappers {

  /** A value that may be absent (pandas' missing value, for one). */
  datatype Option<+T> = None | Some(value: T)

  /** The outcome of a call that either returns a value or raises with a description. */
  datatype Result<+T, +E> = Success(value: T) | Failure(error: E)
}
