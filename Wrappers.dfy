/** Optional values and results with an error, as used throughout the model. */
module Wrappers {

  /** A value that may be absent (JavaScript's `undefined` for an optional field). */
  datatype Option<+T> = None | Some(value: T)

  /** The outcome of an operation that either returns a value or throws an error. */
  datatype Result<+T, +E> = Success(value: T) | Failure(error: E)
}
