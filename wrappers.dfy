/** Optional values and results with an error, as used throughout the model. */
module Wrappers {

  /** A value that may be absent: TypeScript's `T | undefined`. */
  datatype Option<+T> = None | Some(value: T)

  /** The outcome of a validation: the parsed value, or the errors found. */
  datatype Result<+R, +E> = Success(value: R) | Failure(error: E)
}
