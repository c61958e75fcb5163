/** Failure-compatible wrappers used throughout the model. */
module Wrappers {

  /** An optional value: the model's stand-in for a TypeScript `T | null`. */
  datatype Option<+T> = None | Some(value: T)

  /** The outcome of a server function that can throw: `Failure` is the thrown error. */
  datatype Result<+R, +E> = Success(value: R) | Failure(error: E)
}
