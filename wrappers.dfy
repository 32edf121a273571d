/** Option and Result: the absent values and the thrown errors of the source, made explicit. */
module Wrappers {

  datatype Option<+T> = None | Some(value: T)

  /** A computation that either produces a value or fails with an error (the source's `throw`). */
  datatype Result<+T, +E> = Success(value: T) | Failure(error: E)
}
