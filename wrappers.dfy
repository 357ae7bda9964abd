/** Optional values and results: Python's `None` and its raised exceptions, made explicit. */
module Wrappers {

  datatype Option<+T> = None | Some(value: T)

  /** The outcome of an operation that either returns a value or raises `error`. */
  datatype Result<+T, +E> = Success(value: T) | Failure(error: E)
}
