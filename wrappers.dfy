/** Optional values and results that carry an error instead of raising it. */
module Wrappers {

  /** A value that may be absent: Python's `None` or a nullable column. */
  datatype Option<+T> = None | Some(value: T)

  /** The outcome of an operation that either produces a value or fails with an error. */
  datatype Result<+T, +E> = Success(value: T) | Failure(error: E)
}
