/** Optional values and results with an error message. */
module Wrappers {
  /** A value that may be absent (JavaScript's `null`). */
  datatype Option<T> = None | Some(value: T)

  /** A computation that either yields a value or throws. */
  datatype Result<T> = Success(value: T) | Failure(error: string)
}
