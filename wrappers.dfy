/** Optional values and success-or-error results, as the source's `T | null`,
    `Option<T>` and `Result<T, String>` carry them. */
module Wrappers {
  datatype Option<+T> = None | Some(value: T)

  datatype Result<+T, +E> = Success(value: T) | Failure(error: E)
}
