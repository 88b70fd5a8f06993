/** Optional values and results with an error, used for pandas' missing marker and for the errors the script raises. */
module Wrappers {
  datatype Option<T> = None | Some(value: T)

  datatype Result<T, E> = Success(value: T) | Failure(error: E)
}
