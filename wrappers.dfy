/** Optional values and results with an error, shared by the other modules. */
module Wrappers {

  /** An optional value: a file that could be read, a listing that exists. */
  datatype Option<+T> = None | Some(value: T)

  /** A value or the error that prevented computing it. */
  datatype Result<+T, +E> = Success(value: T) | Failure(error: E)
}
