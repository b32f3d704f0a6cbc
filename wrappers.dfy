/** Optional values and results with an error, as the source's `null`
    returns and thrown errors are modelled throughout the project. */
module Wrappers {

  datatype Option<+T> = None | Some(value: T)

  datatype Result<+T, +E> = Success(value: T) | Failure(error: E)
}
