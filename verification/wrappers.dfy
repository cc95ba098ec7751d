/** Optional values and results with an error, used where the crawler's Go code
    returns a value together with an error (or a nil pointer). */
module Wrappers {

  datatype Option<+T> = None | Some(value: T)

  datatype Result<+R, +E> = Success(value: R) | Failure(error: E)
}
