/** Optional values and results with an error, used where the source returns
    "nothing found", raises, or answers a platform channel with an error. */
module Wrappers {

  datatype Option<+T> = None | Some(value: T)

  datatype Result<+R, +E> = Success(value: R) | Failure(error: E)
}
