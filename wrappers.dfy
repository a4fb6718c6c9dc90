/** Optional values and success/failure results, used where the source
    returns `undefined`, `NaN` or an error callback. */
module Wrappers {

  datatype Option<+T> = None | Some(value: T)

  datatype Result<+T, +E> = Success(value: T) | Failure(error: E)
}
