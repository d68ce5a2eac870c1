/** Optional values and results with an error, as the model's stand-ins for
    pandas' NaN / NaT and for raised exceptions. */
module Wrappers {

  datatype Option<+T> = None | Some(value: T)

  datatype Result<+T, +E> = Success(value: T) | Failure(error: E)
}
