/** Optional values and success/failure results used throughout the model. */
module Wrappers {

  datatype Option<+T> = None | Some(value: T)

  /** The outcome of a call to the scanning service: a success body or the error the client raised. */
  datatype Result<+R, +E> = Success(value: R) | Failure(error: E)
}
