/** Option and Result, the two failure-compatible wrappers the model uses for
    absent values and for the errors the wallet commands throw. */
module Wrappers {

  datatype Option<+T> = None | Some(value: T)

  datatype Result<+R, +E> = Success(value: R) | Failure(error: E)
}
