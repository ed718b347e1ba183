/** Option and Result, the failure-carrying types used throughout the model. */
module Wrappers {

  /** A value that may be absent (pandas' None / NaN in a cell). */
  datatype Option<+T> = None | Some(value: T)

  /** The outcome of a step that may raise. */
  datatype Result<+R, +E> = Success(value: R) | Failure(error: E)
}
