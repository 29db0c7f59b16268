/** Option and Result, the two failure-carrying shapes the model uses. */
module Wrappers {

  /** A value that may be missing; `None` stands for a pandas NaN or NaT. */
  datatype Option<+T> = None | Some(value: T)

  /** The outcome of a step that can raise. */
  datatype Result<+R, +E> = Success(value: R) | Failure(error: E)
}
