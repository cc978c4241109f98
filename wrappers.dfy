/** Option and Result, the two failure-aware wrappers the model uses. */
module Wrappers {

  datatype Option<+T> = None | Some(value: T)

  /** The outcome of a step that may raise: `Failure` stands for the Python exception. */
  datatype Result<+R, +E> = Success(value: R) | Failure(error: E)
}
