/** Failure-carrying values shared by every module of the model. */
module Wrappers {

  datatype Option<+T> = None | Some(value: T)

  /** A call that either returns a value or raises one of the engine's errors. */
  datatype Result<+T, +E> = Success(value: T) | Failure(error: E)
}
