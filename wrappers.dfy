/** Failure-carrying values used for the wrapper's thrown errors. */
module Wrappers {

  datatype Option<+T> = None | Some(value: T)

  /** What a JavaScript call that either returns normally or throws comes to. */
  datatype Outcome<+E> = Pass | Fail(error: E)

  datatype Result<+R, +E> = Success(value: R) | Failure(error: E)
}
