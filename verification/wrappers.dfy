/** Failure-carrying values used across the model: an optional value and
    the outcome of a call that may raise. */
module Wrappers {

  datatype Option<+T> = None | Some(value: T)

  /** Either the value a call produced or the error it raised. */
  datatype Result<+R, +E> = Success(value: R) | Failure(error: E)
}
