/** Failure-carrying values used throughout the model: `Option` for a slot that
    may be vacant, `Result` for an operation that may raise. */
module Wrappers {

  datatype Option<+T> = None | Some(value: T)

  datatype Result<+R, +E> = Success(value: R) | Failure(error: E)
}
