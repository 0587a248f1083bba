/** Failure-carrying return types used throughout the model: `Option` for Go's
    nil-able pointers and interfaces, `Result` for a value-or-error pair, and
    `Outcome` for a bare `error` return. */
module Wrappers {

  datatype Option<+T> = None | Some(value: T)

  datatype Result<+R, +E> = Success(value: R) | Failure(error: E)

  datatype Outcome<+E> = Pass | Fail(error: E)
}
