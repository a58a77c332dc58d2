/** The `Option` and `Result` datatypes used throughout the model: `Option` for a value that
    may be absent (JavaScript's `null`/`undefined`/`NaN`) and `Result` for an operation
    that either succeeds or throws one of the API's typed errors. */
module Wrappers {

  datatype Option<+T> = None | Some(value: T)

  datatype Result<+R, +E> = Success(value: R) | Failure(error: E)
}
