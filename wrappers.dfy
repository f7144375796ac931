/** Option and Result values shared by the other modules. */
module Wrappers {

  /** A value that may be absent; for a .NET string reference, None is null. */
  datatype Option<+T> = None | Some(value: T)

  /** The outcome of an operation that can throw: its value, or the error it raised. */
  datatype Result<+R, +E> = Success(value: R) | Failure(error: E)
}
