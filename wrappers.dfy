/** Nullable values and exceptions of the .NET code, as values. */
module Wrappers {

  /** A nullable reference or `int?`: `None` stands for null. */
  datatype Option<+T> = None | Some(value: T)

  /** The outcome of a call that may throw: `Failure` carries the exception message. */
  datatype Result<+T> = Success(value: T) | Failure(error: string)
}
