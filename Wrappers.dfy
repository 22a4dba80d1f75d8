/** Nullable values and thrown exceptions of the gateway, as values. */
module Wrappers {

  /** A Kotlin `T?`: either absent (null) or present. */
  datatype Option<+T> = None | Some(value: T)

  /** The outcome of an operation that may throw: a value or the error it raised. */
  datatype Result<+T, +E> = Success(value: T) | Failure(error: E)
}
