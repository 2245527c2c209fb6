/** The two failure-compatible datatypes the modules share. */
module Wrappers {
  /** A value that may be absent: the source's `null` and `undefined`. */
  datatype Option<+T> = None | Some(value: T)

  /** A call that may throw. */
  datatype Result<+T, +E> = Success(value: T) | Failure(error: E)
}
