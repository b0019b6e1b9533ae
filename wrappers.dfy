/** Option and Result, the two failure-carrying wrappers the model uses. */
module Wrappers {

  /** A value that may be missing: Java's `null` reference or an empty `Optional`. */
  datatype Option<+T> = None | Some(value: T)

  /** Either a value or the typed failure an operation raised instead. */
  datatype Result<+T, +E> = Success(value: T) | Failure(error: E)
}
