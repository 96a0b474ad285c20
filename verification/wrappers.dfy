/** Failure-carrying values shared by every module of the crawler model. */
module Wrappers {

  /** A value that may be absent: a missing attribute, a failed parse, an unreadable file. */
  datatype Option<+T> = None | Some(value: T)

  /** The outcome of a step that may throw: its value, or the error it throws. */
  datatype Result<+T, +E> = Success(value: T) | Failure(error: E)
}
