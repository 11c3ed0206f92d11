/** Failure-carrying wrappers shared by the modules of this project. */
module Wrappers {

  /** A value that may be absent: a failed pattern match, a missing key. */
  datatype Option<+T> = None | Some(value: T)

  /** The outcome of an operation that can raise an error. */
  datatype Result<+T, +E> = Success(value: T) | Failure(error: E)
}
