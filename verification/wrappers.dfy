/** Failure-carrying datatypes shared by the comment modules. */
module Wrappers {

  /** A value that may be absent: an optional field, a missing query key. */
  datatype Option<+T> = None | Some(value: T)

  /** The outcome of an operation that either yields a value or throws an error. */
  datatype Result<+T, +E> = Success(value: T) | Failure(error: E)

  /** The outcome of a check that yields nothing on success. */
  datatype Outcome<+E> = Pass | Fail(error: E)
}
