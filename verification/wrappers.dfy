/** Failure-carrying datatypes shared by the services of the fitness tracker. */
module Wrappers {

  /** A value that may be absent; it stands for SQL NULL and for "no row found". */
  datatype Option<+T> = None | Some(value: T)

  /** The outcome of an operation that either succeeds with a value or fails with an error. */
  datatype Result<+R, +E> = Success(value: R) | Failure(error: E)
}
