/** Failure-carrying values used in place of thrown exceptions and nullable results. */
module Wrappers {

  /** A value that may be absent (`null`/`undefined` in the system). */
  datatype Option<+T> = None | Some(value: T)

  /** The outcome of an operation that either returns a value or throws an error. */
  datatype Result<+T, +E> = Success(value: T) | Failure(error: E)
}
