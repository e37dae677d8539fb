/** Absent values and failures, standing in for Java's `null` results and exceptions. */
module Wrappers {

  /** A slot or a result that may be absent (Java `null`). */
  datatype Option<+T> = None | Some(value: T)

  /** The outcome of an operation that may throw. */
  datatype Result<+R, +E> = Success(value: R) | Failure(error: E)
}
