/** Option and Result: the shapes in which the model reports absent values and thrown errors. */
module Wrappers {

  /** A value that may be absent (an optional field, a failed match). */
  datatype Option<+T> = None | Some(value: T)

  /** The outcome of an operation that may throw: the value, or the thrown error. */
  datatype Result<+R, +E> = Success(value: R) | Failure(error: E)
}
