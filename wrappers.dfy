/** Option and Result types shared by the Maple helper modules. */
module Wrappers {

  /** A value that may be absent: the model of a C pointer that may be NULL. */
  datatype Option<+T> = None | Some(value: T)

  /** The outcome of an operation that can fail with an error value. */
  datatype Result<+R, +E> = Success(value: R) | Failure(error: E)
}
