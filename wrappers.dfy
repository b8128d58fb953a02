/** Option and Result, the failure-carrying values every operation of the model returns. */
module Wrappers {

  datatype Option<+T> = None | Some(value: T)

  /** An operation either succeeds with a value or fails with an error; a failure carries no value. */
  datatype Result<+T, +E> = Success(value: T) | Failure(error: E)
}
