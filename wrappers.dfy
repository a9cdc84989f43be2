/** Option and Result datatypes. */
module Wrappers {

  /** A value that may be absent: a parse that failed, a lookup that found nothing. */
  datatype Option<+T> = None | Some(value: T)

  /** The outcome of an operation that either produces a row or reports why it refused. */
  datatype Result<+T, +E> = Success(value: T) | Failure(error: E)
}
