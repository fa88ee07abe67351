/** Failure-compatible wrappers used across the model. */
module Wrappers {

  /** An optional value; `None` stands for JavaScript's `undefined` where the source reads a
      property or searches a list and finds nothing. */
  datatype Option<+T> = None | Some(value: T)

  /** A computation that either succeeds or throws; `Failure` carries what was thrown. */
  datatype Result<+T, +E> = Success(value: T) | Failure(error: E)
}
