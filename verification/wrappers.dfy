/** Failure-compatible wrappers used across the rules: an optional value and
    a success-or-error result (the model of a thrown configuration error). */
module Wrappers {

  /** A value that may be absent (JavaScript's `undefined`). */
  datatype Option<+T> = None | Some(value: T)

  /** Either a validated value or the error that would have been thrown. */
  datatype Result<+R, +E> = Success(value: R) | Failure(error: E)
}
