/** Failure-carrying wrappers used throughout the model: Go's `(value, error)`
    pairs and nil-able values are written with these. */
module Wrappers {

  /** A value that may be absent (a nil pointer, a nil error). */
  datatype Option<+T> = None | Some(value: T)

  /** Either a value or the error that prevented it. */
  datatype Result<+T, +E> = Success(value: T) | Failure(error: E)
}
