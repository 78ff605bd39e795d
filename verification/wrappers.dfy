/** Failure-carrying result types used for the Go `(value, error)` returns. */
module Wrappers {

  /** An optional value; stands in for a nil-able pointer or an absent row. */
  datatype Option<+T> = None | Some(value: T)

  /** Either a value or an error, the two halves of a Go `(T, error)` pair. */
  datatype Result<+T, +E> = Ok(value: T) | Err(error: E)
}
