/** Option and Result values for the error returns of the Go code (`nil` values and `error`s). */
module Results {

  datatype Option<+T> = None | Some(value: T)

  /** A value or an error: the `(T, error)` pair of a Go function with exactly one of the two set. */
  datatype Result<+T, +E> = Ok(value: T) | Err(error: E)
}
