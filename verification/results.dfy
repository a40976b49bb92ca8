/** Failure-carrying result types used by the model. */
module Results {

  /** A value that may be absent, as an unselected select box yields None. */
  datatype Option<+T> = None | Some(value: T)

  /** Either a computed value or the reason the computation stopped. */
  datatype Result<+R, +E> = Success(value: R) | Failure(error: E)
}
