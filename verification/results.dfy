/** Optional values and success-or-failure values shared by the whole model. */
module Results {

  /** A value that may be absent, such as a field a request body did not carry. */
  datatype Option<+T> = None | Some(value: T)

  /** The outcome of a validation: the accepted value, or what was wrong with the input. */
  datatype Result<+T, +E> = Success(value: T) | Failure(error: E)
}
