/** Failure-carrying wrappers shared by the parser and the calculators. */
module Results {

  /** An optional value; `None` stands for JavaScript's `NaN` where a number is parsed. */
  datatype Option<+T> = None | Some(value: T)

  /** The outcome of an operation that may throw: the value, or the error it throws. */
  datatype Result<+T, +E> = Success(value: T) | Failure(error: E)
}
