/** Values that stand for an optional result, a raised exception and a skipped field. */
module Results {

  datatype Option<+T> = None | Some(value: T)

  /** `Failure` stands for a raised exception. */
  datatype Result<+T, +E> = Success(value: T) | Failure(error: E)

  /** `Missing[T]`: a field that may hold the `Undefined` marker. */
  datatype Missing<+T> = Undefined | Given(value: T)
}
