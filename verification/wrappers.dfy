/** Optional values and results used across the model. */
module Wrappers {

  /** An optional value: a decision that may select nothing. */
  datatype Option<+T> = None | Some(value: T)

  /** A value or the reason it could not be produced. */
  datatype Result<+R, +E> = Success(value: R) | Failure(error: E)
}
