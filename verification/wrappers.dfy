/** Optional values and error-carrying results used by the adjustment engine. */
module Wrappers {

  /** A value that may be absent (TypeScript's `T | undefined`). */
  datatype Option<+T> = None | Some(value: T)

  /** Either a value or the error that stopped the computation (a thrown exception). */
  datatype Result<+T, +E> = Success(value: T) | Failure(error: E)
}
