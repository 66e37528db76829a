/** The outcome of an operation that the source lets raise an exception. */
module Wrappers {

  datatype Option<+T> = None | Some(value: T)

  /** `Failure` carries the exception's message (for a `KeyError`, the key). */
  datatype Result<+T> = Success(value: T) | Failure(error: string)
}
