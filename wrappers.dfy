/** Nullable references and exceptional outcomes, as plain values. */
module Wrappers {

  /** A Java reference that may be null. */
  datatype Option<+T> = None | Some(value: T)

  /** A call that either returns a value or throws; the error is the exception's text. */
  datatype Result<+R> = Success(value: R) | Failure(error: string)
}
