/** The optional-value and success-or-error wrappers shared by the other modules. */
module Wrappers {

  /** A value that may be absent: JavaScript's `undefined` / `null` on one side, a value on the other. */
  datatype Option<+T> = None | Some(value: T)

  /** The outcome of an operation that either yields a value or fails with an error. */
  datatype Result<+T, +E> = Success(value: T) | Failure(error: E)
}
