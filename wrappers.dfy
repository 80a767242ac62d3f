/** Failure-carrying return values shared by the modules of this model. */
module Wrappers {

  /** A value that may be missing: an `undefined` field, or the `null` a failed lookup resolves to. */
  datatype Option<+T> = None | Some(value: T)

  /** The outcome of an operation that returns a value or throws. */
  datatype Result<+R, +E> = Success(value: R) | Failure(error: E)

  /** The outcome of an operation that returns nothing or throws. */
  datatype Outcome<+E> = Pass | Fail(error: E)
}
