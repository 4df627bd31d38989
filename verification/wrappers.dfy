/** Option and Result values shared by the favorites and job-detail modules. */
module Wrappers {

  /** A value that may be absent: TypeScript's `T | null` and optional props. */
  datatype Option<+T> = None | Some(value: T)

  /** The outcome of an expression that either yields a value or throws. */
  datatype Result<+R, +E> = Success(value: R) | Failure(error: E)
}
