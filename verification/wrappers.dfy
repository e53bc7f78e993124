/** Optional values and success-or-error results, the shapes the portal's
    handlers use for `undefined` fields and for form validation errors. */
module Wrappers {

  /** A value that may be absent (`undefined` / `null` in the portal). */
  datatype Option<+T> = None | Some(value: T)

  /** The outcome of an operation that either produces a value or reports an error. */
  datatype Result<+R, +E> = Success(value: R) | Failure(error: E)
}
