/** Optional values and success-or-error results, standing in for JavaScript's
    `undefined`/`null` and for thrown-and-caught errors. */
module Wrappers {

  /** A value that may be absent (`undefined` or `null` in the source). */
  datatype Option<+T> = None | Some(value: T) {

    /** The carried value, or `default` when absent. */
    function GetOr(default: T): T {
      match this
      case Some(v) => v
      case None => default
    }
  }

  /** The outcome of a step that either produces a value or fails with an error. */
  datatype Result<+T, +E> = Success(value: T) | Failure(error: E)
}
