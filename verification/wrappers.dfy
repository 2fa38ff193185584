/** Optional values and success/failure results, standing in for TypeScript's
    optional fields (`x?: T`, `undefined`) and for thrown errors. */
module Wrappers {

  /** An optional value: `None` is TypeScript's `undefined`. */
  datatype Option<+T> = None | Some(value: T) {

    /** The value, or `default` when absent (JavaScript's `x ?? default`). */
    function GetOr(default: T): T {
      match this
      case Some(v) => v
      case None => default
    }
  }

  /** A computation that either succeeds with a value or fails with an error. */
  datatype Result<+R, +E> = Success(value: R) | Failure(error: E)
}
