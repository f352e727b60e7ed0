/** Option and Result, the two failure-carrying values used throughout the model. */
module Wrappers {

  /** A value that may be missing (Kotlin's nullable `T?`, Java's `null`). */
  datatype Option<+T> = None | Some(value: T) {
    function GetOr(default: T): T {
      match this
      case Some(v) => v
      case None => default
    }
  }

  /**
   * The outcome of an operation that can fail with an error value (Kotlin's `Result<T>`,
   * or an exception caught by the caller). Usable with `:-`.
   */
  datatype Result<+T, +E> = Success(value: T) | Failure(error: E) {
    predicate IsFailure() {
      Failure?
    }

    function PropagateFailure<U>(): Result<U, E>
      requires Failure?
    {
      Failure(error)
    }

    function Extract(): T
      requires Success?
    {
      value
    }
  }
}
