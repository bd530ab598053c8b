/** Failure-carrying datatypes used to model Java's null returns and exceptions. */
module Wrappers {

  /** A value that may be absent (Java's `null`, or a helper that would throw). */
  datatype Option<+T> = None | Some(value: T)

  /** A value or the error that would have been thrown instead of it. */
  datatype Result<+T, +E> = Success(value: T) | Failure(error: E) {

    predicate IsFailure() {
      Failure?
    }

    function PropagateFailure<U>(): Result<U, E>
      requires Failure?
    {
      Failure(error)
    }

    function Extract(): T
      requires Success?
    {
      value
    }
  }
}
