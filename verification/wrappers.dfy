/** Failure-compatible wrappers used throughout the model. */
module Wrappers {

  /** An optional value; `None` plays the part of a Go nil pointer. */
  datatype Option<+T> = None | Some(value: T)

  /** The outcome of an operation that may end in a fatal internal error. */
  datatype Result<+R, +E> = Success(value: R) | Failure(error: E) {
    predicate IsFailure() {
      Failure?
    }

    function PropagateFailure<U>(): Result<U, E>
      requires Failure?
    {
      Failure(error)
    }

    function Extract(): R
      requires Success?
    {
      value
    }
  }
}
