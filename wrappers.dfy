/** Failure-compatible wrappers used for the absent fields and the exceptions of the model. */
module Wrappers {

  /** A JavaScript field that may be `undefined`/`null`. */
  datatype Option<+T> = None | Some(value: T)

  /** A value, or the exception the source would throw instead. */
  datatype Result<+R, +E> = Success(value: R) | Failure(error: E) {
    predicate IsFailure() {
      Failure?
    }

    function PropagateFailure<U>(): Result<U, E>
      requires Failure?
    {
      Failure(error)
    }

    function Extract(): R
      requires Success?
    {
      value
    }
  }
}
