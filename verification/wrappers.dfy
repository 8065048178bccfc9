/** Failure-compatible wrappers used to model Python exceptions as values. */
module Wrappers {

  datatype Option<+T> = None | Some(value: T)

  /** A value or the exception the Python code would raise instead. */
  datatype Result<+R, +E> = Success(value: R) | Failure(error: E) {
    predicate IsFailure() { Failure? }
    function PropagateFailure<U>(): Result<U, E>
      requires Failure?
    {
      Failure(error)
    }
    function Extract(): R
      requires Success?
    {
      value
    }
  }

  /** The outcome of a Python call that returns nothing but may raise. */
  datatype Outcome<+E> = Pass | Fail(error: E)
}
