/** Option and Result, the two failure-carrying types the model threads through
    every operation. A Python exception that the script does not catch becomes a
    `Failure`; `Result` is failure-compatible, so `:-` propagates it the way the
    exception would propagate up the call stack. */
module Wrappers {

  datatype Option<+T> = None | Some(value: T)

  datatype Result<+T, +E> = Success(value: T) | Failure(error: E) {

    predicate IsFailure() {
      Failure?
    }

    function PropagateFailure<U>(): Result<U, E>
      requires Failure?
    {
      Failure(error)
    }

    function Extract(): T
      requires Success?
    {
      value
    }
  }
}
