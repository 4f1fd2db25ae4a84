/** Failure-carrying result types shared by every module of the model.
    `Option` stands for the source's nullable handles, empty `VtValue`s and
    Python `None`; `Result` stands for calls that either produce a value or
    report an error (a `bool` return with an out-parameter, a thrown
    exception, a Python `KeyError`). */
module Wrappers {

  datatype Option<+T> = None | Some(value: T) {
    /** The value, or `default` when there is none. */
    function GetOr(default: T): T {
      match this
      case Some(v) => v
      case None => default
    }
  }

  datatype Result<+R, +E> = Success(value: R) | Failure(error: E) {
    predicate IsFailure() {
      Failure?
    }

    function PropagateFailure<U>(): Result<U, E>
      requires Failure?
    {
      Failure(error)
    }

    function Extract(): R
      requires Success?
    {
      value
    }
  }
}
