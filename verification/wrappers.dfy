/** Failure-compatible option and result types shared by every module. */
module Wrappers {

  /** A value that may be absent; Python's `None` in this model. */
  datatype Option<+T> = None | Some(value: T) {

    /** The wrapped value, or `default` when absent (Python's `dict.get(k, default)`). */
    function GetOr(default: T): T {
      match this
      case Some(v) => v
      case None => default
    }
  }

  /** Either a value or an error, for operations that raise in the source. */
  datatype Result<+R, +E> = Success(value: R) | Failure(error: E) {

    predicate IsFailure() {
      Failure?
    }

    function PropagateFailure<U>(): Result<U, E>
      requires Failure?
    {
      Failure(error)
    }

    function Extract(): R
      requires Success?
    {
      value
    }
  }
}
