/** Failure-carrying wrappers shared by every module of the model: Go's
    `(value, error)` return pairs become `Result`, nil-able references
    become `Option`. */
module Base {

  /** A value that may be absent (a nil pointer, a missing map entry). */
  datatype Option<+T> = None | Some(value: T) {
    function GetOr(default: T): T {
      match this
      case Some(v) => v
      case None => default
    }
  }

  /** Either a value or the error that a Go function returned instead. */
  datatype Result<+T, +E> = Success(value: T) | Failure(error: E) {
    predicate IsFailure() {
      Failure?
    }

    function PropagateFailure<U>(): Result<U, E>
      requires Failure?
    {
      Failure(error)
    }

    function Extract(): T
      requires Success?
    {
      value
    }
  }

  /** An unsigned byte, as Go's `byte`. */
  type byte = b: int | 0 <= b < 256
}
