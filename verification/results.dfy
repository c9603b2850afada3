/** Failure-compatible wrappers used in place of JavaScript's `undefined`
    and thrown exceptions. */
module Results {

  datatype Option<+T> = None | Some(value: T)

  /** Either a value or a failure; usable with `:-`. */
  datatype Result<+T, +E> = Success(value: T) | Failure(error: E) {

    predicate IsFailure() {
      Failure?
    }

    function PropagateFailure<U>(): Result<U, E>
      requires Failure?
    {
      Failure(error)
    }

    function Extract(): T
      requires Success?
    {
      value
    }
  }
}
