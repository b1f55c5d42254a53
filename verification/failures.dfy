/** Values in place of Python's `None` and exceptions. */
module Failures {

  /** A search that may find nothing (`None` in the scripts). */
  datatype Option<+T> = None | Some(value: T)

  /** A step that returns a value or raises. The three members let `:-` stop
      at the first raising step, as a `try` block does. */
  datatype Result<+R, +E> = Success(value: R) | Failure(error: E) {
    predicate IsFailure() { this.Failure? }

    function PropagateFailure<U>(): Result<U, E>
      requires this.Failure?
    {
      Failure(this.error)
    }

    function Extract(): R
      requires this.Success?
    {
      this.value
    }
  }

  /** A step that returns nothing and may raise (writing a file). */
  datatype Outcome<+E> = Pass | Fail(error: E)
}
