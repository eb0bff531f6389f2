/** Failure-carrying results used wherever the source raises an exception. */
module Wrappers {

  datatype Option<+T> = None | Some(value: T)

  /** A value or the error the source would raise; usable with `:-`. */
  datatype Result<+R, +E> = Ok(value: R) | Err(error: E)
  {
    predicate IsFailure() {
      Err?
    }

    function PropagateFailure<U>(): Result<U, E>
      requires Err?
    {
      Err(error)
    }

    function Extract(): R
      requires Ok?
    {
      value
    }
  }
}
