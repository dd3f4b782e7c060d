/** Option and Result values standing for the nullable pointers, map lookups
    and thrown exceptions of the C++ source. */
module Wrappers {

  datatype Option<+T> = None | Some(value: T)

  /** The outcome of an operation that either succeeds with a value or raises
      the exception named by `error`. */
  datatype Result<+T, +E> = Ok(value: T) | Err(error: E) {
    predicate IsFailure() { Err? }
    function PropagateFailure<U>(): Result<U, E>
      requires Err?
    {
      Err(error)
    }
    function Extract(): T
      requires Ok?
    {
      value
    }
  }

  /** The outcome of an operation that returns nothing or raises `error`. */
  datatype Outcome<+E> = Pass | Fail(error: E)
}
