/**
  Failure-compatible datatypes shared by the model, usable with `:-`:
  Option for reads that may fail without a reason, Result for those that
  fail with an error value.
 */
module Wrappers {

  datatype Option<T> = None | Some(value: T) {

    predicate IsFailure()
    {
      None?
    }

    function PropagateFailure<U>(): Option<U>
      requires None?
    {
      None
    }

    function Extract(): T
      requires Some?
    {
      value
    }
  }

  datatype Result<T, E> = Ok(value: T) | Err(error: E) {

    predicate IsFailure()
    {
      Err?
    }

    /** The same error, for a caller that would have returned a different value. */
    function PropagateFailure<U>(): Result<U, E>
      requires Err?
    {
      Err(error)
    }

    function Extract(): T
      requires Ok?
    {
      value
    }
  }
}
