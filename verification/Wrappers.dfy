/** Option and Result, the two failure-aware wrappers the rest of the project uses. */
module Wrappers {

  /** A Go pointer that is only ever nil or points to an immutable value. */
  datatype Option<+T> = None | Some(value: T)

  /** A Go (value, error) pair of which exactly one is meaningful. */
  datatype Result<+T, +E> = Ok(value: T) | Err(error: E) {

    predicate IsFailure() {
      Err?
    }

    function PropagateFailure<U>(): Result<U, E>
      requires Err?
    {
      Err(error)
    }

    function Extract(): T
      requires Ok?
    {
      value
    }
  }
}
