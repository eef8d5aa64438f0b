/** Failure-carrying values shared by every module of the model. */
module Base {

  /** An optional value: Python's `None` or Go's missing map entry. */
  datatype Option<T> = None | Some(value: T)

  /** The outcome of an operation that can raise (Python) or panic / exit (Go). */
  datatype Result<T, E> = Ok(value: T) | Err(error: E) {
    predicate IsFailure() { Err? }

    function PropagateFailure<U>(): Result<U, E>
      requires Err?
    {
      Err(error)
    }

    function Extract(): T
      requires Ok?
    {
      value
    }
  }
}
