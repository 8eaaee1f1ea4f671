/** Optional values and failure-compatible results shared by every module of the model. */
module Results {

  datatype Option<+T> = None | Some(value: T)

  /** A JavaScript call that either returns a value or throws an error. */
  datatype Result<+T, +E> = Ok(value: T) | Err(error: E) {
    predicate IsFailure() { Err? }

    function PropagateFailure<U>(): Result<U, E>
      requires Err?
    {
      Err(error)
    }

    function Extract(): T
      requires Ok?
    {
      value
    }
  }
}
