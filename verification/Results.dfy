/** Outcome types standing for the source's `Option` and `Result`. */
module Results {

  datatype Option<+T> = None | Some(value: T)

  datatype Result<+T, +E> = Ok(value: T) | Err(error: E) {
    predicate IsFailure() {
      Err?
    }

    function PropagateFailure<U>(): Result<U, E>
      requires Err?
    {
      Err(error)
    }

    function Extract(): T
      requires Ok?
    {
      value
    }
  }

  /** The result with its error as the caller reports it. */
  function Lifted<T, E, F>(r: Result<T, E>, wrap: E -> F): Result<T, F> {
    match r
    case Ok(value) => Ok(value)
    case Err(error) => Err(wrap(error))
  }
}
