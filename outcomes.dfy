/** Optional values and results that carry a failure. */
module Outcomes {

  /** An optional value; `None` stands for JavaScript's `undefined`. */
  datatype Option<+T> = None | Some(value: T)

  /** A computation that either produced a value or raised `error`. */
  datatype Result<+T, +E> = Ok(value: T) | Err(error: E) {

    predicate IsFailure() {
      Err?
    }

    function PropagateFailure<U>(): Result<U, E>
      requires Err?
    {
      Err(error)
    }

    function Extract(): T
      requires Ok?
    {
      value
    }
  }
}
