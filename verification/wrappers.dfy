/** Failure-compatible result types shared by the whole model. */
module Wrappers {

  datatype Option<+T> = None | Some(value: T) {

    /** The value, or `e` as the error of a failed result. */
    function ToResult<E>(e: E): (r: Result<T, E>)
      ensures r.Ok? <==> Some?
      ensures Some? ==> r.value == value
      ensures None? ==> r.error == e
    {
      match this
      case Some(v) => Ok(v)
      case None => Err(e)
    }
  }

  /** The outcome of an operation that either yields a value or raises an error. */
  datatype Result<+T, +E> = Ok(value: T) | Err(error: E) {

    predicate IsFailure() {
      Err?
    }

    function PropagateFailure<U>(): Result<U, E>
      requires Err?
    {
      Err(error)
    }

    function Extract(): T
      requires Ok?
    {
      value
    }
  }
}
