// Failure-compatible values shared by every module.
module Wrappers {

  datatype Option<+T> = None | Some(value: T)

  // The source's `Result<T, E>`; usable with `:-`.
  datatype Result<+T, +E> = Ok(value: T) | Err(error: E) {
    predicate IsFailure() {
      Err?
    }

    function PropagateFailure<U>(): Result<U, E>
      requires Err?
    {
      Err(error)
    }

    function Extract(): T
      requires Ok?
    {
      value
    }
  }

  // The value of an `Option` as a sequence of at most one element.
  function Listed<T>(o: Option<T>): seq<T> {
    match o
    case None => []
    case Some(v) => [v]
  }
}
