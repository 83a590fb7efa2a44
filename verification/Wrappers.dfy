/** The usual failure-compatible datatypes: Option for a missing value, Result for Go's (value, error) pairs. */
module Wrappers {
  datatype Option<+T> = None | Some(value: T)

  datatype Result<+T, +E> = Ok(value: T) | Err(error: E) {
    predicate IsFailure() {
      Err?
    }

    function PropagateFailure<U>(): Result<U, E>
      requires Err?
    {
      Err(error)
    }

    function Extract(): T
      requires Ok?
    {
      value
    }
  }

  /** What a loop that has collected done will return when the rest of the list gives rest. */
  function Prepend<T, E>(done: seq<T>, rest: Result<seq<T>, E>): Result<seq<T>, E> {
    match rest
    case Ok(values) => Ok(done + values)
    case Err(e) => Err(e)
  }

  lemma PrependToAll<T, E>(done: seq<T>, more: seq<T>, rest: Result<seq<T>, E>)
    ensures Prepend(done, Prepend(more, rest)) == Prepend(done + more, rest)
    ensures Prepend([], rest) == rest
  {
    if rest.Ok? {
      assert done + (more + rest.value) == done + more + rest.value;
      assert [] + rest.value == rest.value;
    }
  }
}
