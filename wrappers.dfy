/** Failure-carrying results shared by every module of the model: a Java
    method that returns normally yields `Ok`, one that throws yields `Err`
    with the kind of exception. */
module Wrappers {

  datatype Option<+T> = None | Some(value: T)

  datatype Result<+T, +E> = Ok(value: T) | Err(error: E) {
    predicate IsFailure() { Err? }

    function PropagateFailure<U>(): Result<U, E>
      requires Err?
    {
      Err(error)
    }

    function Extract(): T
      requires Ok?
    {
      value
    }
  }

  /** The outcome of a `void` Java method: it returns, or it throws. */
  datatype Outcome<+E> = Pass | Fail(error: E)

  /** Sequences without repeated elements. */
  predicate NoDuplicates<T(==)>(s: seq<T>) {
    forall i, j :: 0 <= i < j < |s| ==> s[i] != s[j]
  }
}
