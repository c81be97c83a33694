/** Failure-compatible wrappers for the Java model: `Option` stands for a nullable
    reference, `Result` for a value or a thrown exception. */
module Wrappers {

  datatype Option<+T> = None | Some(value: T) {
    function GetOr(default: T): T {
      match this
      case Some(v) => v
      case None => default
    }
  }

  datatype Result<+R, +E> = Success(value: R) | Failure(error: E) {
    predicate IsFailure() {
      Failure?
    }

    function PropagateFailure<U>(): Result<U, E>
      requires Failure?
    {
      Failure(error)
    }

    function Extract(): R
      requires Success?
    {
      value
    }
  }

  datatype Outcome<+E> = Pass | Fail(error: E)

  /** Two list-building steps in sequence: both lists, or the first failure. */
  function Combine<T, E>(a: Result<seq<T>, E>, b: Result<seq<T>, E>): Result<seq<T>, E> {
    if a.Failure? then a else if b.Failure? then b else Success(a.value + b.value)
  }

  lemma CombineEmpty<T, E>(b: Result<seq<T>, E>)
    ensures Combine(Success([]), b) == b
  {
    if b.Success? {
      assert [] + b.value == b.value;
    }
  }

  lemma CombineAssociative<T, E>(a: Result<seq<T>, E>, b: Result<seq<T>, E>, c: Result<seq<T>, E>)
    ensures Combine(Combine(a, b), c) == Combine(a, Combine(b, c))
  {
    if a.Success? && b.Success? && c.Success? {
      assert (a.value + b.value) + c.value == a.value + (b.value + c.value);
    }
  }
}
