/** Failure-compatible wrappers used for the source's `None` returns and raised exceptions. */
module Wrappers {

  /** Python's `Optional[T]`: either `None` or a value. */
  datatype Option<+T> = None | Some(value: T)

  /** The outcome of an operation that either returns a value or raises an error. */
  datatype Result<+T, +E> = Success(value: T) | Failure(error: E) {

    predicate IsFailure() {
      Failure?
    }

    function PropagateFailure<U>(): Result<U, E>
      requires Failure?
    {
      Failure(error)
    }

    function Extract(): T
      requires Success?
    {
      value
    }
  }

  function Min(a: int, b: int): int {
    if a <= b then a else b
  }

  function Max(a: int, b: int): int {
    if a <= b then b else a
  }

  /** The facts about `a / b` the ratios rely on, proved once away from everything else. */
  lemma RatioFacts(a: nat, b: nat)
    requires b > 0
    ensures 0.0 <= a as real / b as real
    ensures a <= b ==> a as real / b as real <= 1.0
    ensures a > 0 ==> a as real / b as real > 0.0
    ensures a == 0 ==> a as real / b as real == 0.0
    ensures a as real / b as real == 1.0 <==> a == b
  {
  }
}
