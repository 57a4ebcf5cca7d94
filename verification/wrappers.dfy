/** Optional values, results with an error, and the "stop at the first failure"
    traversal that a Python loop whose body may raise amounts to. */
module Wrappers {

  /** A value that may be absent: a configuration key that may be missing. */
  datatype Option<+T> = None | Some(value: T) {

    /** The value, or `default` when absent (an optional key with a default). */
    function GetOr(default: T): T {
      match this
      case Some(v) => v
      case None => default
    }
  }

  /** Either a value or the error that the source raises instead. */
  datatype Result<+T, +E> = Success(value: T) | Failure(error: E) {

    predicate IsFailure() {
      Failure?
    }

    function PropagateFailure<U>(): Result<U, E>
      requires Failure?
    {
      Failure(error)
    }

    function Extract(): T
      requires Success?
    {
      value
    }
  }

  /** `i` is the position of the first element on which `f` fails. */
  ghost predicate FirstFailure<A, B, E>(xs: seq<A>, f: A -> Result<B, E>, i: int) {
    && 0 <= i < |xs|
    && f(xs[i]).Failure?
    && forall j :: 0 <= j < i ==> f(xs[j]).Success?
  }

  /** Applies `f` to every element in order and collects the results, or
      returns the error of the first element on which `f` fails. */
  function MapUntilFailure<A, B, E>(xs: seq<A>, f: A -> Result<B, E>): (r: Result<seq<B>, E>)
    ensures r.Success? <==> forall i :: 0 <= i < |xs| ==> f(xs[i]).Success?
    ensures r.Success? ==> |r.value| == |xs|
    ensures r.Success? ==> forall i :: 0 <= i < |xs| ==> r.value[i] == f(xs[i]).value
    ensures r.Failure? ==> exists i :: FirstFailure(xs, f, i) && r.error == f(xs[i]).error
  {
    if |xs| == 0 then Success([])
    else
      match f(xs[0])
      case Failure(e) =>
        assert FirstFailure(xs, f, 0);
        Failure(e)
      case Success(y) =>
        var rest := MapUntilFailure(xs[1..], f);
        match rest
        case Failure(e) =>
          FirstFailureShift(xs, f);
          Failure(e)
        case Success(ys) =>
          assert forall i :: 1 <= i < |xs| ==> xs[i] == xs[1..][i - 1];
          Success([y] + ys)
  }

  /** A first failure in the tail of `xs` is a first failure of `xs` one
      position later, when the head succeeds. */
  lemma FirstFailureShift<A, B, E>(xs: seq<A>, f: A -> Result<B, E>)
    requires |xs| > 0 && f(xs[0]).Success?
    ensures forall i :: FirstFailure(xs[1..], f, i) ==> FirstFailure(xs, f, i + 1)
  {
    forall i | FirstFailure(xs[1..], f, i)
      ensures FirstFailure(xs, f, i + 1)
    {
      assert xs[i + 1] == xs[1..][i];
      forall j | 0 <= j < i + 1
        ensures f(xs[j]).Success?
      {
        if j > 0 {
          assert xs[j] == xs[1..][j - 1];
        }
      }
    }
  }

  /** When `f` succeeds on every element, the traversal returns exactly the
      successes, in order. */
  lemma MapAllSucceed<A, B, E>(xs: seq<A>, f: A -> Result<B, E>, ys: seq<B>)
    requires |xs| == |ys|
    requires forall i :: 0 <= i < |xs| ==> f(xs[i]) == Success(ys[i])
    ensures MapUntilFailure(xs, f) == Success(ys)
  {
    var r := MapUntilFailure(xs, f);
    assert r.value == ys;
  }
}
