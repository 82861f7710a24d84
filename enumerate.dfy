/** Running a fallible step over a list in order, as Python's
    `for ind, x in enumerate(xs): out.append(f(ind, x))` does when `f` may
    raise: the first raise ends the loop and nothing is returned. */
module Enumerate {
  import opened Wrappers

  function MapAll<T, U, E>(f: (nat, T) -> Result<U, E>, items: seq<T>): Result<seq<U>, E>
    decreases |items|
  {
    if items == [] then Success([])
    else
      var front :- MapAll(f, items[..|items| - 1]);
      var x :- f(|items| - 1, items[|items| - 1]);
      Success(front + [x])
  }

  /** A raise on a prefix is the raise of the whole run. */
  lemma {:induction false} MapAllFailureSticks<T, U, E>(f: (nat, T) -> Result<U, E>, items: seq<T>, n: nat)
    requires n <= |items|
    requires MapAll(f, items[..n]).Failure?
    ensures MapAll(f, items) == MapAll(f, items[..n])
    decreases |items| - n
  {
    if n < |items| {
      assert items[..n + 1][..n] == items[..n];
      MapAllFailureSticks(f, items, n + 1);
    } else {
      assert items[..n] == items;
    }
  }

  /** One result per element, in element order, each the step's result at
      that element's index. */
  lemma {:induction false} MapAllSuccess<T, U, E>(f: (nat, T) -> Result<U, E>, items: seq<T>)
    requires MapAll(f, items).Success?
    ensures |MapAll(f, items).value| == |items|
    ensures forall i :: 0 <= i < |items| ==> f(i, items[i]) == Success(MapAll(f, items).value[i])
    decreases |items|
  {
    if items != [] {
      var n := |items| - 1;
      MapAllSuccess(f, items[..n]);
      forall i | 0 <= i < n
        ensures f(i, items[i]) == Success(MapAll(f, items).value[i])
      {
        assert items[..n][i] == items[i];
      }
    }
  }

  /** All or nothing: the run fails exactly when the step fails on some
      element. */
  lemma {:induction false} MapAllFailure<T, U, E>(f: (nat, T) -> Result<U, E>, items: seq<T>)
    ensures MapAll(f, items).Failure? <==> exists i :: 0 <= i < |items| && f(i, items[i]).Failure?
    decreases |items|
  {
    if items != [] {
      var n := |items| - 1;
      var front := items[..n];
      MapAllFailure(f, front);
      if MapAll(f, front).Success? {
        MapAllSuccess(f, front);
        forall i | 0 <= i < n
          ensures f(i, items[i]).Success?
        {
          assert front[i] == items[i];
        }
      } else {
        var i :| 0 <= i < |front| && f(i, front[i]).Failure?;
        assert front[i] == items[i];
      }
    }
  }

  /** `i` is the first index at which the step fails. */
  predicate FirstFailure<T, U, E>(f: (nat, T) -> Result<U, E>, items: seq<T>, i: nat) {
    i < |items| && f(i, items[i]).Failure? && forall j :: 0 <= j < i ==> f(j, items[j]).Success?
  }

  /** The error of a failed run is the step's error at the first element on
      which it fails. */
  lemma {:induction false} MapAllFirstError<T, U, E>(f: (nat, T) -> Result<U, E>, items: seq<T>)
    requires MapAll(f, items).Failure?
    ensures exists i: nat :: FirstFailure(f, items, i) && f(i, items[i]) == Failure(MapAll(f, items).error)
    decreases |items|
  {
    var n := |items| - 1;
    var front := items[..n];
    assert forall i :: 0 <= i < |front| ==> front[i] == items[i];
    if MapAll(f, front).Success? {
      MapAllSuccess(f, front);
      assert f(n, items[n]) == Failure(MapAll(f, items).error);
      assert FirstFailure(f, items, n);
    } else {
      MapAllFirstError(f, front);
      var i: nat :| FirstFailure(f, front, i) && f(i, front[i]) == Failure(MapAll(f, front).error);
      assert f(i, items[i]) == Failure(MapAll(f, items).error);
      assert FirstFailure(f, items, i);
    }
  }
}
