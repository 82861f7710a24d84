/** Facts about a sequence and the sequence without its last element, for
    functions that are defined from the end of a list. */
module Seqs {
  /** A property holds of every element exactly when it holds of all but
      the last and of the last. */
  lemma AllSnoc<T>(p: T -> bool, xs: seq<T>, init: seq<T>)
    requires xs != [] && init == xs[..|xs| - 1]
    ensures (forall i :: 0 <= i < |xs| ==> p(xs[i])) <==>
      (forall i :: 0 <= i < |init| ==> p(init[i])) && p(xs[|xs| - 1])
  {
    if forall i :: 0 <= i < |init| ==> p(init[i]) {
      forall i | 0 <= i < |init|
        ensures p(xs[i])
      {
        assert init[i] == xs[i];
      }
    }
  }

  /** A property holds of some element exactly when it holds of one of all
      but the last, or of the last. */
  lemma ExistsSnoc<T>(p: T -> bool, xs: seq<T>, init: seq<T>)
    requires xs != [] && init == xs[..|xs| - 1]
    ensures (exists i :: 0 <= i < |xs| && p(xs[i])) <==>
      (exists i :: 0 <= i < |init| && p(init[i])) || p(xs[|xs| - 1])
  {
    var n := |init|;
    if exists i :: 0 <= i < |xs| && p(xs[i]) {
      var i :| 0 <= i < |xs| && p(xs[i]);
      if i < n {
        assert init[i] == xs[i];
      }
    }
    if exists i :: 0 <= i < n && p(init[i]) {
      var i :| 0 <= i < n && p(init[i]);
      assert init[i] == xs[i];
    }
  }
}
