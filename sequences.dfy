/** Order-preserving selection from a list, as a loop that appends the
    elements a test accepts produces it. */
module Sequences {

  /** The elements of `s` that `keep` accepts, in their order in `s`. */
  function Filter<T>(s: seq<T>, keep: T -> bool): (r: seq<T>)
    ensures |r| <= |s|
    ensures forall x :: x in r ==> x in s && keep(x)
  {
    if s == [] then []
    else Filter(s[..|s| - 1], keep) + (if keep(s[|s| - 1]) then [s[|s| - 1]] else [])
  }

  /** The positions in `s` of the elements that `keep` accepts, in increasing order. */
  function KeptIndices<T>(s: seq<T>, keep: T -> bool): (idx: seq<nat>)
    ensures forall k :: 0 <= k < |idx| ==> idx[k] < |s|
    ensures forall k, l :: 0 <= k < l < |idx| ==> idx[k] < idx[l]
  {
    if s == [] then []
    else KeptIndices(s[..|s| - 1], keep) + (if keep(s[|s| - 1]) then [|s| - 1] else [])
  }

  /** The filtered list is exactly the subsequence of `s` at the positions
      whose element passes: one entry per passing position, in increasing
      order, and no other position. */
  lemma FilterIsSubsequence<T>(s: seq<T>, keep: T -> bool)
    ensures var r, idx := Filter(s, keep), KeptIndices(s, keep);
      |idx| == |r| &&
      (forall k :: 0 <= k < |idx| ==> r[k] == s[idx[k]]) &&
      (forall k, l :: 0 <= k < l < |idx| ==> idx[k] < idx[l]) &&
      (forall i :: 0 <= i < |s| ==> (i in idx <==> keep(s[i])))
  {
    FilterAtIndices(s, keep);
    KeptIndicesExact(s, keep);
  }

  lemma {:induction false} FilterAtIndices<T>(s: seq<T>, keep: T -> bool)
    ensures var r, idx := Filter(s, keep), KeptIndices(s, keep);
      |idx| == |r| && forall k :: 0 <= k < |idx| ==> r[k] == s[idx[k]]
  {
    if s != [] {
      var init := s[..|s| - 1];
      FilterAtIndices(init, keep);
      var ri, ii := Filter(init, keep), KeptIndices(init, keep);
      forall k | 0 <= k < |ii| ensures ri[k] == s[ii[k]] {
        assert s[ii[k]] == init[ii[k]];
      }
    }
  }

  lemma {:induction false} KeptIndicesExact<T>(s: seq<T>, keep: T -> bool)
    ensures forall i :: 0 <= i < |s| ==> (i in KeptIndices(s, keep) <==> keep(s[i]))
  {
    if s != [] {
      var init := s[..|s| - 1];
      KeptIndicesExact(init, keep);
      var ii := KeptIndices(init, keep);
      forall i | 0 <= i < |s| ensures i in KeptIndices(s, keep) <==> keep(s[i]) {
        if i < |s| - 1 {
          assert s[i] == init[i];
        }
      }
    }
  }

  /** Every element that passes the test is kept. */
  lemma {:induction false} FilterKeepsPassing<T>(s: seq<T>, keep: T -> bool, x: T)
    requires x in s && keep(x)
    ensures x in Filter(s, keep)
  {
    var init := s[..|s| - 1];
    if x != s[|s| - 1] {
      assert s == init + [s[|s| - 1]];
      assert x in init;
      FilterKeepsPassing(init, keep, x);
    }
  }

  /** Filtering a concatenation filters each part. */
  lemma {:induction false} FilterAppend<T>(a: seq<T>, b: seq<T>, keep: T -> bool)
    ensures Filter(a + b, keep) == Filter(a, keep) + Filter(b, keep)
    decreases |b|
  {
    if b != [] {
      assert (a + b)[..|a + b| - 1] == a + b[..|b| - 1];
      FilterAppend(a, b[..|b| - 1], keep);
    } else {
      assert a + b == a;
    }
  }

  /** Nothing is kept exactly when no element passes. */
  lemma FilterEmpty<T>(s: seq<T>, keep: T -> bool)
    ensures Filter(s, keep) == [] <==> forall i :: 0 <= i < |s| ==> !keep(s[i])
  {
    if Filter(s, keep) == [] {
      forall i | 0 <= i < |s|
        ensures !keep(s[i])
      {
        if keep(s[i]) {
          FilterKeepsPassing(s, keep, s[i]);
        }
      }
    }
  }
}
