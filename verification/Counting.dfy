/** Counting arguments about numbers: sequences of them and finite sets. */
module Counting {
  ghost predicate Distinct(s: seq<nat>) {
    forall i, j :: 0 <= i < j < |s| ==> s[i] != s[j]
  }

  ghost function Below(n: nat): (r: set<nat>)
    ensures |r| == n && forall x: nat :: x in r <==> x < n
  {
    if n == 0 then {} else Below(n - 1) + {n - 1}
  }

  // The elements of a sequence.
  function Elems(s: seq<nat>): set<nat> {
    set x | x in s
  }

  lemma SmallerSet(a: set<nat>, b: set<nat>)
    requires a < b
    ensures |a| < |b|
  {
    assert b == a + (b - a);
  }

  lemma SubsetSize(a: set<nat>, b: set<nat>)
    requires a <= b
    ensures |a| <= |b|
  {
    if a != b { SmallerSet(a, b); }
  }

  lemma UnionSize(a: set<nat>, b: set<nat>)
    ensures |a + b| <= |a| + |b|
  {
    assert a + b == a + (b - a);
    SubsetSize(b - a, b);
  }

  lemma {:induction false} ImageSize(s: seq<nat>, n: nat)
    requires n <= |s| && Distinct(s)
    ensures |set i | 0 <= i < n :: s[i]| == n
  {
    if n > 0 {
      ImageSize(s, n - 1);
      assert (set i | 0 <= i < n :: s[i]) == (set i | 0 <= i < n - 1 :: s[i]) + {s[n - 1]};
    }
  }

  // There are at most n distinct numbers below n.
  lemma AtMost(s: seq<nat>, n: nat)
    requires Distinct(s) && forall i :: 0 <= i < |s| ==> s[i] < n
    ensures |s| <= n
  {
    var seen := set i | 0 <= i < |s| :: s[i];
    ImageSize(s, |s|);
    assert seen <= Below(n);
    if seen < Below(n) { SmallerSet(seen, Below(n)); } else { assert seen == Below(n); }
  }
}
