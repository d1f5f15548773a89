/**
 Sequences of distinct indices below a bound, and how many of them there can be.
*/
module Indices {

  ghost predicate NoDuplicates(s: seq<nat>) {
    forall j, k :: 0 <= j < k < |s| ==> s[j] != s[k]
  }

  ghost function Below(c: nat): (r: set<nat>)
    ensures |r| == c && forall i: nat :: i in r <==> i < c
  {
    if c == 0 then {} else Below(c - 1) + {c - 1}
  }

  ghost function Elements(s: seq<nat>): (r: set<nat>)
    ensures forall i: nat :: i in r <==> i in s
    ensures NoDuplicates(s) ==> |r| == |s|
  {
    if s == [] then {} else
      assert NoDuplicates(s) ==> s[0] !in s[1..];
      Elements(s[1..]) + {s[0]}
  }

  lemma {:induction false} CardinalityOfSubset(a: set<nat>, b: set<nat>)
    requires a <= b
    ensures |a| <= |b|
  {
    if x :| x in a {
      CardinalityOfSubset(a - {x}, b - {x});
    }
  }

  /** Pigeonhole: distinct indices below `c` are at most `c`. */
  lemma DistinctIndicesFit(c: nat, s: seq<nat>)
    requires NoDuplicates(s) && forall i :: i in s ==> i < c
    ensures |s| <= c
  {
    CardinalityOfSubset(Elements(s), Below(c));
  }

  lemma DistinctConcat(a: seq<nat>, b: seq<nat>)
    requires NoDuplicates(a) && NoDuplicates(b) && forall i :: i in a ==> i !in b
    ensures NoDuplicates(a + b)
  {
    forall j, k | 0 <= j < k < |a + b| ensures (a + b)[j] != (a + b)[k] {
      if j < |a| <= k { assert a[j] in a && b[k - |a|] in b; }
    }
  }

  /** ... and if one index is elsewhere there is room for it. */
  lemma RoomForTheOwner(c: nat, s: seq<nat>, i: nat)
    requires NoDuplicates(s) && forall k :: k in s ==> k < c
    requires i < c && i !in s
    ensures |s| < c
  {
    DistinctIndicesFit(c, s + [i]);
  }

  /** ... and if there are `c` of them they are all of 0..c-1. */
  lemma FullHoldsAll(c: nat, s: seq<nat>, i: nat)
    requires NoDuplicates(s) && forall k :: k in s ==> k < c
    requires |s| == c && i < c
    ensures i in s
  {
    if i !in s { RoomForTheOwner(c, s, i); }
  }
}
