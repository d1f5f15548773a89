/**
 Storage slots addressed by a sequence of indices: which values it reaches, in which order.
*/
module Slots {
  import opened Options

  /** Every slot of `used` holds a value. */
  predicate Live<C>(data: seq<Option<C>>, used: seq<nat>) {
    used == [] || (used[0] < |data| && data[used[0]].Some? && Live(data, used[1..]))
  }

  /** A slot holds a value exactly if its index is in `used`. */
  ghost predicate Occupied<C>(data: seq<Option<C>>, used: seq<nat>) {
    forall i :: 0 <= i < |data| ==> (data[i].Some? <==> i in used)
  }

  lemma {:induction false} LiveAt<C>(data: seq<Option<C>>, used: seq<nat>, k: nat)
    requires Live(data, used) && k < |used|
    ensures used[k] < |data| && data[used[k]].Some?
  {
    if k > 0 { LiveAt(data, used[1..], k - 1); }
  }

  lemma {:induction false} AllLive<C>(data: seq<Option<C>>, used: seq<nat>)
    requires forall k :: 0 <= k < |used| ==> used[k] < |data| && data[used[k]].Some?
    ensures Live(data, used)
  {
    if used != [] { AllLive(data, used[1..]); }
  }

  /** The values in the slots of `used`. */
  function Stored<C>(data: seq<Option<C>>, used: seq<nat>): (s: seq<C>)
    requires Live(data, used)
    ensures |s| == |used|
  {
    if used == [] then [] else [data[used[0]].value] + Stored(data, used[1..])
  }

  /** A slot that is not reached does not matter. */
  lemma {:induction false} StoredFrame<C>(data: seq<Option<C>>, i: nat, chunk: Option<C>, used: seq<nat>)
    requires Live(data, used) && i < |data| && i !in used
    ensures Live(data[i := chunk], used) && Stored(data[i := chunk], used) == Stored(data, used)
  {
    if used != [] {
      assert used[0] != i;
      StoredFrame(data, i, chunk, used[1..]);
    }
  }

  lemma {:induction false} StoredAppend<C>(data: seq<Option<C>>, used: seq<nat>, i: nat)
    requires Live(data, used) && i < |data| && data[i].Some?
    ensures Live(data, used + [i]) && Stored(data, used + [i]) == Stored(data, used) + [data[i].value]
  {
    if used == [] {
      assert (used + [i])[1..] == [];
    } else {
      assert (used + [i])[1..] == used[1..] + [i];
      StoredAppend(data, used[1..], i);
    }
  }

  lemma StoredHead<C>(data: seq<Option<C>>, i: nat, used: seq<nat>)
    requires Live(data, [i] + used)
    ensures i < |data| && data[i].Some? && Live(data, used)
    ensures Stored(data, [i] + used) == [data[i].value] + Stored(data, used)
  {
    assert ([i] + used)[1..] == used;
  }
}
