/**
 A window of a ring buffer: the values at positions lo..hi-1, where a position names the slot of
 its remainder.
*/
module Rings {
  import opened CyclicIndex

  function Window<V>(data: seq<V>, n: nat, lo: nat, hi: nat): (s: seq<V>)
    requires 1 <= n <= |data| && lo <= hi
    ensures |s| == hi - lo
    decreases hi - lo
  {
    if lo == hi then [] else [data[IndexOf(n, lo)]] + Window(data, n, lo + 1, hi)
  }

  /** Writing behind the window appends, as long as the slot is not in the window. */
  lemma {:induction false} WindowAppend<V>(data: seq<V>, n: nat, lo: nat, hi: nat, v: V)
    requires 1 <= n <= |data| && lo <= hi < lo + n
    ensures Window(data[IndexOf(n, hi) := v], n, lo, hi + 1) == Window(data, n, lo, hi) + [v]
    decreases hi - lo
  {
    var data' := data[IndexOf(n, hi) := v];
    if lo == hi {
      assert Window(data', n, hi + 1, hi + 1) == [];
    } else {
      SameCell(n, lo, hi);
      WindowAppend(data, n, lo + 1, hi, v);
    }
  }
}
