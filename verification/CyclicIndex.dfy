/**
 Positions of a ring that carry a lap counter.

 A position `v` on a ring of `c` cells names the cell `v % c` and the lap ("cycle") `v / c`.
 Both are defined by repeated subtraction, which is what the proofs about queues recurse
 over; `IndexAndCycle` ties them to remainder and quotient.
*/
module CyclicIndex {
  import opened Divisions

  function IndexOf(c: nat, v: nat): (r: nat)
    requires c >= 1
    ensures r < c
  {
    if v < c then v else IndexOf(c, v - c)
  }

  function CycleOf(c: nat, v: nat): nat
    requires c >= 1
  {
    if v < c then 0 else 1 + CycleOf(c, v - c)
  }

  function Pack(c: nat, index: nat, cycle: nat): nat {
    index + cycle * c
  }

  predicate OneCycleBehind(c: nat, v: nat, w: nat)
    requires c >= 1
  {
    CycleOf(c, v) + 1 == CycleOf(c, w)
  }

  lemma {:induction false} IndexAndCycle(c: nat, v: nat)
    requires c >= 1
    ensures IndexOf(c, v) == v % c
    ensures CycleOf(c, v) == v / c
    ensures v == Pack(c, IndexOf(c, v), CycleOf(c, v))
  {
    if v >= c {
      IndexAndCycle(c, v - c);
      assert v / c == (v - c) / c + 1 && v % c == (v - c) % c by { DropLap(c, v); }
    } else {
      SmallDivMod(c, v);
    }
  }

  lemma {:induction false} Unpack(c: nat, index: nat, cycle: nat)
    requires index < c
    ensures IndexOf(c, Pack(c, index, cycle)) == index
    ensures CycleOf(c, Pack(c, index, cycle)) == cycle
  {
    if cycle > 0 {
      Unpack(c, index, cycle - 1);
      assert Pack(c, index, cycle) - c == Pack(c, index, cycle - 1);
      assert Pack(c, index, cycle) >= c;
    }
  }

  /** Two positions less than one lap apart never share a cell. */
  lemma {:induction false} SameCell(c: nat, p: nat, q: nat)
    requires c >= 1 && p < q < p + c
    ensures IndexOf(c, p) != IndexOf(c, q)
  {
    if p >= c {
      SameCell(c, p - c, q - c);
    }
  }
}
