/**
 CyclicIndex on 64-bit words.

 The C++ class keeps a position in a `uint64_t`. When the word overflows, the ring continues at
 `OverflowStart`, so that the cell index still advances by one; the lap counter restarts in the
 middle of a lap unless the ring length divides 2^64.
*/
module CyclicIndexWords {
  import opened CyclicIndex
  import opened Divisions

  const MODULUS: nat := 0x1_0000_0000_0000_0000
  const MAX_VALUE: nat := 0xFFFF_FFFF_FFFF_FFFF
  const HALF: nat := 0x8000_0000_0000_0000

  type Word = v: nat | v <= MAX_VALUE

  /** The ring lengths the class accepts. */
  predicate RingLength(c: nat) {
    1 <= c < MAX_VALUE / 2
  }

  function Wrap(n: int): Word {
    n % MODULUS
  }

  function Index(c: nat, v: Word): nat
    requires RingLength(c)
  {
    v % c
  }

  function Cycle(c: nat, v: Word): nat
    requires RingLength(c)
  {
    v / c
  }

  function MaxCycle(c: nat): nat
    requires RingLength(c)
  {
    MAX_VALUE / c
  }

  function OverflowStart(c: nat): (s: Word)
    requires RingLength(c)
    ensures s < c
  {
    (MAX_VALUE % c + 1) % c
  }

  function Add(c: nat, v: Word, n: Word): Word
    requires RingLength(c)
  {
    var delta := MAX_VALUE - n;
    if delta < v then Wrap(OverflowStart(c) + (v - delta - 1))
    else v + n
  }

  function Next(c: nat, v: Word): Word
    requires RingLength(c)
  {
    if v == MAX_VALUE then OverflowStart(c) else v + 1
  }

  predicate IsOneCycleBehind(c: nat, v: Word, w: Word)
    requires RingLength(c)
  {
    if Cycle(c, v) == MaxCycle(c) then Cycle(c, w) == 0
    else Cycle(c, v) + 1 == Cycle(c, w)
  }

  /** `operator-`: the word difference read as a signed 64-bit number. */
  function Minus(v: Word, w: Word): int {
    var d := Wrap(v - w);
    if d < HALF then d else d - MODULUS
  }

  /** Where 2^64 falls on the ring. */
  lemma StartIsRemainder(c: nat)
    requires RingLength(c)
    ensures OverflowStart(c) == MODULUS % c
  {
    ModShift(c, MAX_VALUE, 1);
  }

  // ---------------------------------------------------------------------------------------
  // Adding and stepping

  function Iterate(c: nat, v: Word, n: nat): Word
    requires RingLength(c)
  {
    if n == 0 then v else Next(c, Iterate(c, v, n - 1))
  }

  lemma NextIndex(c: nat, v: Word)
    requires RingLength(c)
    ensures Index(c, Next(c, v)) == (Index(c, v) + 1) % c
  {
    if v == MAX_VALUE {
      SmallDivMod(c, OverflowStart(c));
    } else {
      ModShift(c, v, 1);
    }
  }

  /** Stepping always visits the cells in ring order, also across overflows. */
  lemma {:induction false} IterateIndex(c: nat, v: Word, n: nat)
    requires RingLength(c)
    ensures Index(c, Iterate(c, v, n)) == (Index(c, v) + n) % c
  {
    if n == 0 {
      ModShift(c, v, 0);
    } else {
      IterateIndex(c, v, n - 1);
      NextIndex(c, Iterate(c, v, n - 1));
      ModShift(c, Index(c, v) + (n - 1), 1);
    }
  }

  lemma {:induction false} IterateUp(c: nat, v: Word, n: nat)
    requires RingLength(c) && v + n <= MAX_VALUE
    ensures Iterate(c, v, n) == v + n
  {
    if n > 0 { IterateUp(c, v, n - 1); }
  }

  lemma {:induction false} IterateSplit(c: nat, v: Word, m: nat, n: nat)
    requires RingLength(c)
    ensures Iterate(c, v, m + n) == Iterate(c, Iterate(c, v, m), n)
  {
    if n > 0 { IterateSplit(c, v, m, n - 1); }
  }

  /** Stepping past the largest word continues at the overflow start. */
  lemma IterateOver(c: nat, v: Word, n: nat)
    requires RingLength(c) && v + n > MAX_VALUE
    ensures Iterate(c, v, n) == Iterate(c, OverflowStart(c), v + n - MODULUS)
  {
    var up := MAX_VALUE - v;
    IterateUp(c, v, up);
    assert Iterate(c, v, up + 1) == OverflowStart(c);
    IterateSplit(c, v, up + 1, n - up - 1);
  }

  /** The sum stays below a second overflow. */
  predicate AtMostOneOverflow(c: nat, v: Word, n: Word)
    requires RingLength(c)
  {
    v + n <= MAX_VALUE || OverflowStart(c) + (v + n - MODULUS) <= MAX_VALUE
  }

  lemma AddValue(c: nat, v: Word, n: Word)
    requires RingLength(c)
    ensures var s := OverflowStart(c);
      Add(c, v, n) ==
        if v + n <= MAX_VALUE then v + n
        else if s + (v + n - MODULUS) <= MAX_VALUE then s + (v + n - MODULUS)
        else s + (v + n - MODULUS) - MODULUS
  {
    hide OverflowStart;
  }

  lemma IterateValue(c: nat, v: Word, n: Word)
    requires RingLength(c)
    ensures var s := OverflowStart(c);
      Iterate(c, v, n) ==
        if v + n <= MAX_VALUE then v + n
        else if s + (v + n - MODULUS) <= MAX_VALUE then s + (v + n - MODULUS)
        else s + (s + (v + n - MODULUS) - MODULUS)
  {
    hide OverflowStart, Iterate;
    var s := OverflowStart(c);
    if v + n <= MAX_VALUE {
      IterateUp(c, v, n);
    } else {
      var rest := v + n - MODULUS;
      IterateOver(c, v, n);
      if s + rest <= MAX_VALUE {
        IterateUp(c, s, rest);
      } else {
        IterateOver(c, s, rest);
        IterateUp(c, s, s + rest - MODULUS);
      }
    }
  }

  /** `v + n` is `n` steps from `v` exactly if the word overflows at most once on the way, or
      the ring length divides 2^64. */
  lemma AddIsRepeatedNext(c: nat, v: Word, n: Word)
    requires RingLength(c)
    ensures Add(c, v, n) == Iterate(c, v, n) <==> (AtMostOneOverflow(c, v, n) || MODULUS % c == 0)
  {
    hide Add, Iterate, OverflowStart;
    StartIsRemainder(c);
    AddValue(c, v, n);
    IterateValue(c, v, n);
  }

  /** ... and then the index advances by `n` around the ring. */
  lemma AddIndex(c: nat, v: Word, n: Word)
    requires RingLength(c) && (AtMostOneOverflow(c, v, n) || MODULUS % c == 0)
    ensures Index(c, Add(c, v, n)) == (Index(c, v) + n) % c
  {
    AddIsRepeatedNext(c, v, n);
    IterateIndex(c, v, n);
  }

  /** `(v + n) - v` is `n`, for every distance that fits the sign bit, exactly if nothing
      overflows or the ring length divides 2^64. */
  lemma AddThenMinus(c: nat, v: Word, n: Word)
    requires RingLength(c) && n < HALF
    ensures Minus(Add(c, v, n), v) == n <==> (v + n <= MAX_VALUE || MODULUS % c == 0)
  {
    StartIsRemainder(c);
  }

  // ---------------------------------------------------------------------------------------
  // Cells one lap apart

  /** A position is one cycle behind the same cell's next lap exactly if nothing overflows or the
      ring length divides 2^64: otherwise the lap counter restarts in the middle of a lap. */
  lemma OneLapAhead(c: nat, v: Word)
    requires RingLength(c)
    ensures IsOneCycleBehind(c, v, Add(c, v, c)) <==> (v + c <= MAX_VALUE || MODULUS % c == 0)
  {
    hide IsOneCycleBehind, OverflowStart;
    StartIsRemainder(c);
    AddValue(c, v, c);
    if v + c <= MAX_VALUE {
      LapInside(c, v);
    } else {
      LapAcross(c, v);
    }
  }

  lemma LapInside(c: nat, v: Word)
    requires RingLength(c) && v + c <= MAX_VALUE
    ensures IsOneCycleBehind(c, v, v + c)
  {
    DropLap(c, v + c);
    CycleAtMost(c, v + c);
  }

  lemma CycleAtMost(c: nat, v: Word)
    requires RingLength(c)
    ensures Cycle(c, v) <= MaxCycle(c)
  {
    var q, top := v / c, MAX_VALUE / c;
    assert (q - top) * c == q * c - top * c;
    if q > top { LapsAtLeast(q - top, c); }
  }

  lemma LapAcross(c: nat, v: Word)
    requires RingLength(c) && v + c > MAX_VALUE
    ensures IsOneCycleBehind(c, v, MODULUS % c + (v + c - MODULUS)) <==> MODULUS % c == 0
  {
    hide MaxCycle, Index;
    var s, laps := MODULUS % c, MODULUS / c;
    LastLap(c);
    if v >= laps * c {
      LastPartialLap(c, v, laps, s);
    } else {
      LastFullLap(c, v, laps, s);
    }
  }

  /** From the incomplete lap below 2^64 the next lap is counted as the first, not as lap 0. */
  lemma LastPartialLap(c: nat, v: Word, laps: nat, s: nat)
    requires RingLength(c) && MODULUS == laps * c + s && laps * c <= v && s < c
    ensures v / c == laps && (s + (v + c - MODULUS)) / c == 1 && s > 0
  {
    LapOf(c, laps, v);
    var w := s + (v + c - MODULUS);
    assert 1 * c == c;
    LapOf(c, 1, w);
  }

  /** From the last complete lap the next one is counted as lap 0. */
  lemma LastFullLap(c: nat, v: Word, laps: nat, s: nat)
    requires RingLength(c) && MODULUS == laps * c + s && v < laps * c && s < c && v + c > MAX_VALUE
    requires laps >= 1 && (laps - 1) * c == laps * c - c
    ensures v / c == laps - 1 && (s + (v + c - MODULUS)) / c == 0
  {
    LapOf(c, laps - 1, v);
    SmallDivMod(c, s + (v + c - MODULUS));
  }

  lemma LapOf(c: nat, laps: nat, v: nat)
    requires c >= 1 && laps * c <= v < laps * c + c
    ensures v / c == laps
  {
    DivModIs(c, v, laps, v - laps * c);
  }

  lemma LastLap(c: nat)
    requires RingLength(c)
    ensures MaxCycle(c) == if MODULUS % c == 0 then MODULUS / c - 1 else MODULUS / c
    ensures MODULUS / c >= 1
    ensures (MODULUS / c - 1) * c == (MODULUS / c) * c - c
  {
    var s, laps := MODULUS % c, MODULUS / c;
    assert MODULUS == laps * c + s;
    assert (laps - 1) * c == laps * c - c;
    assert laps * c > 0;
    if s == 0 {
      DivModIs(c, MAX_VALUE, laps - 1, c - 1);
    } else {
      DivModIs(c, MAX_VALUE, laps, s - 1);
    }
  }

  // ---------------------------------------------------------------------------------------
  // Words stand for unbounded positions

  /** The lap counters a ring whose length divides 2^64 can tell apart. */
  function Laps(c: nat): nat
    requires RingLength(c)
  {
    MODULUS / c
  }

  /** The word of a position counts its laps modulo `Laps`, and keeps its cell. */
  lemma WordOfPosition(c: nat, p: nat)
    requires RingLength(c) && MODULUS % c == 0
    ensures Laps(c) >= 1 && MaxCycle(c) == Laps(c) - 1
    ensures Index(c, Wrap(p)) == IndexOf(c, p)
    ensures Cycle(c, Wrap(p)) == CycleOf(c, p) % Laps(c)
  {
    hide IndexOf, CycleOf, Pack;
    LastLap(c);
    IndexAndCycle(c, p);
    WordCell(c, p, Laps(c));
  }

  lemma WordCell(c: nat, p: nat, laps: nat)
    requires c >= 1 && laps >= 1 && MODULUS == laps * c
    ensures p % MODULUS % c == p % c && p % MODULUS / c == p / c % laps
  {
    var q, r := p / c, p % c;
    DivMod(c, p);
    DivMod(laps, q);
    SplitWord(c, laps, p, q, r, q / laps, q % laps);
  }

  lemma SplitWord(c: nat, laps: nat, p: nat, q: nat, r: nat, k: nat, rest: nat)
    requires p == q * c + r && q == k * laps + rest && MODULUS == laps * c && r < c && rest < laps
    ensures p % MODULUS == rest * c + r
    ensures (rest * c + r) / c == rest && (rest * c + r) % c == r
  {
    Nest(c, laps, k, rest, r);
    DivModIs(MODULUS, p, k, rest * c + r);
    DivModIs(c, rest * c + r, rest, r);
  }

  /** Laps of laps. */
  lemma Nest(c: nat, laps: nat, k: nat, rest: nat, r: nat)
    requires rest < laps && r < c
    ensures (k * laps + rest) * c + r == k * (laps * c) + (rest * c + r)
    ensures rest * c + r < laps * c
  {
    assert (laps - rest) * c == laps * c - rest * c;
    LapsAtLeast(laps - rest, c);
    assert (k * laps + rest) * c == (k * laps) * c + rest * c;
    assert (k * laps) * c == k * (laps * c);
  }

  lemma ModEqual(m: nat, a: nat, b: nat)
    requires m >= 1 && a % m == b % m && a < b + m && b < a + m
    ensures a == b
  {
    var q, q' := a / m, b / m;
    assert a == q * m + a % m && b == q' * m + b % m;
    assert (q - q') * m == q * m - q' * m && (q' - q) * m == q' * m - q * m;
    if q > q' { LapsAtLeast(q - q', m); }
    if q' > q { LapsAtLeast(q' - q, m); }
  }

  lemma WrapStep(c: nat, p: nat, n: Word)
    requires RingLength(c) && MODULUS % c == 0
    ensures Add(c, Wrap(p), n) == Wrap(p + n)
    ensures Next(c, Wrap(p)) == Wrap(p + 1)
  {
    StartIsRemainder(c);
    hide OverflowStart;
    ModShift(MODULUS, p, n);
    ModShift(MODULUS, p, 1);
    var v := Wrap(p);
    if v + n <= MAX_VALUE {
      SmallDivMod(MODULUS, v + n);
    } else {
      DropLap(MODULUS, v + n);
      SmallDivMod(MODULUS, v + n - MODULUS);
    }
    if v < MAX_VALUE { SmallDivMod(MODULUS, v + 1); } else { DropLap(MODULUS, v + 1); }
  }

  /** Every comparison the queues make between two words agrees with the same comparison of the
      unbounded positions, as long as the positions are close enough together. */
  lemma WordsCompareLikePositions(c: nat, v: nat, w: nat)
    requires RingLength(c) && MODULUS % c == 0
    ensures CycleOf(c, v) + 1 < CycleOf(c, w) + Laps(c) && CycleOf(c, w) < CycleOf(c, v) + 1 + Laps(c) ==>
      (IsOneCycleBehind(c, Wrap(v), Wrap(w)) <==> OneCycleBehind(c, v, w))
    ensures CycleOf(c, v) < CycleOf(c, w) + Laps(c) && CycleOf(c, w) < CycleOf(c, v) + Laps(c) ==>
      (Cycle(c, Wrap(v)) == Cycle(c, Wrap(w)) <==> CycleOf(c, v) == CycleOf(c, w))
  {
    hide Cycle, MaxCycle, Laps, Wrap;
    WordOfPosition(c, v);
    WordOfPosition(c, w);
    LapsCompare(Laps(c), CycleOf(c, v), CycleOf(c, w));
  }

  lemma LapsCompare(laps: nat, a: nat, b: nat)
    requires laps >= 1
    ensures a + 1 < b + laps && b < a + 1 + laps ==>
      ((if a % laps == laps - 1 then b % laps == 0 else a % laps + 1 == b % laps) <==> a + 1 == b)
    ensures a < b + laps && b < a + laps ==> (a % laps == b % laps <==> a == b)
  {
    NextLap(laps, a);
    if a < b + laps && b < a + laps && a % laps == b % laps { ModEqual(laps, a, b); }
    if a + 1 < b + laps && b < a + 1 + laps && (a + 1) % laps == b % laps { ModEqual(laps, a + 1, b); }
  }

  lemma NextLap(laps: nat, a: nat)
    requires laps >= 1
    ensures (a + 1) % laps == if a % laps == laps - 1 then 0 else a % laps + 1
  {
    var q, r := a / laps, a % laps;
    assert a == q * laps + r;
    if r == laps - 1 {
      assert (q + 1) * laps == q * laps + laps;
      DivModIs(laps, a + 1, q + 1, 0);
    } else {
      DivModIs(laps, a + 1, q, r + 1);
    }
  }

  /** `popIfSizeIsAtLeast` reads the distance of two positions off their words. */
  lemma DistanceOfWords(v: nat, w: nat)
    requires v < w + HALF && w <= v + HALF
    ensures Minus(Wrap(v), Wrap(w)) == v - w
  {
    var a, b := v % MODULUS, w % MODULUS;
    var q, q' := v / MODULUS, w / MODULUS;
    assert v == q * MODULUS + a && w == q' * MODULUS + b;
  }
}
