/**
 The index queue on 64-bit words.

 The protocol takes positions as unbounded numbers. Here is the same step on words, with the
 comparisons, the addition and the difference of the C++ class. For ring lengths that divide 2^64
 every step on words is the step on positions, wrap-around included, as long as the call has not
 been asleep for as many laps as the words can tell apart.
*/
module IndexQueueWords {
  import opened CyclicIndex
  import opened CyclicIndexWords
  import opened Divisions
  import opened IndexQueueProtocol

  // ---------------------------------------------------------------------------------------
  // Words for positions

  predicate WordRing(c: nat) {
    RingLength(c) && MODULUS % c == 0
  }

  function WrapCells(cells: seq<nat>): (words: seq<nat>)
    ensures |words| == |cells|
    ensures forall i :: 0 <= i < |cells| ==> words[i] == Wrap(cells[i])
  {
    seq(|cells|, i requires 0 <= i < |cells| => Wrap(cells[i]))
  }

  function WrapQueue(q: Queue): Queue {
    Queue(WrapCells(q.cells), Wrap(q.rd), Wrap(q.wr))
  }

  function WrapOp(op: Op): Op {
    match op
    case PushRead(idx, wp) => PushRead(idx, Wrap(wp))
    case PushCas(idx, wp, seen) => PushCas(idx, Wrap(wp), Wrap(seen))
    case PushHelp(idx, wp) => PushHelp(idx, Wrap(wp))
    case PushFinish(wp) => PushFinish(Wrap(wp))
    case PopRead(rp) => PopRead(Wrap(rp))
    case PopCas(rp, val) => PopCas(Wrap(rp), Wrap(val))
    case FullLoadRead(wp) => FullLoadRead(Wrap(wp))
    case FullReadCell(wp, rp) => FullReadCell(Wrap(wp), Wrap(rp))
    case FullCas(wp, rp, val) => FullCas(Wrap(wp), Wrap(rp), Wrap(val))
    case SizeLoadRead(min, wp) => SizeLoadRead(min, Wrap(wp))
    case SizeReadCell(min, wp, rp) => SizeReadCell(min, Wrap(wp), Wrap(rp))
    case SizeCas(min, wp, rp, val) => SizeCas(min, Wrap(wp), Wrap(rp), Wrap(val))
    case EmptyRead(rp) => EmptyRead(Wrap(rp))
    case _ => op
  }

  function WrapOutcome(r: Outcome): Outcome {
    Outcome(WrapQueue(r.queue), WrapOp(r.op), r.event)
  }

  predicate IsWord(n: nat) {
    n <= MAX_VALUE
  }

  predicate WordQueue(c: nat, q: Queue) {
    Shape(c, q) && IsWord(q.rd) && IsWord(q.wr) && forall i :: 0 <= i < |q.cells| ==> IsWord(q.cells[i])
  }

  /** The locals of a call are words. */
  predicate WordOp(op: Op) {
    match op
    case PushRead(_, wp) => IsWord(wp)
    case PushCas(_, wp, seen) => IsWord(wp) && IsWord(seen)
    case PushHelp(_, wp) => IsWord(wp)
    case PushFinish(wp) => IsWord(wp)
    case PopRead(rp) => IsWord(rp)
    case PopCas(rp, val) => IsWord(rp) && IsWord(val)
    case FullLoadRead(wp) => IsWord(wp)
    case FullReadCell(wp, rp) => IsWord(wp) && IsWord(rp)
    case FullCas(_, rp, val) => IsWord(rp) && IsWord(val)
    case SizeLoadRead(_, wp) => IsWord(wp)
    case SizeReadCell(_, _, rp) => IsWord(rp)
    case SizeCas(_, _, rp, val) => IsWord(rp) && IsWord(val)
    case EmptyRead(rp) => IsWord(rp)
    case _ => true
  }

  // ---------------------------------------------------------------------------------------
  // The step on words

  function LoadWordAt(c: nat, q: Queue, p: Word): Word
    requires RingLength(c) && WordQueue(c, q)
  {
    q.cells[Index(c, p)]
  }

  /** The constructor from index and cycle. */
  function Make(c: nat, index: nat, cycle: nat): Word {
    Wrap(index + cycle * c)
  }

  function WordHelpOrReload(c: nat, idx: nat, wp: Word, seen: Word): Op
    requires RingLength(c)
  {
    if Cycle(c, seen) == Cycle(c, wp) then PushHelp(idx, wp) else PushLoad(idx)
  }

  function WordStepPush(c: nat, q: Queue, op: Op, spurious: bool): Outcome
    requires RingLength(c) && WordQueue(c, q) && WordOp(op) && (Publishing(op) || op.PushFinish?)
  {
    match op
    case PushLoad(idx) => Outcome(q, PushRead(idx, q.wr), Silent)
    case PushRead(idx, wp) =>
      var seen := LoadWordAt(c, q, wp);
      if IsOneCycleBehind(c, seen, wp) then Outcome(q, PushCas(idx, wp, seen), Silent)
      else Outcome(q, WordHelpOrReload(c, idx, wp, seen), Silent)
    case PushCas(idx, wp, seen) =>
      var now := LoadWordAt(c, q, wp);
      if now == seen && !spurious then
        var cells := q.cells[Index(c, wp) := Make(c, idx, Cycle(c, wp))];
        Outcome(q.(cells := cells), PushFinish(wp), Appended(idx))
      else
        Outcome(q, WordHelpOrReload(c, idx, wp, now), Silent)
    case PushHelp(idx, wp) =>
      if q.wr == wp then Outcome(q.(wr := Add(c, wp, 1)), PushRead(idx, wp), Silent)
      else Outcome(q, PushRead(idx, q.wr), Silent)
    case PushFinish(wp) =>
      if q.wr == wp then Outcome(q.(wr := Add(c, wp, 1)), Pushed, Silent)
      else Outcome(q, Pushed, Silent)
  }

  function WordStepPop(c: nat, q: Queue, op: Op, spurious: bool): Outcome
    requires RingLength(c) && WordQueue(c, q) && WordOp(op) && Popping(op)
  {
    match op
    case PopLoad => Outcome(q, PopRead(q.rd), Silent)
    case PopRead(rp) =>
      var val := LoadWordAt(c, q, rp);
      if Cycle(c, rp) == Cycle(c, val) then Outcome(q, PopCas(rp, val), Silent)
      else if IsOneCycleBehind(c, val, rp) then Outcome(q, NotGot, SawEmpty)
      else Outcome(q, PopLoad, Silent)
    case PopCas(rp, val) =>
      if q.rd == rp && !spurious then
        Outcome(q.(rd := Add(c, rp, 1)), Got(Index(c, val)), Removed(Index(c, val)))
      else
        Outcome(q, PopRead(q.rd), Silent)
  }

  function WordStepPopIfFull(c: nat, q: Queue, op: Op): Outcome
    requires RingLength(c) && WordQueue(c, q) && WordOp(op) && PoppingIfFull(op)
  {
    match op
    case FullLoadWrite => Outcome(q, FullLoadRead(q.wr), Silent)
    case FullLoadRead(wp) => Outcome(q, FullReadCell(wp, q.rd), Silent)
    case FullReadCell(wp, rp) =>
      var val := LoadWordAt(c, q, rp);
      if Index(c, wp) == Index(c, rp) && IsOneCycleBehind(c, rp, wp)
      then Outcome(q, FullCas(wp, rp, val), Silent)
      else Outcome(q, NotGot, Silent)
    case FullCas(wp, rp, val) =>
      if q.rd == rp
      then Outcome(q.(rd := Add(c, rp, 1)), Got(Index(c, val)), Removed(Index(c, val)))
      else Outcome(q, NotGot, Silent)
  }

  function WordStepPopIfSize(c: nat, q: Queue, op: Op): Outcome
    requires RingLength(c) && WordQueue(c, q) && WordOp(op) && PoppingIfSize(op)
  {
    match op
    case SizeLoadWrite(min) => Outcome(q, SizeLoadRead(min, q.wr), Silent)
    case SizeLoadRead(min, wp) =>
      var delta := Minus(wp, q.rd);
      if delta < 0 then Outcome(q, NotGot, Silent)
      else if delta >= min then Outcome(q, SizeReadCell(min, wp, q.rd), Silent)
      else Outcome(q, NotGot, Silent)
    case SizeReadCell(min, wp, rp) =>
      Outcome(q, SizeCas(min, wp, rp, LoadWordAt(c, q, rp)), Silent)
    case SizeCas(min, wp, rp, val) =>
      if q.rd == rp
      then Outcome(q.(rd := Add(c, rp, 1)), Got(Index(c, val)), Removed(Index(c, val)))
      else Outcome(q, NotGot, Silent)
  }

  function WordStepEmpty(c: nat, q: Queue, op: Op): Outcome
    requires RingLength(c) && WordQueue(c, q) && WordOp(op) && AskingEmpty(op)
  {
    match op
    case EmptyLoad => Outcome(q, EmptyRead(q.rd), Silent)
    case EmptyRead(rp) =>
      if IsOneCycleBehind(c, LoadWordAt(c, q, rp), rp) then Outcome(q, EmptyIs(true), SawEmpty)
      else Outcome(q, EmptyIs(false), Silent)
  }

  function WordStep(c: nat, q: Queue, op: Op, spurious: bool): Outcome
    requires RingLength(c) && WordQueue(c, q) && WordOp(op)
  {
    if Publishing(op) || op.PushFinish? then WordStepPush(c, q, op, spurious)
    else if Popping(op) then WordStepPop(c, q, op, spurious)
    else if PoppingIfFull(op) then WordStepPopIfFull(c, q, op)
    else if PoppingIfSize(op) then WordStepPopIfSize(c, q, op)
    else if AskingEmpty(op) then WordStepEmpty(c, q, op)
    else Outcome(q, op, Silent)
  }

  // ---------------------------------------------------------------------------------------
  // How far a call may lag

  /** The position is fewer laps behind the frontier than words can tell apart. */
  predicate Near(c: nat, q: Queue, p: nat)
    requires WordRing(c) && Shape(c, q)
  {
    CycleOf(c, Frontier(c, q)) + 1 < CycleOf(c, p) + Laps(c)
  }

  /** No position the call has loaded is too old; the signed difference of popIfSizeIsAtLeast
      reaches half as far. */
  predicate Awake(c: nat, q: Queue, op: Op)
    requires WordRing(c) && Shape(c, q)
  {
    match op
    case PushRead(_, wp) => Near(c, q, wp)
    case PushCas(_, wp, _) => Near(c, q, wp)
    case PushHelp(_, wp) => Near(c, q, wp)
    case PushFinish(wp) => Near(c, q, wp)
    case PopRead(rp) => Near(c, q, rp)
    case PopCas(rp, _) => Near(c, q, rp)
    case FullReadCell(wp, rp) => Near(c, q, wp) && Near(c, q, rp)
    case FullCas(_, rp, _) => Near(c, q, rp)
    case SizeLoadRead(_, wp) => Frontier(c, q) < wp + HALF
    case SizeReadCell(_, _, rp) => Near(c, q, rp)
    case SizeCas(_, _, rp, _) => Near(c, q, rp)
    case EmptyRead(rp) => Near(c, q, rp)
    case _ => true
  }

  // ---------------------------------------------------------------------------------------
  // Comparisons

  lemma {:induction false} CycleMonotone(c: nat, p: nat, p': nat)
    requires c >= 1 && p <= p'
    ensures CycleOf(c, p) <= CycleOf(c, p')
  {
    if p >= c { CycleMonotone(c, p - c, p' - c); }
  }

  /** Words of positions that are not too far apart are equal only if the positions are. */
  lemma SamePosition(c: nat, a: nat, b: nat)
    requires WordRing(c)
    requires CycleOf(c, a) < CycleOf(c, b) + Laps(c) && CycleOf(c, b) < CycleOf(c, a) + Laps(c)
    ensures Wrap(a) == Wrap(b) <==> a == b
  {
    hide Wrap, Cycle, Laps, IndexOf, CycleOf;
    WordOfPosition(c, a);
    WordOfPosition(c, b);
    WordsCompareLikePositions(c, a, b);
    IndexAndCycle(c, a);
    IndexAndCycle(c, b);
  }

  lemma {:induction false} CellBounds(c: nat, q: Queue, p: nat)
    requires QueueInv(c, q) && p <= Frontier(c, q)
    ensures CycleOf(c, p) <= CycleOf(c, LoadValueAt(c, q, p)) + 1
    ensures CycleOf(c, LoadValueAt(c, q, p)) <= CycleOf(c, Frontier(c, q))
    decreases Frontier(c, q) - p
  {
    hide QueueInv, Frontier, Contents;
    CellCycle(c, q, p);
    CycleMonotone(c, p, Frontier(c, q));
    if Frontier(c, q) > p + c {
      CellBounds(c, q, p + c);
    }
  }

  lemma EnoughLaps(c: nat)
    requires WordRing(c)
    ensures Laps(c) >= 2
  {
    DivMod(c, MODULUS);
  }

  /** A loaded cell compares with its position on words as on positions. */
  lemma CellCompares(c: nat, q: Queue, p: nat)
    requires WordRing(c) && QueueInv(c, q) && p <= Frontier(c, q) && Near(c, q, p)
    ensures var cell := LoadValueAt(c, q, p);
      && (IsOneCycleBehind(c, Wrap(cell), Wrap(p)) <==> OneCycleBehind(c, cell, p))
      && (Cycle(c, Wrap(cell)) == Cycle(c, Wrap(p)) <==> CycleOf(c, cell) == CycleOf(c, p))
  {
    hide QueueInv, Frontier, CycleOf, LoadValueAt, IsOneCycleBehind, OneCycleBehind, Cycle, Wrap, Laps;
    CellBounds(c, q, p);
    EnoughLaps(c);
    WordsCompareLikePositions(c, LoadValueAt(c, q, p), p);
  }

  /** A shared position compares with one the call has loaded. */
  lemma PositionCompares(c: nat, q: Queue, p: nat, now: nat)
    requires WordRing(c) && QueueInv(c, q) && p <= now <= Frontier(c, q) && Near(c, q, p)
    ensures Wrap(now) == Wrap(p) <==> now == p
  {
    hide QueueInv, Frontier, CycleOf, Wrap, Laps;
    CycleMonotone(c, p, now);
    CycleMonotone(c, now, Frontier(c, q));
    SamePosition(c, now, p);
  }

  lemma LoadWraps(c: nat, q: Queue, p: nat)
    requires WordRing(c) && Shape(c, q)
    ensures WordQueue(c, WrapQueue(q))
    ensures LoadWordAt(c, WrapQueue(q), Wrap(p)) == Wrap(LoadValueAt(c, q, p))
    ensures Index(c, Wrap(p)) == IndexOf(c, p)
  {
    WordOfPosition(c, p);
  }

  lemma MakeWraps(c: nat, idx: nat, wp: nat)
    requires WordRing(c) && idx < c
    ensures Make(c, idx, Cycle(c, Wrap(wp))) == Wrap(Pack(c, idx, CycleOf(c, wp)))
  {
    hide Wrap, Cycle, Laps, IndexOf, CycleOf;
    var cell := Pack(c, idx, CycleOf(c, wp));
    Unpack(c, idx, CycleOf(c, wp));
    WordOfPosition(c, wp);
    WordOfPosition(c, cell);
    WordIsMade(c, Wrap(cell));
  }

  lemma WordIsMade(c: nat, w: Word)
    requires RingLength(c)
    ensures w == Make(c, Index(c, w), Cycle(c, w))
  {
    DivMod(c, w);
    SmallDivMod(MODULUS, w);
  }

  lemma CellsWrap(cells: seq<nat>, i: nat, cell: nat)
    requires i < |cells|
    ensures WrapCells(cells[i := cell]) == WrapCells(cells)[i := Wrap(cell)]
  {
  }

  // ---------------------------------------------------------------------------------------
  // Every step on words is the step on positions

  lemma PushOnWords(c: nat, q: Queue, op: Op, spurious: bool)
    requires WordRing(c) && QueueInv(c, q) && OpInv(c, q, op) && Awake(c, q, op)
    requires Publishing(op) || op.PushFinish?
    ensures WordQueue(c, WrapQueue(q)) && WordOp(WrapOp(op))
    ensures WordStepPush(c, WrapQueue(q), WrapOp(op), spurious) == WrapOutcome(StepPush(c, q, op, spurious))
  {
    hide QueueInv, Frontier, CycleOf, IndexOf, Cycle, Index, Wrap, Pack, Make, IsOneCycleBehind, Near, Laps, Add,
      LoadValueAt, LoadWordAt, OneCycleBehind, WordQueue, WrapCells;
    FrontierIsClose(c, q);
    LoadWraps(c, q, q.wr);
    match op
    case PushLoad(_) =>
    case PushRead(_, wp) =>
      LoadWraps(c, q, wp);
      CellCompares(c, q, wp);
    case PushCas(idx, wp, seen) => PushCasOnWords(c, q, idx, wp, seen, spurious);
    case PushHelp(_, wp) =>
      PositionCompares(c, q, wp, q.wr);
      WrapStep(c, wp, 1);
    case PushFinish(wp) =>
      PositionCompares(c, q, wp, q.wr);
      WrapStep(c, wp, 1);
  }

  lemma PushCasOnWords(c: nat, q: Queue, idx: nat, wp: nat, seen: nat, spurious: bool)
    requires WordRing(c) && QueueInv(c, q) && OpInv(c, q, PushCas(idx, wp, seen)) && Near(c, q, wp)
    ensures WordQueue(c, WrapQueue(q))
    ensures WordStepPush(c, WrapQueue(q), PushCas(idx, Wrap(wp), Wrap(seen)), spurious)
         == WrapOutcome(StepPush(c, q, PushCas(idx, wp, seen), spurious))
  {
    hide QueueInv, Frontier, CycleOf, IndexOf, Cycle, Index, Wrap, Pack, Make, IsOneCycleBehind, Laps, Add,
      LoadValueAt, LoadWordAt, WordQueue, WrapCells;
    FrontierIsClose(c, q);
    LoadWraps(c, q, wp);
    CellCompares(c, q, wp);
    CellBounds(c, q, wp);
    SamePosition(c, LoadValueAt(c, q, wp), seen);
    MakeWraps(c, idx, wp);
    CellsWrap(q.cells, IndexOf(c, wp), Pack(c, idx, CycleOf(c, wp)));
  }

  lemma PopOnWords(c: nat, q: Queue, op: Op, spurious: bool)
    requires WordRing(c) && QueueInv(c, q) && OpInv(c, q, op) && Awake(c, q, op)
    requires Popping(op) || AskingEmpty(op)
    ensures WordQueue(c, WrapQueue(q)) && WordOp(WrapOp(op))
    ensures WordStep(c, WrapQueue(q), WrapOp(op), spurious) == WrapOutcome(Step(c, q, op, spurious))
  {
    hide QueueInv, Frontier, CycleOf, IndexOf, Cycle, Index, Wrap, IsOneCycleBehind, Near, Laps, Add,
      LoadValueAt, LoadWordAt, OneCycleBehind, WordQueue, WrapCells;
    FrontierIsClose(c, q);
    LoadWraps(c, q, q.rd);
    match op
    case PopRead(rp) =>
      LoadWraps(c, q, rp);
      CellCompares(c, q, rp);
    case PopCas(rp, val) =>
      LoadWraps(c, q, val);
      PositionCompares(c, q, rp, q.rd);
      WrapStep(c, rp, 1);
    case EmptyRead(rp) =>
      LoadWraps(c, q, rp);
      CellCompares(c, q, rp);
    case _ =>
  }

  lemma PopIfFullOnWords(c: nat, q: Queue, op: Op)
    requires WordRing(c) && QueueInv(c, q) && OpInv(c, q, op) && Awake(c, q, op) && PoppingIfFull(op)
    ensures WordQueue(c, WrapQueue(q)) && WordOp(WrapOp(op))
    ensures WordStepPopIfFull(c, WrapQueue(q), WrapOp(op)) == WrapOutcome(StepPopIfFull(c, q, op))
  {
    hide QueueInv, Frontier, CycleOf, IndexOf, Cycle, Index, Wrap, IsOneCycleBehind, Laps, Add,
      LoadValueAt, LoadWordAt, OneCycleBehind, WordQueue, WrapCells;
    FrontierIsClose(c, q);
    LoadWraps(c, q, q.rd);
    match op
    case FullReadCell(wp, rp) =>
      LoadWraps(c, q, rp);
      LoadWraps(c, q, wp);
      CycleMonotone(c, rp, Frontier(c, q));
      CycleMonotone(c, wp, Frontier(c, q));
      WordsCompareLikePositions(c, rp, wp);
    case FullCas(_, rp, val) =>
      LoadWraps(c, q, val);
      PositionCompares(c, q, rp, q.rd);
      WrapStep(c, rp, 1);
    case _ =>
  }

  lemma PopIfSizeOnWords(c: nat, q: Queue, op: Op)
    requires WordRing(c) && QueueInv(c, q) && OpInv(c, q, op) && Awake(c, q, op) && PoppingIfSize(op)
    ensures WordQueue(c, WrapQueue(q)) && WordOp(WrapOp(op))
    ensures WordStepPopIfSize(c, WrapQueue(q), WrapOp(op)) == WrapOutcome(StepPopIfSize(c, q, op))
  {
    hide QueueInv, Frontier, CycleOf, IndexOf, Cycle, Index, Wrap, Minus, Laps, Add, Near,
      LoadValueAt, LoadWordAt, WordQueue, WrapCells;
    FrontierIsClose(c, q);
    LoadWraps(c, q, q.rd);
    match op
    case SizeLoadRead(min, wp) => DistanceOfWords(wp, q.rd);
    case SizeReadCell(_, _, rp) => LoadWraps(c, q, rp);
    case SizeCas(_, _, rp, val) =>
      LoadWraps(c, q, val);
      PositionCompares(c, q, rp, q.rd);
      WrapStep(c, rp, 1);
    case _ =>
  }

  /** For ring lengths that divide 2^64 the step on words simulates the step on positions, across
      any number of overflows, as long as the call is awake. */
  lemma StepOnWords(c: nat, q: Queue, op: Op, spurious: bool)
    requires WordRing(c) && QueueInv(c, q) && OpInv(c, q, op) && Awake(c, q, op)
    ensures WordQueue(c, WrapQueue(q)) && WordOp(WrapOp(op))
    ensures WordStep(c, WrapQueue(q), WrapOp(op), spurious) == WrapOutcome(Step(c, q, op, spurious))
  {
    hide QueueInv, OpInv, Awake, WordQueue, WrapQueue, StepPush, StepPopIfFull, StepPopIfSize,
      WordStepPush, WordStepPopIfFull, WordStepPopIfSize;
    if Publishing(op) || op.PushFinish? { PushOnWords(c, q, op, spurious); }
    else if Popping(op) || AskingEmpty(op) { PopOnWords(c, q, op, spurious); }
    else if PoppingIfFull(op) { PopIfFullOnWords(c, q, op); }
    else if PoppingIfSize(op) { PopIfSizeOnWords(c, q, op); }
    else { LoadWraps(c, q, 0); }
  }
}
