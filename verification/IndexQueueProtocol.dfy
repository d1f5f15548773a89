/**
 The multi-producer multi-consumer index queue as a step machine.

 Each atomic load, store or compare-exchange of the C++ code is one step of one thread, taken
 on the shared `Queue`; the locals of the running call are the fields of its `Op`. Steps of
 different threads interleave arbitrarily (sequential consistency), and a
 compare_exchange_weak may fail spuriously. Positions are unbounded naturals.
*/
module IndexQueueProtocol {
  import opened CyclicIndex

  /** The shared memory: the cells and the two positions. */
  datatype Queue = Queue(cells: seq<nat>, rd: nat, wr: nat)

  /** Where a call stands, with its local variables. */
  datatype Op =
    | PushLoad(idx: nat)                                      // load m_writePosition
    | PushRead(idx: nat, wp: nat)                             // load the cell at wp
    | PushCas(idx: nat, wp: nat, seen: nat)                    // publish into the cell
    | PushHelp(idx: nat, wp: nat)                             // move m_writePosition for someone else
    | PushFinish(wp: nat)                                     // move m_writePosition for ourselves
    | Pushed
    | PopLoad                                                 // load m_readPosition
    | PopRead(rp: nat)                                        // load the cell at rp
    | PopCas(rp: nat, val: nat)                               // take ownership of rp
    | FullLoadWrite                                           // popIfFull: load m_writePosition
    | FullLoadRead(wp: nat)                                   // load m_readPosition
    | FullReadCell(wp: nat, rp: nat)                          // load the cell at rp
    | FullCas(wp: nat, rp: nat, val: nat)
    | SizeLoadWrite(min: nat)                                 // popIfSizeIsAtLeast, min > 0
    | SizeLoadRead(min: nat, wp: nat)
    | SizeReadCell(min: nat, wp: nat, rp: nat)
    | SizeCas(min: nat, wp: nat, rp: nat, val: nat)
    | EmptyLoad                                               // empty(): load m_readPosition
    | EmptyRead(rp: nat)
    | Got(got: nat)                                           // a pop returned true
    | NotGot                                                  // a pop returned false
    | EmptyIs(answer: bool)                                   // empty() returned

  predicate Finished(op: Op) {
    op.Pushed? || op.Got? || op.NotGot? || op.EmptyIs?
  }

  predicate Popping(op: Op) {
    op.PopLoad? || op.PopRead? || op.PopCas?
  }

  predicate PoppingIfFull(op: Op) {
    op.FullLoadWrite? || op.FullLoadRead? || op.FullReadCell? || op.FullCas?
  }

  predicate PoppingIfSize(op: Op) {
    op.SizeLoadWrite? || op.SizeLoadRead? || op.SizeReadCell? || op.SizeCas?
  }

  predicate AskingEmpty(op: Op) {
    op.EmptyLoad? || op.EmptyRead?
  }

  predicate Publishing(op: Op) {
    op.PushLoad? || op.PushRead? || op.PushCas? || op.PushHelp?
  }

  /** popIfSizeIsAtLeast delegates to pop for a minimum of zero. */
  function StartPopIfSizeIsAtLeast(min: nat): Op {
    if min == 0 then PopLoad else SizeLoadWrite(min)
  }

  /** What a step does to the abstract queue, or claims about it. */
  datatype Event =
    | Silent
    | Appended(pushed: nat)
    | Removed(popped: nat)
    | SawEmpty

  datatype Outcome = Outcome(queue: Queue, op: Op, event: Event)

  function ConstructEmpty(c: nat): Queue {
    Queue(seq(c, _ => 0), c, c)
  }

  function ConstructFull(c: nat): Queue {
    Queue(seq(c, i => i), 0, c)
  }

  predicate Shape(c: nat, q: Queue) {
    c >= 1 && |q.cells| == c
  }

  function LoadValueAt(c: nat, q: Queue, p: nat): nat
    requires Shape(c, q)
  {
    q.cells[IndexOf(c, p)]
  }

  /** The second half of the push loop body: help, or start over with a fresh write position. */
  function HelpOrReload(c: nat, idx: nat, wp: nat, seen: nat): Op
    requires c >= 1
  {
    if CycleOf(c, seen) == CycleOf(c, wp) then PushHelp(idx, wp) else PushLoad(idx)
  }

  function StepPush(c: nat, q: Queue, op: Op, spurious: bool): Outcome
    requires Shape(c, q) && (Publishing(op) || op.PushFinish?)
  {
    match op
    case PushLoad(idx) => Outcome(q, PushRead(idx, q.wr), Silent)
    case PushRead(idx, wp) =>
      var seen := LoadValueAt(c, q, wp);
      if OneCycleBehind(c, seen, wp) then Outcome(q, PushCas(idx, wp, seen), Silent)
      else Outcome(q, HelpOrReload(c, idx, wp, seen), Silent)
    case PushCas(idx, wp, seen) =>
      var now := LoadValueAt(c, q, wp);
      if now == seen && !spurious then
        var cells := q.cells[IndexOf(c, wp) := Pack(c, idx, CycleOf(c, wp))];
        Outcome(q.(cells := cells), PushFinish(wp), Appended(idx))
      else
        Outcome(q, HelpOrReload(c, idx, wp, now), Silent)
    case PushHelp(idx, wp) =>
      if q.wr == wp then Outcome(q.(wr := wp + 1), PushRead(idx, wp), Silent)
      else Outcome(q, PushRead(idx, q.wr), Silent)
    case PushFinish(wp) =>
      if q.wr == wp then Outcome(q.(wr := wp + 1), Pushed, Silent)
      else Outcome(q, Pushed, Silent)
  }

  function StepPop(c: nat, q: Queue, op: Op, spurious: bool): Outcome
    requires Shape(c, q) && Popping(op)
  {
    match op
    case PopLoad => Outcome(q, PopRead(q.rd), Silent)
    case PopRead(rp) =>
      var val := LoadValueAt(c, q, rp);
      if CycleOf(c, rp) == CycleOf(c, val) then Outcome(q, PopCas(rp, val), Silent)
      else if OneCycleBehind(c, val, rp) then Outcome(q, NotGot, SawEmpty)
      else Outcome(q, PopLoad, Silent)
    case PopCas(rp, val) =>
      if q.rd == rp && !spurious then
        Outcome(q.(rd := rp + 1), Got(IndexOf(c, val)), Removed(IndexOf(c, val)))
      else
        Outcome(q, PopRead(q.rd), Silent)
  }

  function StepPopIfFull(c: nat, q: Queue, op: Op): Outcome
    requires Shape(c, q) && PoppingIfFull(op)
  {
    match op
    case FullLoadWrite => Outcome(q, FullLoadRead(q.wr), Silent)
    case FullLoadRead(wp) => Outcome(q, FullReadCell(wp, q.rd), Silent)
    case FullReadCell(wp, rp) =>
      var val := LoadValueAt(c, q, rp);
      if IndexOf(c, wp) == IndexOf(c, rp) && OneCycleBehind(c, rp, wp)
      then Outcome(q, FullCas(wp, rp, val), Silent)
      else Outcome(q, NotGot, Silent)
    case FullCas(wp, rp, val) =>
      if q.rd == rp
      then Outcome(q.(rd := rp + 1), Got(IndexOf(c, val)), Removed(IndexOf(c, val)))
      else Outcome(q, NotGot, Silent)
  }

  function StepPopIfSize(c: nat, q: Queue, op: Op): Outcome
    requires Shape(c, q) && PoppingIfSize(op)
  {
    match op
    case SizeLoadWrite(min) => Outcome(q, SizeLoadRead(min, q.wr), Silent)
    case SizeLoadRead(min, wp) =>
      if wp - q.rd >= min then Outcome(q, SizeReadCell(min, wp, q.rd), Silent)
      else Outcome(q, NotGot, Silent)
    case SizeReadCell(min, wp, rp) =>
      Outcome(q, SizeCas(min, wp, rp, LoadValueAt(c, q, rp)), Silent)
    case SizeCas(min, wp, rp, val) =>
      if q.rd == rp
      then Outcome(q.(rd := rp + 1), Got(IndexOf(c, val)), Removed(IndexOf(c, val)))
      else Outcome(q, NotGot, Silent)
  }

  function StepEmpty(c: nat, q: Queue, op: Op): Outcome
    requires Shape(c, q) && AskingEmpty(op)
  {
    match op
    case EmptyLoad => Outcome(q, EmptyRead(q.rd), Silent)
    case EmptyRead(rp) =>
      if OneCycleBehind(c, LoadValueAt(c, q, rp), rp) then Outcome(q, EmptyIs(true), SawEmpty)
      else Outcome(q, EmptyIs(false), Silent)
  }

  /** One atomic step of a call; `spurious` makes a weak compare-exchange fail for no reason. */
  function Step(c: nat, q: Queue, op: Op, spurious: bool): (r: Outcome)
    requires Shape(c, q)
    ensures Shape(c, r.queue)
  {
    if Publishing(op) || op.PushFinish? then StepPush(c, q, op, spurious)
    else if Popping(op) then StepPop(c, q, op, spurious)
    else if PoppingIfFull(op) then StepPopIfFull(c, q, op)
    else if PoppingIfSize(op) then StepPopIfSize(c, q, op)
    else if AskingEmpty(op) then StepEmpty(c, q, op)
    else Outcome(q, op, Silent)
  }

  // ---------------------------------------------------------------------------------------
  // The abstract queue

  /** A position is published once its cell carries its own cycle. */
  predicate Published(c: nat, q: Queue, p: nat)
    requires Shape(c, q)
  {
    CycleOf(c, LoadValueAt(c, q, p)) == CycleOf(c, p)
  }

  /** The publication frontier: the write position, or one further if a push has published but
      not yet moved it. */
  function Frontier(c: nat, q: Queue): nat
    requires Shape(c, q)
  {
    if Published(c, q, q.wr) then q.wr + 1 else q.wr
  }

  /** The indices stored in the cells of positions lo..hi-1. */
  function Window(c: nat, cells: seq<nat>, lo: nat, hi: nat): (w: seq<nat>)
    requires c >= 1 && |cells| == c && lo <= hi
    ensures |w| == hi - lo
    ensures forall i :: 0 <= i < |w| ==> w[i] == IndexOf(c, cells[IndexOf(c, lo + i)])
    decreases hi - lo
  {
    if lo == hi then [] else [IndexOf(c, cells[IndexOf(c, lo)])] + Window(c, cells, lo + 1, hi)
  }

  /** The indices in the queue, oldest first. */
  function Contents(c: nat, q: Queue): seq<nat>
    requires Shape(c, q) && q.rd <= Frontier(c, q)
  {
    Window(c, q.cells, q.rd, Frontier(c, q))
  }

  /** The last `c` positions below the frontier are exactly the published ones in the cells. */
  ghost predicate QueueInv(c: nat, q: Queue): (b: bool)
    ensures b ==> Shape(c, q) && q.rd <= Frontier(c, q)
  {
    && Shape(c, q)
    && var f := Frontier(c, q);
    && c <= f
    && q.rd <= f <= q.rd + c
    && forall p :: f - c <= p < f ==> Published(c, q, p)
  }

  /** What a call in flight may rely on, whatever the other threads do. */
  ghost predicate OpInv(c: nat, q: Queue, op: Op)
    requires Shape(c, q)
  {
    match op
    case PushLoad(idx) => idx < c
    case PushRead(idx, wp) => idx < c && wp <= q.wr
    case PushCas(idx, wp, seen) => idx < c && wp <= q.wr && OneCycleBehind(c, seen, wp)
    case PushHelp(idx, wp) => idx < c && wp < Frontier(c, q)
    case PushFinish(wp) => wp < Frontier(c, q)
    case PopRead(rp) => rp <= q.rd
    case PopCas(rp, val) => rp < Frontier(c, q) && Loaded(c, q, rp, val)
    case FullLoadRead(wp) => wp <= q.wr
    case FullReadCell(wp, rp) => wp <= q.wr && rp <= q.rd
    case FullCas(wp, rp, val) => wp <= q.wr && wp == rp + c && Loaded(c, q, rp, val)
    case SizeLoadWrite(min) => 1 <= min
    case SizeLoadRead(min, wp) => 1 <= min && wp <= q.wr
    case SizeReadCell(min, wp, rp) => 1 <= min && wp <= q.wr && rp <= q.rd && rp + min <= wp
    case SizeCas(min, wp, rp, val) => 1 <= min && wp <= q.wr && rp + min <= wp && Loaded(c, q, rp, val)
    case EmptyRead(rp) => rp <= q.rd
    case Got(i) => i < c
    case _ => true
  }

  /** As long as the read position has not moved past `rp`, its cell still holds `val`. */
  ghost predicate Loaded(c: nat, q: Queue, rp: nat, val: nat)
    requires Shape(c, q)
  {
    rp <= q.rd && (rp == q.rd ==> LoadValueAt(c, q, rp) == val)
  }

  lemma EmptyQueue(c: nat)
    requires c >= 1
    ensures var q := ConstructEmpty(c); QueueInv(c, q) && Contents(c, q) == []
  {
    var q := ConstructEmpty(c);
    assert CycleOf(c, c) == 1 + CycleOf(c, 0);
    assert Frontier(c, q) == c;
  }

  lemma FullQueue(c: nat)
    requires c >= 1
    ensures var q := ConstructFull(c); QueueInv(c, q) && Contents(c, q) == seq(c, i => i)
  {
    var q := ConstructFull(c);
    assert CycleOf(c, c) == 1 + CycleOf(c, 0);
    assert Frontier(c, q) == c;
  }

  lemma FrontierIsClose(c: nat, q: Queue)
    requires QueueInv(c, q)
    ensures q.wr <= Frontier(c, q) <= q.wr + 1 && q.rd <= Frontier(c, q) <= q.rd + c
    ensures |Contents(c, q)| == Frontier(c, q) - q.rd
  {
  }

  // ---------------------------------------------------------------------------------------
  // What a load can see

  /** The cell of a position at or below the frontier: one cycle behind exactly at the
      frontier, the same cycle inside the last lap, further ahead below it. */
  lemma {:induction false} CellCycle(c: nat, q: Queue, p: nat)
    requires QueueInv(c, q) && p <= Frontier(c, q)
    ensures p == Frontier(c, q) <==> OneCycleBehind(c, LoadValueAt(c, q, p), p)
    ensures p < Frontier(c, q) <= p + c <==> CycleOf(c, LoadValueAt(c, q, p)) == CycleOf(c, p)
    ensures Frontier(c, q) > p + c <==> CycleOf(c, LoadValueAt(c, q, p)) > CycleOf(c, p)
    decreases Frontier(c, q) - p
  {
    var f := Frontier(c, q);
    if p == f {
      assert Published(c, q, p - c);
    } else if f - c <= p {
      assert Published(c, q, p);
    } else {
      CellCycle(c, q, p + c);
    }
  }

  // ---------------------------------------------------------------------------------------
  // The three ways in which the shared memory changes

  /** Writing the cell behind the window appends to it, as long as the lap is not full. */
  lemma {:induction false} WindowAppend(c: nat, cells: seq<nat>, lo: nat, hi: nat, cell: nat)
    requires c >= 1 && |cells| == c && lo <= hi < lo + c
    ensures Window(c, cells[IndexOf(c, hi) := cell], lo, hi + 1) == Window(c, cells, lo, hi) + [IndexOf(c, cell)]
    decreases hi - lo
  {
    var cells' := cells[IndexOf(c, hi) := cell];
    if lo == hi {
      assert Window(c, cells', hi + 1, hi + 1) == [];
    } else {
      SameCell(c, lo, hi);
      WindowAppend(c, cells, lo + 1, hi, cell);
    }
  }

  lemma PublishKeepsInv(c: nat, q: Queue, cell: nat)
    requires QueueInv(c, q) && q.wr == Frontier(c, q) < q.rd + c && CycleOf(c, cell) == CycleOf(c, q.wr)
    ensures var q' := q.(cells := q.cells[IndexOf(c, q.wr) := cell]);
            QueueInv(c, q') && Frontier(c, q') == Frontier(c, q) + 1
  {
    var f := Frontier(c, q);
    var q' := q.(cells := q.cells[IndexOf(c, f) := cell]);
    assert Published(c, q', f);
    forall p | f + 1 - c <= p < f + 1
      ensures Published(c, q', p)
    {
      if p < f {
        SameCell(c, p, f);
        assert Published(c, q, p);
      }
    }
  }

  /** The publishing compare-exchange can only succeed at the frontier, and there it appends. */
  lemma Publish(c: nat, q: Queue, idx: nat, wp: nat)
    requires QueueInv(c, q) && wp <= q.wr && idx < c
    requires OneCycleBehind(c, LoadValueAt(c, q, wp), wp)
    requires |Contents(c, q)| < c
    ensures wp == q.wr == Frontier(c, q)
    ensures var q' := q.(cells := q.cells[IndexOf(c, wp) := Pack(c, idx, CycleOf(c, wp))]);
            && QueueInv(c, q')
            && Frontier(c, q') == Frontier(c, q) + 1
            && Contents(c, q') == Contents(c, q) + [idx]
  {
    hide Published, Pack;
    CellCycle(c, q, wp);
    Unpack(c, idx, CycleOf(c, wp));
    FrontierIsClose(c, q);
    hide QueueInv, Frontier, Window, CycleOf, IndexOf;
    PublishKeepsInv(c, q, Pack(c, idx, CycleOf(c, wp)));
    WindowAppend(c, q.cells, q.rd, wp, Pack(c, idx, CycleOf(c, wp)));
  }

  /** Moving the write position over a published cell changes nothing a client can see. */
  lemma MoveWritePosition(c: nat, q: Queue)
    requires QueueInv(c, q) && q.wr < Frontier(c, q)
    ensures var q' := q.(wr := q.wr + 1);
            && QueueInv(c, q')
            && Frontier(c, q') == Frontier(c, q) == q'.wr
            && Contents(c, q') == Contents(c, q)
  {
    var f := Frontier(c, q);
    CellCycle(c, q, f);
    var q' := q.(wr := q.wr + 1);
    forall p | f - c <= p < f
      ensures Published(c, q', p)
    {
      assert Published(c, q, p);
    }
  }

  lemma TakeHead(c: nat, q: Queue, val: nat)
    requires QueueInv(c, q) && q.rd < Frontier(c, q) && LoadValueAt(c, q, q.rd) == val
    ensures var q' := q.(rd := q.rd + 1);
            && QueueInv(c, q')
            && Frontier(c, q') == Frontier(c, q)
            && Contents(c, q) == [IndexOf(c, val)] + Contents(c, q')
  {
    var q' := q.(rd := q.rd + 1);
    var f := Frontier(c, q);
    forall p | f - c <= p < f
      ensures Published(c, q', p)
    {
      assert Published(c, q, p);
    }
  }

  lemma IsFullDistance(c: nat, rp: nat, wp: nat)
    requires c >= 1 && IndexOf(c, wp) == IndexOf(c, rp) && OneCycleBehind(c, rp, wp)
    ensures wp == rp + c
  {
    IndexAndCycle(c, wp);
    IndexAndCycle(c, rp);
  }

  lemma FullMeansOneLap(c: nat, rp: nat, wp: nat)
    requires c >= 1
    ensures IndexOf(c, wp) == IndexOf(c, rp) && OneCycleBehind(c, rp, wp) <==> wp == rp + c
  {
    if IndexOf(c, wp) == IndexOf(c, rp) && OneCycleBehind(c, rp, wp) { IsFullDistance(c, rp, wp); }
  }

  // ---------------------------------------------------------------------------------------
  // Refinement

  /** A push needs a free cell until it has published; the owner of a unique index has one. */
  ghost predicate HasRoom(c: nat, q: Queue, op: Op)
    requires QueueInv(c, q)
  {
    Publishing(op) ==> |Contents(c, q)| < c
  }

  /** What an event means for the abstract queue. */
  ghost predicate Explains(before: seq<nat>, event: Event, after: seq<nat>) {
    match event
    case Silent => after == before
    case Appended(i) => after == before + [i]
    case Removed(i) => before == [i] + after
    case SawEmpty => before == [] && after == []
  }

  ghost predicate Refines(c: nat, q: Queue, r: Outcome)
    requires QueueInv(c, q)
  {
    && QueueInv(c, r.queue)
    && OpInv(c, r.queue, r.op)
    && Explains(Contents(c, q), r.event, Contents(c, r.queue))
  }

  lemma PushRefines(c: nat, q: Queue, op: Op, spurious: bool)
    requires QueueInv(c, q) && OpInv(c, q, op) && HasRoom(c, q, op)
    requires Publishing(op) || op.PushFinish?
    ensures Refines(c, q, Step(c, q, op, spurious))
  {
    hide QueueInv, Contents, Window, Published, Frontier, Pack, CycleOf;
    FrontierIsClose(c, q);
    match op {
      case PushLoad(idx) =>
      case PushRead(idx, wp) => CellCycle(c, q, wp);
      case PushCas(idx, wp, seen) =>
        CellCycle(c, q, wp);
        if LoadValueAt(c, q, wp) == seen && !spurious { Publish(c, q, idx, wp); }
      case PushHelp(idx, wp) => if q.wr == wp { MoveWritePosition(c, q); }
      case PushFinish(wp) => if q.wr == wp { MoveWritePosition(c, q); }
    }
  }

  lemma PopRefines(c: nat, q: Queue, op: Op, spurious: bool)
    requires QueueInv(c, q) && OpInv(c, q, op)
    requires Popping(op) || AskingEmpty(op)
    ensures Refines(c, q, Step(c, q, op, spurious))
  {
    hide QueueInv, Contents, Window, Published, Frontier, CycleOf;
    FrontierIsClose(c, q);
    match op {
      case PopLoad =>
      case PopRead(rp) => CellCycle(c, q, rp);
      case PopCas(rp, val) => if q.rd == rp && !spurious { TakeHead(c, q, val); }
      case EmptyLoad =>
      case EmptyRead(rp) => CellCycle(c, q, rp);
    }
  }

  lemma PopIfFullRefines(c: nat, q: Queue, op: Op, spurious: bool)
    requires QueueInv(c, q) && OpInv(c, q, op) && PoppingIfFull(op)
    ensures Refines(c, q, Step(c, q, op, spurious))
  {
    hide QueueInv, Contents, Window, Published, Frontier, CycleOf;
    FrontierIsClose(c, q);
    match op {
      case FullReadCell(wp, rp) =>
        if IndexOf(c, wp) == IndexOf(c, rp) && OneCycleBehind(c, rp, wp) { IsFullDistance(c, rp, wp); }
      case FullCas(wp, rp, val) => if q.rd == rp { TakeHead(c, q, val); }
      case _ =>
    }
  }

  lemma PopIfSizeRefines(c: nat, q: Queue, op: Op, spurious: bool)
    requires QueueInv(c, q) && OpInv(c, q, op) && PoppingIfSize(op)
    ensures Refines(c, q, Step(c, q, op, spurious))
  {
    hide QueueInv, Contents, Window, Published, Frontier, CycleOf;
    FrontierIsClose(c, q);
    match op {
      case SizeCas(min, wp, rp, val) => if q.rd == rp { TakeHead(c, q, val); }
      case _ =>
    }
  }

  /** A call may start at any time. */
  lemma CallsStart(c: nat, q: Queue, i: nat, min: nat)
    requires Shape(c, q) && i < c
    ensures OpInv(c, q, PushLoad(i)) && OpInv(c, q, PopLoad) && OpInv(c, q, FullLoadWrite)
    ensures OpInv(c, q, StartPopIfSizeIsAtLeast(min)) && OpInv(c, q, EmptyLoad)
  {
  }

  /** How a step moves a call along, and which event it raises. */
  lemma StepKinds(c: nat, q: Queue, op: Op, spurious: bool)
    requires Shape(c, q)
    ensures var r := Step(c, q, op, spurious);
            && (Publishing(op) ==>
                  || (Publishing(r.op) && r.op.idx == op.idx && r.event == Silent)
                  || (r.op.PushFinish? && r.event == Appended(op.idx)))
            && (op.PushFinish? ==> r.op.Pushed? && r.event == Silent)
            && (Popping(op) ==> (Popping(r.op) && r.event == Silent) || PopEnds(r))
            && (PoppingIfFull(op) ==> (PoppingIfFull(r.op) && r.event == Silent) || PopEnds(r))
            && (PoppingIfSize(op) ==> (PoppingIfSize(r.op) && r.event == Silent) || PopEnds(r))
            && (AskingEmpty(op) ==> AskingEmpty(r.op) || r.op.EmptyIs?)
            && (Finished(op) ==> r == Outcome(q, op, Silent))
  {
    hide IndexOf, CycleOf, Pack, LoadValueAt, OneCycleBehind;
  }

  ghost predicate PopEnds(r: Outcome) {
    || (r.op.Got? && r.event == Removed(r.op.got))
    || (r.op.NotGot? && (r.event == Silent || r.event == SawEmpty))
  }

  /** Every step of every call is a step of a FIFO queue, and leaves the call in order. */
  lemma StepRefines(c: nat, q: Queue, op: Op, spurious: bool)
    requires QueueInv(c, q) && OpInv(c, q, op) && HasRoom(c, q, op)
    ensures Refines(c, q, Step(c, q, op, spurious))
  {
    if Publishing(op) || op.PushFinish? {
      PushRefines(c, q, op, spurious);
    } else if Popping(op) || AskingEmpty(op) {
      PopRefines(c, q, op, spurious);
    } else if PoppingIfFull(op) {
      PopIfFullRefines(c, q, op, spurious);
    } else if PoppingIfSize(op) {
      PopIfSizeRefines(c, q, op, spurious);
    }
  }

  /** A pop either goes on, gives up, or leaves with the oldest index. */
  lemma PopOutcome(c: nat, q: Queue, op: Op, spurious: bool)
    requires QueueInv(c, q) && OpInv(c, q, op)
    requires Popping(op) || PoppingIfFull(op) || PoppingIfSize(op)
    ensures var r := Step(c, q, op, spurious);
            && QueueInv(c, r.queue) && OpInv(c, r.queue, r.op)
            && (r.op.Got? ==>
                  && r.op.got in Contents(c, q)
                  && Contents(c, q) == [r.op.got] + Contents(c, r.queue))
            && (!r.op.Got? ==> Contents(c, r.queue) == Contents(c, q))
            && (r.op.Got? || r.op.NotGot?
                || (Popping(op) && Popping(r.op))
                || (PoppingIfFull(op) && PoppingIfFull(r.op))
                || (PoppingIfSize(op) && PoppingIfSize(r.op)))
  {
    hide Step, OpInv, Contents;
    StepRefines(c, q, op, spurious);
    StepKinds(c, q, op, spurious);
    var r := Step(c, q, op, spurious);
    if r.op.Got? { assert Contents(c, q)[0] == r.op.got; }
  }

  /** A push goes on, publishes, or ends after having published. */
  lemma PushOutcome(c: nat, q: Queue, op: Op, spurious: bool)
    requires QueueInv(c, q) && OpInv(c, q, op) && HasRoom(c, q, op)
    requires Publishing(op) || op.PushFinish?
    ensures var r := Step(c, q, op, spurious);
            && QueueInv(c, r.queue) && OpInv(c, r.queue, r.op)
            && (Publishing(op) ==>
                  || (Publishing(r.op) && r.op.idx == op.idx && !r.event.Appended?
                      && Contents(c, r.queue) == Contents(c, q))
                  || (r.op.PushFinish? && r.event.Appended?
                      && Contents(c, r.queue) == Contents(c, q) + [op.idx]))
            && (op.PushFinish? ==>
                  r.op.Pushed? && !r.event.Appended? && Contents(c, r.queue) == Contents(c, q))
  {
    hide Step, OpInv, Contents;
    StepRefines(c, q, op, spurious);
    StepKinds(c, q, op, spurious);
  }

  // ---------------------------------------------------------------------------------------
  // Non-interference

  /** Positions and cell cycles only move forward; a cell that changes moves to a later cycle,
      so a compare-exchange on a cell cannot be fooled by an old value coming back. */
  ghost predicate Forward(c: nat, q: Queue, q': Queue) {
    && Shape(c, q) && Shape(c, q')
    && q.rd <= q'.rd && q.wr <= q'.wr && Frontier(c, q) <= Frontier(c, q')
    && forall k :: 0 <= k < c ==>
         q'.cells[k] == q.cells[k] || CycleOf(c, q.cells[k]) < CycleOf(c, q'.cells[k])
  }

  lemma PushForward(c: nat, q: Queue, op: Op, spurious: bool)
    requires QueueInv(c, q) && OpInv(c, q, op) && HasRoom(c, q, op)
    requires Publishing(op) || op.PushFinish?
    ensures Forward(c, q, StepPush(c, q, op, spurious).queue)
  {
    hide Window;
    match op {
      case PushCas(idx, wp, seen) =>
        if LoadValueAt(c, q, wp) == seen && !spurious {
          Publish(c, q, idx, wp);
          Unpack(c, idx, CycleOf(c, wp));
        }
      case PushHelp(idx, wp) => if q.wr == wp { MoveWritePosition(c, q); }
      case PushFinish(wp) => if q.wr == wp { MoveWritePosition(c, q); }
      case _ =>
    }
  }

  lemma StepForward(c: nat, q: Queue, op: Op, spurious: bool)
    requires QueueInv(c, q) && OpInv(c, q, op) && HasRoom(c, q, op)
    ensures Forward(c, q, Step(c, q, op, spurious).queue)
  {
    hide Window, StepPush, CycleOf, IndexOf;
    if Publishing(op) || op.PushFinish? { PushForward(c, q, op, spurious); }
  }

  /** A publishing step leaves every cell that still holds an unread position alone. */
  lemma StepKeepsUnread(c: nat, q: Queue, op: Op, spurious: bool, p: nat)
    requires QueueInv(c, q) && OpInv(c, q, op) && HasRoom(c, q, op)
    requires q.rd <= p < Frontier(c, q)
    ensures LoadValueAt(c, Step(c, q, op, spurious).queue, p) == LoadValueAt(c, q, p)
  {
    if op.PushCas? && LoadValueAt(c, q, op.wp) == op.seen && !spurious {
      CellCycle(c, q, op.wp);
      SameCell(c, p, op.wp);
    }
  }

  /** What one call relies on survives any step of any other call. */
  lemma StepStable(c: nat, q: Queue, op: Op, spurious: bool, other: Op)
    requires QueueInv(c, q) && OpInv(c, q, op) && HasRoom(c, q, op)
    requires OpInv(c, q, other)
    ensures OpInv(c, Step(c, q, op, spurious).queue, other)
  {
    StepForward(c, q, op, spurious);
    var rp := match other
      case PopCas(rp, _) => rp
      case FullCas(_, rp, _) => rp
      case SizeCas(_, _, rp, _) => rp
      case _ => Frontier(c, q);
    if q.rd <= rp < Frontier(c, q) {
      StepKeepsUnread(c, q, op, spurious, rp);
    }
  }

  // ---------------------------------------------------------------------------------------
  // What a call may conclude

  /** popIfFull takes from a queue that holds `c` indices at that very moment, and
      popIfSizeIsAtLeast from one that holds at least the requested number. */
  lemma ConditionalPopIsTruthful(c: nat, q: Queue, op: Op, spurious: bool)
    requires QueueInv(c, q) && OpInv(c, q, op)
    requires Step(c, q, op, spurious).event.Removed?
    ensures op.FullCas? ==> |Contents(c, q)| == c
    ensures op.SizeCas? ==> |Contents(c, q)| >= op.min
  {
  }

  lemma EmptyOnlyLoads(c: nat, q: Queue, op: Op, spurious: bool)
    requires Shape(c, q) && AskingEmpty(op)
    ensures Step(c, q, op, spurious).queue == q
  {
  }

  lemma EmptyEvent(c: nat, q: Queue, op: Op, spurious: bool)
    requires Shape(c, q) && !Finished(op)
    ensures var r := Step(c, q, op, spurious);
      (Popping(op) && r.op.NotGot?) || r.op == EmptyIs(true) ==> (Popping(op) || AskingEmpty(op)) && r.event == SawEmpty
  {
    hide LoadValueAt, OneCycleBehind, CycleOf, IndexOf, Pack;
  }

  /** pop reports failure, and empty() success, only from a load that saw an empty queue. */
  lemma EmptyIsTruthful(c: nat, q: Queue, op: Op, spurious: bool)
    requires QueueInv(c, q) && OpInv(c, q, op)
    requires (Popping(op) && Step(c, q, op, spurious).op.NotGot?) || Step(c, q, op, spurious).op == EmptyIs(true)
    requires !Finished(op)
    ensures Contents(c, q) == []
  {
    hide Step, Contents, OpInv;
    EmptyEvent(c, q, op, spurious);
    PopRefines(c, q, op, spurious);
  }

  /** A push that works with an outdated write position never publishes. */
  lemma StalePushNeverPublishes(c: nat, q: Queue, op: Op, spurious: bool)
    requires QueueInv(c, q) && OpInv(c, q, op) && op.PushCas? && op.wp < Frontier(c, q)
    ensures Step(c, q, op, spurious).event == Silent && Step(c, q, op, spurious).queue == q
  {
    CellCycle(c, q, op.wp);
  }

  // ---------------------------------------------------------------------------------------
  // Solo termination

  /** Upper bound on the steps a call still needs when it runs alone and no compare-exchange
      fails spuriously. */
  function StepsLeft(c: nat, q: Queue, op: Op): (n: nat)
    requires Shape(c, q)
    ensures (n == 0 <==> Finished(op)) && n <= 9
  {
    var lag := if Published(c, q, q.wr) then 1 else 0;
    match op
    case PushLoad(idx) => 4 + 4 * lag
    case PushRead(idx, wp) =>
      if wp == q.wr then 3 + 4 * lag else 5 + 4 * lag
    case PushCas(idx, wp, seen) =>
      if LoadValueAt(c, q, wp) == seen then 2 else 5 + 4 * lag
    case PushHelp(idx, wp) => if q.wr == wp then 6 else 4 + 4 * lag
    case PushFinish(wp) => 1
    case PopLoad => 3
    case PopRead(rp) => if rp == q.rd then 2 else 4
    case PopCas(rp, val) => if rp == q.rd then 1 else 3
    case FullLoadWrite => 4
    case FullLoadRead(_) => 3
    case FullReadCell(_, _) => 2
    case FullCas(_, _, _) => 1
    case SizeLoadWrite(_) => 4
    case SizeLoadRead(_, _) => 3
    case SizeReadCell(_, _, _) => 2
    case SizeCas(_, _, _, _) => 1
    case EmptyLoad => 2
    case EmptyRead(_) => 1
    case _ => 0
  }

  lemma PushProgress(c: nat, q: Queue, op: Op)
    requires QueueInv(c, q) && OpInv(c, q, op) && HasRoom(c, q, op)
    requires Publishing(op)
    ensures var r := Step(c, q, op, false); StepsLeft(c, r.queue, r.op) < StepsLeft(c, q, op) <= 9
  {
    CellCycle(c, q, q.wr);
    match op {
      case PushLoad(idx) =>
      case PushRead(idx, wp) => CellCycle(c, q, wp);
      case PushCas(idx, wp, seen) =>
        CellCycle(c, q, wp);
        if LoadValueAt(c, q, wp) == seen { Publish(c, q, idx, wp); }
      case PushHelp(idx, wp) => if q.wr == wp { MoveWritePosition(c, q); }
    }
  }

  lemma PopProgress(c: nat, q: Queue, op: Op)
    requires QueueInv(c, q) && OpInv(c, q, op)
    requires !Publishing(op) && !Finished(op)
    ensures var r := Step(c, q, op, false); StepsLeft(c, r.queue, r.op) < StepsLeft(c, q, op) <= 9
  {
    match op {
      case PopRead(rp) => CellCycle(c, q, rp);
      case _ =>
    }
  }

  /** Alone, every call comes strictly closer to its end with each step, from any state in which
      the other threads may have left it, even between another push's publication and its move
      of the write position. */
  lemma SoloProgress(c: nat, q: Queue, op: Op)
    requires QueueInv(c, q) && OpInv(c, q, op) && HasRoom(c, q, op) && !Finished(op)
    ensures var r := Step(c, q, op, false); StepsLeft(c, r.queue, r.op) < StepsLeft(c, q, op) <= 9
  {
    if Publishing(op) { PushProgress(c, q, op); } else { PopProgress(c, q, op); }
  }

  /** The state after a call has run alone for `n` steps. */
  function RunAlone(c: nat, q: Queue, op: Op, n: nat): (r: (Queue, Op))
    requires Shape(c, q)
    ensures Shape(c, r.0)
    decreases n
  {
    if n == 0 then (q, op)
    else var r := Step(c, q, op, false); RunAlone(c, r.queue, r.op, n - 1)
  }

  lemma StepKeepsRoom(c: nat, q: Queue, op: Op, spurious: bool)
    requires QueueInv(c, q) && OpInv(c, q, op) && HasRoom(c, q, op)
    ensures var r := Step(c, q, op, spurious);
            && QueueInv(c, r.queue) && OpInv(c, r.queue, r.op) && HasRoom(c, r.queue, r.op)
  {
    hide Step, OpInv;
    StepRefines(c, q, op, spurious);
    StepKinds(c, q, op, spurious);
  }

  lemma {:induction false} FinishedWithin(c: nat, q: Queue, op: Op, n: nat)
    requires QueueInv(c, q) && OpInv(c, q, op) && HasRoom(c, q, op)
    requires n >= StepsLeft(c, q, op)
    ensures Finished(RunAlone(c, q, op, n).1)
    decreases n
  {
    hide Step, OpInv, StepsLeft, HasRoom;
    if n > 0 {
      var r := Step(c, q, op, false);
      StepKeepsRoom(c, q, op, false);
      if Finished(op) { StepKinds(c, q, op, false); } else { SoloProgress(c, q, op); }
      FinishedWithin(c, r.queue, r.op, n - 1);
    }
  }

  /** Hence any call, run alone in a queue with a cell to spare, is finished after nine steps. */
  lemma SoloTermination(c: nat, q: Queue, op: Op)
    requires QueueInv(c, q) && OpInv(c, q, op) && HasRoom(c, q, op)
    ensures Finished(RunAlone(c, q, op, 9).1)
  {
    if !Finished(op) { SoloProgress(c, q, op); }
    FinishedWithin(c, q, op, 9);
  }
}
