/**
 What each call of the index queue does when no other call interferes: exactly which answer it
 gives and what it leaves behind, from any state in which the other calls may have stopped.
*/
module IndexQueueAlone {
  import opened CyclicIndex
  import opened IndexQueueProtocol

  /** A push that has published its index without having moved the write position hides it from
      the calls that compare the two positions. */
  function Hidden(c: nat, q: Queue): nat
    requires Shape(c, q)
  {
    if q.wr == Frontier(c, q) then 0 else 1
  }

  /** The state after a call has taken the oldest index. */
  ghost predicate TookHead(c: nat, q: Queue, r: (Queue, Op))
    requires QueueInv(c, q)
  {
    && QueueInv(c, r.0) && r.0.wr == q.wr
    && r.1.Got? && Contents(c, q) == [r.1.got] + Contents(c, r.0)
  }

  lemma OneStep(c: nat, q: Queue, op: Op, n: nat)
    requires Shape(c, q) && n >= 1
    ensures var r := Step(c, q, op, false); RunAlone(c, q, op, n) == RunAlone(c, r.queue, r.op, n - 1)
  {
  }

  lemma NoStep(c: nat, q: Queue, op: Op)
    requires Shape(c, q)
    ensures RunAlone(c, q, op, 0) == (q, op)
  {
  }

  /** The step that takes the index at the read position. */
  lemma TakesHead(c: nat, q: Queue, op: Op)
    requires QueueInv(c, q) && q.rd < Frontier(c, q)
    requires op == PopCas(q.rd, LoadValueAt(c, q, q.rd))
      || (op.FullCas? && op.rp == q.rd && op.val == LoadValueAt(c, q, q.rd))
      || (op.SizeCas? && op.rp == q.rd && op.val == LoadValueAt(c, q, q.rd))
    ensures TookHead(c, q, RunAlone(c, q, op, 1))
  {
    hide QueueInv, Frontier, RunAlone, Contents;
    OneStep(c, q, op, 1);
    var r := Step(c, q, op, false);
    NoStep(c, r.queue, r.op);
    TakeHead(c, q, LoadValueAt(c, q, q.rd));
  }

  /** pop alone takes the oldest index, and reports failure exactly on an empty queue. */
  lemma PopAlone(c: nat, q: Queue)
    requires QueueInv(c, q)
    ensures var r := RunAlone(c, q, PopLoad, 3);
      if Contents(c, q) == [] then r == (q, NotGot) else TookHead(c, q, r)
  {
    hide QueueInv, Frontier, RunAlone, Contents, LoadValueAt, IndexOf, OneCycleBehind, TookHead;
    FrontierIsClose(c, q);
    CellCycle(c, q, q.rd);
    OneStep(c, q, PopLoad, 3);
    OneStep(c, q, PopRead(q.rd), 2);
    if Contents(c, q) == [] {
      OneStep(c, q, NotGot, 1);
      NoStep(c, q, NotGot);
    } else {
      TakesHead(c, q, PopCas(q.rd, LoadValueAt(c, q, q.rd)));
    }
  }

  /** popIfFull alone succeeds exactly if the queue is full, and no index in it is hidden. */
  lemma PopIfFullAlone(c: nat, q: Queue)
    requires QueueInv(c, q)
    ensures var r := RunAlone(c, q, FullLoadWrite, 4);
      && (r.1.Got? <==> |Contents(c, q)| == c + Hidden(c, q))
      && if r.1.Got? then TookHead(c, q, r) else r == (q, NotGot)
  {
    hide QueueInv, Frontier, RunAlone, Contents, LoadValueAt, IndexOf, OneCycleBehind, TookHead;
    FrontierIsClose(c, q);
    FullMeansOneLap(c, q.rd, q.wr);
    OneStep(c, q, FullLoadWrite, 4);
    OneStep(c, q, FullLoadRead(q.wr), 3);
    OneStep(c, q, FullReadCell(q.wr, q.rd), 2);
    if q.wr == q.rd + c {
      TakesHead(c, q, FullCas(q.wr, q.rd, LoadValueAt(c, q, q.rd)));
      TookIs(c, q, RunAlone(c, q, FullCas(q.wr, q.rd, LoadValueAt(c, q, q.rd)), 1));
    } else {
      OneStep(c, q, NotGot, 1);
      NoStep(c, q, NotGot);
    }
  }

  lemma TookIs(c: nat, q: Queue, r: (Queue, Op))
    requires QueueInv(c, q) && TookHead(c, q, r)
    ensures r.1.Got?
  {
  }

  /** popIfSizeIsAtLeast alone succeeds exactly if the queue holds the requested number of indices,
      not counting a hidden one. */
  lemma PopIfSizeAlone(c: nat, q: Queue, min: nat)
    requires QueueInv(c, q) && min >= 1
    ensures var r := RunAlone(c, q, StartPopIfSizeIsAtLeast(min), 4);
      && (r.1.Got? <==> |Contents(c, q)| >= min + Hidden(c, q))
      && if r.1.Got? then TookHead(c, q, r) else r == (q, NotGot)
  {
    hide QueueInv, Frontier, RunAlone, Contents, LoadValueAt, IndexOf, OneCycleBehind, TookHead;
    FrontierIsClose(c, q);
    OneStep(c, q, SizeLoadWrite(min), 4);
    OneStep(c, q, SizeLoadRead(min, q.wr), 3);
    if q.wr - q.rd >= min {
      OneStep(c, q, SizeReadCell(min, q.wr, q.rd), 2);
      TakesHead(c, q, SizeCas(min, q.wr, q.rd, LoadValueAt(c, q, q.rd)));
      TookIs(c, q, RunAlone(c, q, SizeCas(min, q.wr, q.rd, LoadValueAt(c, q, q.rd)), 1));
    } else {
      OneStep(c, q, NotGot, 2);
      OneStep(c, q, NotGot, 1);
      NoStep(c, q, NotGot);
    }
  }

  /** empty alone answers whether the queue is empty. */
  lemma EmptyAlone(c: nat, q: Queue)
    requires QueueInv(c, q)
    ensures RunAlone(c, q, EmptyLoad, 2) == (q, EmptyIs(Contents(c, q) == []))
  {
    hide QueueInv, Frontier, RunAlone, Contents, LoadValueAt, IndexOf, OneCycleBehind;
    FrontierIsClose(c, q);
    CellCycle(c, q, q.rd);
    OneStep(c, q, EmptyLoad, 2);
    OneStep(c, q, EmptyRead(q.rd), 1);
    NoStep(c, q, EmptyIs(Contents(c, q) == []));
  }

  /** In a queue in which no push has stopped halfway both conditions are about its size alone. */
  lemma ConditionalPopsAlone(c: nat, q: Queue, min: nat)
    requires QueueInv(c, q) && q.wr == Frontier(c, q) && min >= 1
    ensures RunAlone(c, q, FullLoadWrite, 4).1.Got? <==> |Contents(c, q)| == c
    ensures RunAlone(c, q, StartPopIfSizeIsAtLeast(min), 4).1.Got? <==> |Contents(c, q)| >= min
  {
    hide QueueInv, Frontier, RunAlone, Contents;
    PopIfFullAlone(c, q);
    PopIfSizeAlone(c, q, min);
  }

  // ---------------------------------------------------------------------------------------
  // push

  /** What a push that runs alone still has to append. */
  function Owed(op: Op): seq<nat> {
    if Publishing(op) then [op.idx] else []
  }

  /** Nothing is hidden but the index this push has just published. */
  ghost predicate PushAlone(c: nat, q: Queue, op: Op)
    requires QueueInv(c, q)
  {
    match op
    case PushFinish(wp) => wp == q.wr < Frontier(c, q)
    case Pushed => q.wr == Frontier(c, q)
    case _ => Publishing(op)
  }

  lemma PushStepAlone(c: nat, q: Queue, op: Op)
    requires QueueInv(c, q) && OpInv(c, q, op) && HasRoom(c, q, op) && PushAlone(c, q, op) && !op.Pushed?
    ensures var r := Step(c, q, op, false);
      && QueueInv(c, r.queue) && OpInv(c, r.queue, r.op) && HasRoom(c, r.queue, r.op) && PushAlone(c, r.queue, r.op)
      && Contents(c, r.queue) + Owed(r.op) == Contents(c, q) + Owed(op)
  {
    StepKeepsRoom(c, q, op, false);
    PushOutcome(c, q, op, false);
    FrontierIsClose(c, q);
    hide QueueInv, Contents, OpInv;
    PushMoves(c, q, op);
  }

  lemma PushMoves(c: nat, q: Queue, op: Op)
    requires QueueInv(c, q) && OpInv(c, q, op) && HasRoom(c, q, op) && PushAlone(c, q, op) && !op.Pushed?
    requires QueueInv(c, Step(c, q, op, false).queue)
    ensures PushAlone(c, Step(c, q, op, false).queue, Step(c, q, op, false).op)
  {
    hide QueueInv, Contents, Pack, CycleOf, IndexOf;
    match op
    case PushCas(idx, wp, seen) => if LoadValueAt(c, q, wp) == seen { Publish(c, q, idx, wp); }
    case PushFinish(_) => MoveWritePosition(c, q);
    case _ =>
  }

  lemma {:induction false} PushEnds(c: nat, q: Queue, op: Op, n: nat)
    requires QueueInv(c, q) && OpInv(c, q, op) && HasRoom(c, q, op) && PushAlone(c, q, op)
    requires n >= StepsLeft(c, q, op)
    ensures var r := RunAlone(c, q, op, n);
      && r.1 == Pushed && QueueInv(c, r.0) && Hidden(c, r.0) == 0
      && Contents(c, r.0) == Contents(c, q) + Owed(op)
    decreases n
  {
    hide QueueInv, Contents, OpInv, HasRoom, Step, StepsLeft, Frontier;
    if n == 0 {
      NoStep(c, q, op);
    } else {
      OneStep(c, q, op, n);
      var r := Step(c, q, op, false);
      if op.Pushed? {
        StepKinds(c, q, op, false);
      } else {
        PushStepAlone(c, q, op);
        SoloProgress(c, q, op);
      }
      PushEnds(c, r.queue, r.op, n - 1);
    }
  }

  /** push alone appends its index within nine steps, and leaves nothing hidden. */
  lemma PushAppends(c: nat, q: Queue, idx: nat)
    requires QueueInv(c, q) && idx < c && |Contents(c, q)| < c
    ensures var r := RunAlone(c, q, PushLoad(idx), 9);
      && r.1 == Pushed && QueueInv(c, r.0) && Hidden(c, r.0) == 0
      && Contents(c, r.0) == Contents(c, q) + [idx]
  {
    hide QueueInv, Contents, RunAlone, Frontier;
    PushEnds(c, q, PushLoad(idx), 9);
  }
}
