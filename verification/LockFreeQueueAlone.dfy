/**
 What each call on the lock-free queues does when no other thread runs: it returns within a bounded
 number of steps, with exactly the answer of a bounded first-in first-out queue.

 The state is one in which every other thread is between calls. While the call runs, `Expected`
 tells how it is going to end; no step changes that.
*/
module LockFreeQueueAlone {
  import opened CyclicIndex
  import opened BoundedQueueSpec
  import opened Options
  import opened Indices
  import opened IndexQueueProtocol
  import opened LockFreeQueueProtocol
  import opened LockFreeQueueOwnership
  import opened LockFreeQueueSystem
  import opened LockFreeQueueFifo
  import opened LockFreeQueueCounters
  import opened LockFreeQueueSolo
  import opened LockFreeQueueQuiescence

  // ---------------------------------------------------------------------------------------
  // What a thread that runs alone knows

  /** `f` is the abstract queue: its values, and the value thread `t` has taken and not yet read. */
  ghost predicate Facts<V>(cfg: Config, m: Memory<V>, th: Thread<V>, t: nat, f: Fifo<V>) {
    && MayStep(cfg, m, th)
    && |f.queue| == |Contents(cfg.max, m.used)|
    && |Contents(cfg.max, m.free)| + |f.queue| + Holding(th) == m.capacity
    && m.capacity + |m.unused| == cfg.max + (if th.ShrinkCapacity? || HandsOver(th) then 1 else 0)
    && (m.used.wr == Frontier(cfg.max, m.used) || CatchesUp(th, m.used.wr))
    && (m.resizing <==> Resizing(th))
    && (!cfg.resizeable ==> m.capacity == cfg.max)
    && (Carries(th).Some? <==> t in f.taken)
    && (Carries(th).Some? ==> Carries(th).value < |m.buf| && m.buf[Carries(th).value] == Some(f.taken[t]))
    && (th.ReadSize? ==> m.size == |f.queue|)
  }

  /** The index the thread holds, or has put away without having subtracted it. */
  function Holding<V>(th: Thread<V>): nat {
    if Held(th).Some? || th.ShrinkCapacity? then 1 else 0
  }

  ghost predicate AloneInv<V>(cfg: Config, s: System<V>, l: Ledger, f: Fifo<V>, t: nat): (b: bool)
    ensures b ==> MemoryInv(cfg, s.mem) && t in s.threads
  {
    && CountersInv(cfg, s, l) && MemoryInv(cfg, s.mem) && Simulates(cfg, s, f)
    && LagInv(cfg, s) && FixedInv(cfg, s)
    && t in s.threads && forall u :: u in s.threads && u != t ==> s.threads[u].Done?
  }

  lemma KeptIs<V>(s: System<V>, l: Ledger, t: nat)
    requires FlagInv(s, l.resizer) && t in s.threads && forall u :: u in s.threads && u != t ==> s.threads[u].Done?
    ensures KeptBy(s, l.resizer) == Kept(s.mem, s.threads[t])
    ensures s.mem.resizing <==> Resizing(s.threads[t])
    ensures l.resizer.Some? ==> l.resizer.value == t
  {
    if l.resizer.Some? { assert Resizing(s.threads[l.resizer.value]); }
  }

  /** All indices are in the three lists, but for one that the only running thread may hold. */
  lemma AllButOne(own: seq<Place>, free: seq<nat>, used: seq<nat>, kept: seq<nat>, held: Option<nat>)
    requires Partitioned(own, free, used, kept)
    requires held.Some? ==> held.value < |own| && own[held.value].HeldBy?
    requires forall i :: 0 <= i < |own| && own[i].HeldBy? ==> held == Some(i)
    ensures |free| + |used| + |kept| + (if held.Some? then 1 else 0) == |own|
  {
    var all := free + used + kept + (if held.Some? then [held.value] else []);
    DistinctConcat(free, used);
    DistinctConcat(free + used, kept);
    DistinctConcat(free + used + kept, if held.Some? then [held.value] else []);
    DistinctIndicesFit(|own|, all);
    forall i: nat | i < |own| ensures i in all {
      assert own[i] == InFree || own[i] == InUsed || own[i] == InUnused || own[i].HeldBy?;
    }
    CardinalityOfSubset(Below(|own|), Elements(all));
  }

  lemma Counts3<V>(cfg: Config, s: System<V>, l: Ledger, t: nat)
    requires SystemInv(cfg, s, l) && t in s.threads && forall u :: u in s.threads && u != t ==> s.threads[u].Done?
    ensures |Contents(cfg.max, s.mem.free)| + |Contents(cfg.max, s.mem.used)| + |Kept(s.mem, s.threads[t])|
      + (if Held(s.threads[t]).Some? then 1 else 0) == cfg.max
  {
    hide QueueInv, Contents, OpInv, ThreadInv, Filled, Partitioned, Held, Kept;
    KeptIs(s, l, t);
    var held := Held(s.threads[t]);
    forall i | 0 <= i < |l.own| && l.own[i].HeldBy? ensures held == Some(i) {
      DoneHoldsNothing(s, l, t, i);
    }
    AllButOne(l.own, Contents(cfg.max, s.mem.free), Contents(cfg.max, s.mem.used), KeptBy(s, l.resizer), held);
  }

  lemma DoneHoldsNothing<V>(s: System<V>, l: Ledger, t: nat, i: nat)
    requires Assigned(s.threads, l.own) && i < |l.own| && l.own[i].HeldBy?
    requires t in s.threads && forall u :: u in s.threads && u != t ==> s.threads[u].Done?
    ensures l.own[i].t == t && Held(s.threads[t]) == Some(i)
  {
  }

  lemma CapacityIs<V>(cfg: Config, s: System<V>, l: Ledger, t: nat)
    requires CountersInv(cfg, s, l) && t in s.threads && forall u :: u in s.threads && u != t ==> s.threads[u].Done?
    ensures s.mem.capacity + |Kept(s.mem, s.threads[t])| == cfg.max + if s.threads[t].ShrinkCapacity? then 1 else 0
  {
    hide QueueInv, Contents, OpInv, ThreadInv, Filled, Partitioned, Kept, Assigned, SizeInv;
    KeptIs(s, l, t);
  }

  lemma SizeIs<V>(cfg: Config, s: System<V>, l: Ledger, t: nat)
    requires CountersInv(cfg, s, l) && t in s.threads && forall u :: u in s.threads && u != t ==> s.threads[u].Done?
    requires s.threads[t].ReadSize?
    ensures s.mem.size == |Contents(cfg.max, s.mem.used)|
  {
    hide QueueInv, Contents, OpInv, ThreadInv, Filled, CapacityInv, FlagInv, KeptBy;
    var used := Contents(cfg.max, s.mem.used);
    assert CountedSet(s.threads, l.own) == Elements(used);
  }

  lemma LagIs<V>(cfg: Config, s: System<V>, t: nat)
    requires MemoryInv(cfg, s.mem) && LagInv(cfg, s)
    requires t in s.threads && forall u :: u in s.threads && u != t ==> s.threads[u].Done?
    ensures s.mem.used.wr == Frontier(cfg.max, s.mem.used) || CatchesUp(s.threads[t], s.mem.used.wr)
  {
    hide Contents;
    FrontierIsClose(cfg.max, s.mem.used);
  }

  lemma UnusedAre<V>(cfg: Config, m: Memory<V>, th: Thread<V>)
    requires Shaped(cfg, m) && ThreadInv(cfg, m, th)
    ensures |m.unused| == |Kept(m, th)| + if HandsOver(th) then 1 else 0
  {
  }

  lemma AloneFacts<V>(cfg: Config, s: System<V>, l: Ledger, f: Fifo<V>, t: nat)
    requires AloneInv(cfg, s, l, f, t)
    ensures Facts(cfg, s.mem, s.threads[t], t, f) && Ready(cfg, s.mem, s.threads[t])
  {
    hide QueueInv, Contents, OpInv, Filled, Partitioned, Kept, Assigned, SizeInv, CapacityInv, MayStep, Lags, FlagInv,
      Held, BufferInv, Frontier;
    ThreadMayStep(cfg, s, l, t);
    Counts3(cfg, s, l, t);
    CapacityIs(cfg, s, l, t);
    KeptIs(s, l, t);
    LagIs(cfg, s, t);
    UnusedAre(cfg, s.mem, s.threads[t]);
    ShrinkHoldsNothing(s.threads[t]);
    hide ThreadInv;
    if s.threads[t].ReadSize? { SizeIs(cfg, s, l, t); }
    assert CarriesMatch(s.mem.buf, s.threads[t], t, f.taken);
  }

  lemma ShrinkHoldsNothing<V>(th: Thread<V>)
    ensures th.ShrinkCapacity? ==> Held(th).None?
  {
  }

  // ---------------------------------------------------------------------------------------
  // How the call is going to end

  /** The result of a call, the values and the capacity it leaves, and the values it delivers, to its
      caller or to the remove handler. */
  datatype Ending<V> = Ending(result: Result<V>, queue: seq<V>, capacity: nat, delivered: seq<V>)

  function PushEnding<V>(n: nat, queue: seq<V>, v: V): Ending<V> {
    var (queue', evicted) := PushOver(n, queue, v);
    Ending(Stored(evicted), queue', n, Just(evicted))
  }

  function TryPushEnding<V>(n: nat, queue: seq<V>, v: V): Ending<V> {
    var (queue', ok) := BoundedQueueSpec.TryPush(n, queue, v);
    Ending(if ok then Stored(None) else Refused, queue', n, [])
  }

  function PopEnding<V>(n: nat, queue: seq<V>): Ending<V> {
    var (queue', out) := PopFront(queue);
    Ending(Popped(out), queue', n, Just(out))
  }

  /** The newest values stay, as many as fit. */
  function ResizeEnding<V>(n: nat, queue: seq<V>): Ending<V> {
    var k := Excess(n, queue);
    Ending(CapacitySet(true), queue[k..], n, queue[..k])
  }

  function WithFirst<V>(x: Option<V>, e: Ending<V>): Ending<V> {
    e.(delivered := Just(x) + e.delivered)
  }

  /** `taken` is the value the call has taken and not yet delivered. */
  function Expected<V>(n: nat, queue: seq<V>, taken: Option<V>, th: Thread<V>): Ending<V> {
    match th
    case Done(result) => Ending(result, queue, n, [])
    case TakeFree(v, retry, _) => if retry then PushEnding(n, queue, v) else TryPushEnding(n, queue, v)
    case LoadCapacity(v) => PushEnding(n, queue, v)
    case Evict(v, _) => PushEnding(n, queue, v)
    case EvictSubSize(v, _) => Ending(Stored(taken), queue + [v], n, Just(taken))
    case EvictMove(v, _) => Ending(Stored(taken), queue + [v], n, Just(taken))
    case WriteSlot(v, _, evicted) => Ending(Stored(evicted), queue + [v], n, [])
    case AddSize(v, _, evicted) => Ending(Stored(evicted), queue + [v], n, [])
    case PushUsed(v, _, evicted, op) =>
      Ending(Stored(evicted), if Publishing(op) then queue + [v] else queue, n, [])
    case TakeUsed(_) => PopEnding(n, queue)
    case PopSubSize(_) => Ending(Popped(taken), queue, n, Just(taken))
    case PopMove(_) => Ending(Popped(taken), queue, n, Just(taken))
    case PushFree(_, out, _) => Ending(Popped(out), queue, n, [])
    case ReadEmpty(_) => Ending(WasEmpty(queue == []), queue, n, [])
    case ReadSize => Ending(HadSize(|queue|), queue, n, [])
    case TakeFlag(target) => ResizeEnding(target, queue)
    case CompareCapacity(target) => ResizeEnding(target, queue)
    case ClearFlag(target) => ResizeEnding(target, queue)
    case _ => WithFirst(taken, ResizeEnding(th.g.target, queue))
  }

  function TakenBy<V>(f: Fifo<V>, t: nat): Option<V> {
    if t in f.taken then Some(f.taken[t]) else None
  }

  /** The remaining work of an increaseCapacity or decreaseCapacity is the distance to its target. */
  predicate OnTarget(capacity: nat, max: nat, g: Goal, grows: bool) {
    && g.target <= max && g.changed <= g.todo
    && if grows then g.target == capacity + (g.todo - g.changed)
       else capacity == g.target + (g.todo - g.changed) && g.changed < g.todo
  }

  /** The conditional pop of a queue that meets its condition, with fresh loads. */
  predicate WillPop(cfg: Config, q: Queue, n: nat, op: Op) {
    if cfg.resizeable then
      || op == SizeLoadWrite(n) || op == SizeLoadRead(n, q.wr) || op == SizeReadCell(n, q.wr, q.rd)
      || (op.SizeCas? && op.min == n && op.rp == q.rd)
    else
      || op == FullLoadWrite || op == FullLoadRead(q.wr) || op == FullReadCell(q.wr, q.rd)
      || (op.FullCas? && op.rp == q.rd)
  }

  /** What the call has loaded is up to date. */
  ghost predicate Fresh<V>(cfg: Config, m: Memory<V>, th: Thread<V>, queue: seq<V>)
    requires MemoryInv(cfg, m)
  {
    var noFree := Contents(cfg.max, m.free) == [];
    match th
    case TakeFree(_, retry, _) => retry ==> m.capacity >= 1
    case LoadCapacity(_) => noFree && m.capacity >= 1
    case Evict(_, op) => noFree && m.capacity >= 1 && WillPop(cfg, m.used, m.capacity, op)
    case ReadEmpty(op) => op == EmptyLoad || op == EmptyRead(m.used.rd)
    case TakeFlag(target) => cfg.resizeable && target <= cfg.max
    case CompareCapacity(target) => cfg.resizeable && target <= cfg.max
    case Grow(g) => cfg.resizeable && OnTarget(m.capacity, cfg.max, g, true)
    case GrowPush(g, _, _) => cfg.resizeable && OnTarget(m.capacity, cfg.max, g, true)
    case GrowDrop(g, _) => cfg.resizeable && OnTarget(m.capacity, cfg.max, g, true)
    case ShrinkFree(g, _) => cfg.resizeable && OnTarget(m.capacity, cfg.max, g, false)
    case ShrinkLoad(g) => cfg.resizeable && OnTarget(m.capacity, cfg.max, g, false) && noFree
    case ShrinkUsed(g, op) =>
      && cfg.resizeable && OnTarget(m.capacity, cfg.max, g, false) && noFree
      && WillPop(cfg, m.used, m.capacity, op)
    case ShrinkSubSize(g, _) => cfg.resizeable && OnTarget(m.capacity, cfg.max, g, false) && noFree
    case ShrinkMove(g, _) => cfg.resizeable && OnTarget(m.capacity, cfg.max, g, false) && noFree
    case ShrinkStash(g, _, fromUsed) =>
      cfg.resizeable && OnTarget(m.capacity, cfg.max, g, false) && (fromUsed ==> noFree)
    case ShrinkCapacity(g, fromUsed) =>
      cfg.resizeable && OnTarget(m.capacity, cfg.max, g, false) && (fromUsed ==> noFree)
    case _ => true
  }

  /** Steps allowed for the distance between a capacity and its target. */
  function Units(capacity: nat, target: nat): nat {
    24 * if capacity >= target then capacity - target else target - capacity
  }

  /** Upper bound on the steps left. */
  function Remaining<V>(cfg: Config, m: Memory<V>, th: Thread<V>): int
    requires Shaped(cfg, m)
  {
    match th
    case TakeFree(_, _, op) => 40 + StepsLeft(cfg.max, m.free, op)
    case LoadCapacity(_) => 39
    case Evict(_, op) => 20 + StepsLeft(cfg.max, m.used, op)
    case EvictSubSize(_, _) => 19
    case EvictMove(_, _) => 18
    case WriteSlot(_, _, _) => 17
    case AddSize(_, _, _) => 16
    case PushUsed(_, _, _, op) => 1 + StepsLeft(cfg.max, m.used, op)
    case TakeUsed(op) => 13 + StepsLeft(cfg.max, m.used, op)
    case PopSubSize(_) => 12
    case PopMove(_) => 11
    case PushFree(_, _, op) => 1 + StepsLeft(cfg.max, m.free, op)
    case ReadEmpty(op) => StepsLeft(cfg.max, m.used, op)
    case ReadSize => 1
    case TakeFlag(target) => Units(m.capacity, target) + 21
    case CompareCapacity(target) => if m.capacity == target then 2 else Units(m.capacity, target) + 20
    case Grow(g) => Units(m.capacity, g.target) + 3
    case GrowPush(g, _, op) => Units(m.capacity, g.target) + 5 + StepsLeft(cfg.max, m.free, op)
    case GrowDrop(g, _) => Units(m.capacity, g.target) + 4
    case ShrinkFree(g, op) => Units(m.capacity, g.target) + 10 + StepsLeft(cfg.max, m.free, op)
    case ShrinkLoad(g) => Units(m.capacity, g.target) + 9
    case ShrinkUsed(g, op) => Units(m.capacity, g.target) + 2 + StepsLeft(cfg.max, m.used, op)
    case ShrinkSubSize(g, _) => Units(m.capacity, g.target) + 1
    case ShrinkMove(g, _) => Units(m.capacity, g.target)
    case ShrinkStash(g, _, _) => Units(m.capacity, g.target) - 1
    case ShrinkCapacity(g, _) => Units(m.capacity, g.target) - 2
    case ClearFlag(_) => 1
    case Done(_) => 0
  }

  // ---------------------------------------------------------------------------------------
  // Step by step

  ghost predicate Before<V>(cfg: Config, m: Memory<V>, th: Thread<V>, t: nat, f: Fifo<V>) {
    Facts(cfg, m, th, t, f) && Fresh(cfg, m, th, f.queue) && !th.Done?
  }

  /** The specification and the facts after a step, which hold in any case. */
  ghost predicate Allowed<V>(cfg: Config, t: nat, f: Fifo<V>, e: Effect<V>) {
    Accepts(f, t, e.event) && Facts(cfg, e.mem, e.th, t, Apply(f, t, e.event))
  }

  function DeliveredBy<V>(event: QueueEvent<V>): Option<V> {
    if event.Deliver? then event.out else None
  }

  ghost predicate Advances<V>(cfg: Config, m: Memory<V>, th: Thread<V>, t: nat, f: Fifo<V>, e: Effect<V>)
    requires Shaped(cfg, m) && MemoryInv(cfg, e.mem)
  {
    var f' := Apply(f, t, e.event);
    && Fresh(cfg, e.mem, e.th, f'.queue)
    && Remaining(cfg, e.mem, e.th) < Remaining(cfg, m, th)
    && Expected(m.capacity, f.queue, TakenBy(f, t), th)
         == WithFirst(DeliveredBy(e.event), Expected(e.mem.capacity, f'.queue, TakenBy(f', t), e.th))
  }

  /** Nothing that is free, and nothing in flight: as many values as the capacity allows. */
  lemma NoneFree(c: nat, q: Queue, op: Op)
    requires QueueInv(c, q) && OpInv(c, q, op) && Popping(op) && Step(c, q, op, false).op.NotGot?
    ensures Contents(c, q) == []
  {
    hide Step, Contents, OpInv;
    EmptyIsTruthful(c, q, op, false);
  }

  lemma TakeFreeAdvances<V>(cfg: Config, m: Memory<V>, v: V, retry: bool, op: Op, t: nat, f: Fifo<V>)
    requires Before(cfg, m, TakeFree(v, retry, op), t, f)
    requires Allowed(cfg, t, f, StepTakeFree(cfg, m, v, retry, op, false))
    ensures Advances(cfg, m, TakeFree(v, retry, op), t, f, StepTakeFree(cfg, m, v, retry, op, false))
  {
    hide Step, QueueInv, OpInv, Contents, StepsLeft, Frontier, BufferInv, ThreadRoom;
    PopOutcome(cfg.max, m.free, op, false);
    SoloProgress(cfg.max, m.free, op);
    PopLeaves(cfg.max, m.free, op, false);
    if Step(cfg.max, m.free, op, false).op.NotGot? { NoneFree(cfg.max, m.free, op); }
    hide PushOver, BoundedQueueSpec.TryPush;
  }

  /** A conditional pop whose condition holds goes through. */
  lemma WillPopPops(cfg: Config, q: Queue, n: nat, op: Op)
    requires QueueInv(cfg.max, q) && OpInv(cfg.max, q, op) && WillPop(cfg, q, n, op)
    requires q.wr == Frontier(cfg.max, q) && |Contents(cfg.max, q)| == n >= 1 && (!cfg.resizeable ==> n == cfg.max)
    ensures var r := Step(cfg.max, q, op, false); r.op.Got? || (r.queue == q && WillPop(cfg, q, n, r.op))
  {
    hide QueueInv, Frontier, Contents, LoadValueAt, IndexOf, CycleOf, OneCycleBehind;
    FrontierIsClose(cfg.max, q);
    FullMeansOneLap(cfg.max, q.rd, q.wr);
  }

  lemma WillPopKind(cfg: Config, q: Queue, n: nat, op: Op)
    requires WillPop(cfg, q, n, op)
    ensures if cfg.resizeable then PoppingIfSize(op) else PoppingIfFull(op)
  {
  }

  /** The conditional pop takes an index, or goes on with its condition still met. */
  ghost predicate PopsOn(cfg: Config, q: Queue, n: nat, op: Op)
    requires Shape(cfg.max, q)
  {
    var r := Step(cfg.max, q, op, false);
    && StepsLeft(cfg.max, r.queue, r.op) < StepsLeft(cfg.max, q, op)
    && (r.op.Got? || (r.queue == q && WillPop(cfg, q, n, r.op) && !r.op.NotGot?))
  }

  lemma ConditionMet<V>(cfg: Config, m: Memory<V>, th: Thread<V>, t: nat, f: Fifo<V>)
    requires Before(cfg, m, th, t, f) && (th.Evict? || th.ShrinkUsed?)
    ensures MemoryInv(cfg, m) && PopsOn(cfg, m.used, m.capacity, th.op)
  {
    hide Step, QueueInv, OpInv, Contents, StepsLeft, Frontier, BufferInv, WillPop;
    WillPopKind(cfg, m.used, m.capacity, th.op);
    PopOutcome(cfg.max, m.used, th.op, false);
    SoloProgress(cfg.max, m.used, th.op);
    WillPopPops(cfg, m.used, m.capacity, th.op);
    var r := Step(cfg.max, m.used, th.op, false);
    if !r.op.Got? { WillPopKind(cfg, m.used, m.capacity, r.op); }
  }

  lemma HasMemory<V>(cfg: Config, m: Memory<V>, th: Thread<V>)
    requires MayStep(cfg, m, th)
    ensures MemoryInv(cfg, m)
  {
    hide QueueInv;
  }

  lemma EvictAdvances<V>(cfg: Config, m: Memory<V>, v: V, op: Op, t: nat, f: Fifo<V>)
    requires Before(cfg, m, Evict(v, op), t, f)
    requires Allowed(cfg, t, f, StepEvict(cfg, m, v, op, false))
    ensures Advances(cfg, m, Evict(v, op), t, f, StepEvict(cfg, m, v, op, false))
  {
    hide Step, MayStep, QueueInv, Contents, StepsLeft, Frontier, WillPop;
    ConditionMet(cfg, m, Evict(v, op), t, f);
    var e := StepEvict(cfg, m, v, op, false);
    HasMemory(cfg, e.mem, e.th);
  }

  lemma TakeUsedAdvances<V>(cfg: Config, m: Memory<V>, op: Op, t: nat, f: Fifo<V>)
    requires Before(cfg, m, TakeUsed(op), t, f)
    requires Allowed(cfg, t, f, StepTakeUsed(cfg, m, op, false))
    ensures Advances(cfg, m, TakeUsed(op), t, f, StepTakeUsed(cfg, m, op, false))
  {
    hide Step, QueueInv, OpInv, Contents, StepsLeft, Frontier, BufferInv, ThreadRoom;
    PopOutcome(cfg.max, m.used, op, false);
    SoloProgress(cfg.max, m.used, op);
    PopLeaves(cfg.max, m.used, op, false);
    if Step(cfg.max, m.used, op, false).op.NotGot? { NoneFree(cfg.max, m.used, op); }
  }

  lemma PushUsedAdvances<V>(cfg: Config, m: Memory<V>, v: V, i: nat, evicted: Option<V>, op: Op, t: nat, f: Fifo<V>)
    requires Before(cfg, m, PushUsed(v, i, evicted, op), t, f)
    requires Allowed(cfg, t, f, StepPushUsed(cfg, m, v, i, evicted, op, false))
    ensures Advances(cfg, m, PushUsed(v, i, evicted, op), t, f, StepPushUsed(cfg, m, v, i, evicted, op, false))
  {
    hide Step, QueueInv, OpInv, Contents, StepsLeft, Frontier, BufferInv;
    SoloProgress(cfg.max, m.used, op);
    StepKinds(cfg.max, m.used, op, false);
  }

  lemma PushFreeAdvances<V>(cfg: Config, m: Memory<V>, i: nat, out: Option<V>, op: Op, t: nat, f: Fifo<V>)
    requires Before(cfg, m, PushFree(i, out, op), t, f)
    requires Allowed(cfg, t, f, StepPushFree(cfg, m, i, out, op, false))
    ensures Advances(cfg, m, PushFree(i, out, op), t, f, StepPushFree(cfg, m, i, out, op, false))
  {
    hide Step, QueueInv, OpInv, Contents, StepsLeft, Frontier, BufferInv;
    SoloProgress(cfg.max, m.free, op);
    StepKinds(cfg.max, m.free, op, false);
  }

  lemma GrowPushAdvances<V>(cfg: Config, m: Memory<V>, g: Goal, i: nat, op: Op, t: nat, f: Fifo<V>)
    requires Before(cfg, m, GrowPush(g, i, op), t, f)
    requires Allowed(cfg, t, f, StepGrowPush(cfg, m, g, i, op, false))
    ensures Advances(cfg, m, GrowPush(g, i, op), t, f, StepGrowPush(cfg, m, g, i, op, false))
  {
    hide Step, QueueInv, OpInv, Contents, StepsLeft, Frontier, BufferInv;
    SoloProgress(cfg.max, m.free, op);
    StepKinds(cfg.max, m.free, op, false);
  }

  lemma ShrinkFreeAdvances<V>(cfg: Config, m: Memory<V>, g: Goal, op: Op, t: nat, f: Fifo<V>)
    requires Before(cfg, m, ShrinkFree(g, op), t, f)
    requires Allowed(cfg, t, f, StepShrinkFree(cfg, m, g, op, false))
    ensures Advances(cfg, m, ShrinkFree(g, op), t, f, StepShrinkFree(cfg, m, g, op, false))
  {
    hide Step, QueueInv, OpInv, Contents, StepsLeft, Frontier, BufferInv, ThreadRoom;
    PopOutcome(cfg.max, m.free, op, false);
    SoloProgress(cfg.max, m.free, op);
    PopLeaves(cfg.max, m.free, op, false);
    if Step(cfg.max, m.free, op, false).op.NotGot? { NoneFree(cfg.max, m.free, op); }
  }

  lemma ShrinkUsedAdvances<V>(cfg: Config, m: Memory<V>, g: Goal, op: Op, t: nat, f: Fifo<V>)
    requires Before(cfg, m, ShrinkUsed(g, op), t, f)
    requires Allowed(cfg, t, f, StepShrinkUsed(cfg, m, g, op, false))
    ensures Advances(cfg, m, ShrinkUsed(g, op), t, f, StepShrinkUsed(cfg, m, g, op, false))
  {
    hide Step, MayStep, QueueInv, Contents, StepsLeft, Frontier, WillPop;
    ConditionMet(cfg, m, ShrinkUsed(g, op), t, f);
    var e := StepShrinkUsed(cfg, m, g, op, false);
    HasMemory(cfg, e.mem, e.th);
  }

  lemma LocalPushAdvances<V>(cfg: Config, m: Memory<V>, th: Thread<V>, t: nat, f: Fifo<V>)
    requires Before(cfg, m, th, t, f) && PushCall(th) && !OnQueue(th) && Ready(cfg, m, th)
    requires Allowed(cfg, t, f, StepPushCall(cfg, m, th, false))
    ensures Advances(cfg, m, th, t, f, StepPushCall(cfg, m, th, false))
  {
    hide QueueInv, OpInv, Contents, StepsLeft, Frontier, BufferInv, ThreadRoom;
  }

  lemma LocalPopAdvances<V>(cfg: Config, m: Memory<V>, th: Thread<V>, t: nat, f: Fifo<V>)
    requires Before(cfg, m, th, t, f) && PopCall(th) && !OnQueue(th) && Ready(cfg, m, th)
    requires Allowed(cfg, t, f, StepPopCall(cfg, m, th, false))
    ensures Advances(cfg, m, th, t, f, StepPopCall(cfg, m, th, false))
  {
    hide QueueInv, OpInv, Contents, StepsLeft, Frontier, BufferInv, ThreadRoom;
  }

  lemma QueryAdvances<V>(cfg: Config, m: Memory<V>, th: Thread<V>, t: nat, f: Fifo<V>)
    requires Before(cfg, m, th, t, f) && QueryCall(th) && Ready(cfg, m, th)
    requires Allowed(cfg, t, f, StepQueryCall(cfg, m, th, false))
    ensures Advances(cfg, m, th, t, f, StepQueryCall(cfg, m, th, false))
  {
    hide QueueInv, OpInv, Contents, Frontier, BufferInv, ThreadRoom, CycleOf, IndexOf, LoadValueAt;
    CellCycle(cfg.max, m.used, m.used.rd);
    FrontierIsClose(cfg.max, m.used);
  }

  lemma GrowAdvances<V>(cfg: Config, m: Memory<V>, th: Thread<V>, t: nat, f: Fifo<V>)
    requires Before(cfg, m, th, t, f) && (th.Grow? || th.GrowDrop?) && Ready(cfg, m, th)
    requires Allowed(cfg, t, f, StepResizeCall(cfg, m, th, false))
    ensures Advances(cfg, m, th, t, f, StepResizeCall(cfg, m, th, false))
  {
    hide QueueInv, OpInv, Contents, StepsLeft, Frontier, BufferInv, ThreadRoom;
  }

  lemma CompareAdvances<V>(cfg: Config, m: Memory<V>, th: Thread<V>, t: nat, f: Fifo<V>)
    requires Before(cfg, m, th, t, f) && (th.TakeFlag? || th.CompareCapacity? || th.ClearFlag?) && Ready(cfg, m, th)
    requires Allowed(cfg, t, f, StepResizeCall(cfg, m, th, false))
    ensures Advances(cfg, m, th, t, f, StepResizeCall(cfg, m, th, false))
  {
    hide QueueInv, OpInv, Contents, StepsLeft, Frontier, BufferInv, ThreadRoom;
  }

  lemma ShrinkLoadAdvances<V>(cfg: Config, m: Memory<V>, th: Thread<V>, t: nat, f: Fifo<V>)
    requires Before(cfg, m, th, t, f) && th.ShrinkLoad? && Ready(cfg, m, th)
    requires Allowed(cfg, t, f, StepResizeCall(cfg, m, th, false))
    ensures Advances(cfg, m, th, t, f, StepResizeCall(cfg, m, th, false))
  {
    hide QueueInv, OpInv, Contents, Frontier, BufferInv, ThreadRoom, IndexOf, CycleOf, LoadValueAt, Published;
  }

  lemma ShrinkReadAdvances<V>(cfg: Config, m: Memory<V>, th: Thread<V>, t: nat, f: Fifo<V>)
    requires Before(cfg, m, th, t, f) && (th.ShrinkSubSize? || th.ShrinkMove?) && Ready(cfg, m, th)
    requires Allowed(cfg, t, f, StepResizeCall(cfg, m, th, false))
    ensures Advances(cfg, m, th, t, f, StepResizeCall(cfg, m, th, false))
  {
    hide QueueInv, OpInv, Contents, StepsLeft, Frontier, BufferInv, ThreadRoom;
  }

  lemma ShrinkPutAdvances<V>(cfg: Config, m: Memory<V>, th: Thread<V>, t: nat, f: Fifo<V>)
    requires Before(cfg, m, th, t, f) && (th.ShrinkStash? || th.ShrinkCapacity?) && Ready(cfg, m, th)
    requires Allowed(cfg, t, f, StepResizeCall(cfg, m, th, false))
    ensures Advances(cfg, m, th, t, f, StepResizeCall(cfg, m, th, false))
  {
    hide QueueInv, OpInv, Contents, StepsLeft, Frontier, BufferInv, ThreadRoom;
  }

  lemma QueueCallAdvances<V>(cfg: Config, m: Memory<V>, th: Thread<V>, t: nat, f: Fifo<V>)
    requires Before(cfg, m, th, t, f) && OnQueue(th) && Ready(cfg, m, th)
    requires Allowed(cfg, t, f, ThreadStep(cfg, m, th, false))
    ensures Advances(cfg, m, th, t, f, ThreadStep(cfg, m, th, false))
  {
    hide Before, Allowed, Advances, StepTakeFree, StepEvict, StepPushUsed, StepTakeUsed, StepPushFree,
      StepGrowPush, StepShrinkFree, StepShrinkUsed;
    match th {
      case TakeFree(v, retry, op) => TakeFreeAdvances(cfg, m, v, retry, op, t, f);
      case Evict(v, op) => EvictAdvances(cfg, m, v, op, t, f);
      case PushUsed(v, i, evicted, op) => PushUsedAdvances(cfg, m, v, i, evicted, op, t, f);
      case TakeUsed(op) => TakeUsedAdvances(cfg, m, op, t, f);
      case PushFree(i, out, op) => PushFreeAdvances(cfg, m, i, out, op, t, f);
      case GrowPush(g, i, op) => GrowPushAdvances(cfg, m, g, i, op, t, f);
      case ShrinkFree(g, op) => ShrinkFreeAdvances(cfg, m, g, op, t, f);
      case ShrinkUsed(g, op) => ShrinkUsedAdvances(cfg, m, g, op, t, f);
    }
  }

  lemma LocalCallAdvances<V>(cfg: Config, m: Memory<V>, th: Thread<V>, t: nat, f: Fifo<V>)
    requires Before(cfg, m, th, t, f) && !OnQueue(th) && !th.Done? && Ready(cfg, m, th)
    requires Allowed(cfg, t, f, ThreadStep(cfg, m, th, false))
    ensures Advances(cfg, m, th, t, f, ThreadStep(cfg, m, th, false))
  {
    hide Before, Allowed, Advances, StepPushCall, StepPopCall, StepQueryCall, StepResizeCall, Ready;
    if PushCall(th) { LocalPushAdvances(cfg, m, th, t, f); }
    else if PopCall(th) { LocalPopAdvances(cfg, m, th, t, f); }
    else if QueryCall(th) { QueryAdvances(cfg, m, th, t, f); }
    else if th.Grow? || th.GrowDrop? { GrowAdvances(cfg, m, th, t, f); }
    else if th.ShrinkLoad? { ShrinkLoadAdvances(cfg, m, th, t, f); }
    else if th.ShrinkSubSize? || th.ShrinkMove? { ShrinkReadAdvances(cfg, m, th, t, f); }
    else if th.ShrinkStash? || th.ShrinkCapacity? { ShrinkPutAdvances(cfg, m, th, t, f); }
    else { CompareAdvances(cfg, m, th, t, f); }
  }

  /** A step of the only running thread keeps the system in order. */
  lemma AloneStep<V>(cfg: Config, s: System<V>, l: Ledger, f: Fifo<V>, t: nat) returns (l': Ledger)
    requires AloneInv(cfg, s, l, f, t) && !s.threads[t].Done? && Ready(cfg, s.mem, s.threads[t])
    ensures var a := Run(t, false);
      var e := ThreadStep(cfg, s.mem, s.threads[t], false);
      && Next(cfg, s, a) == System(e.mem, s.threads[t := e.th]) && EventOf(cfg, s, a) == e.event
      && Accepts(f, t, e.event)
      && AloneInv(cfg, Next(cfg, s, a), l', Apply(f, t, e.event), t)
  {
    hide SystemInv, SizeInv, CapacityInv, Simulates, LagInv, FixedInv, ThreadStep, Ready, MemoryInv, Accepts, Apply;
    l' := RunKeepsCounters(cfg, s, l, t, false);
    RunSimulates(cfg, s, l, f, t, false);
    NextKeepsLag(cfg, s, l, Run(t, false));
  }

  // ---------------------------------------------------------------------------------------
  // Whole calls

  /** The state after thread `t` has run alone for `n` steps, and the values it has delivered. */
  function Alone<V>(cfg: Config, s: System<V>, t: nat, n: nat): (System<V>, seq<V>)
    decreases n
  {
    if n == 0 then (s, [])
    else
      var (s', delivered) := Alone(cfg, Next(cfg, s, Run(t, false)), t, n - 1);
      (s', Just(DeliveredBy(EventOf(cfg, s, Run(t, false)))) + delivered)
  }

  /** The thread is done, and has left and delivered what was expected. */
  ghost predicate Ended<V>(cfg: Config, s: System<V>, t: nat, e: Ending<V>, s': System<V>, delivered: seq<V>) {
    && MemoryInv(cfg, s'.mem) && s'.threads == s.threads[t := Done(e.result)]
    && Matches(s'.mem.buf, Contents(cfg.max, s'.mem.used), e.queue)
    && s'.mem.capacity == e.capacity && delivered == e.delivered
  }

  lemma Advanced<V>(cfg: Config, m: Memory<V>, th: Thread<V>, t: nat, f: Fifo<V>, e: Effect<V>)
    requires Shaped(cfg, m) && MemoryInv(cfg, e.mem) && Advances(cfg, m, th, t, f, e) && !th.Done?
    requires Facts(cfg, e.mem, e.th, t, Apply(f, t, e.event))
    ensures Fresh(cfg, e.mem, e.th, Apply(f, t, e.event).queue)
    ensures Remaining(cfg, e.mem, e.th) < Remaining(cfg, m, th)
    ensures Expected(m.capacity, f.queue, TakenBy(f, t), th)
         == WithFirst(DeliveredBy(e.event),
                      Expected(e.mem.capacity, Apply(f, t, e.event).queue, TakenBy(Apply(f, t, e.event), t), e.th))
    ensures Remaining(cfg, m, th) >= 1
  {
  }

  /** What a step changes of what is expected: the values it delivers come first. */
  lemma StepKeepsExpected<V>(cfg: Config, s: System<V>, l: Ledger, f: Fifo<V>, t: nat) returns (l': Ledger, f': Fifo<V>)
    requires AloneInv(cfg, s, l, f, t) && Fresh(cfg, s.mem, s.threads[t], f.queue) && !s.threads[t].Done?
    ensures var a := Run(t, false);
      var s' := Next(cfg, s, a);
      && AloneInv(cfg, s', l', f', t) && Fresh(cfg, s'.mem, s'.threads[t], f'.queue)
      && s'.threads == s.threads[t := s'.threads[t]]
      && Remaining(cfg, s'.mem, s'.threads[t]) < Remaining(cfg, s.mem, s.threads[t])
      && Expected(s.mem.capacity, f.queue, TakenBy(f, t), s.threads[t])
           == WithFirst(DeliveredBy(EventOf(cfg, s, a)),
                        Expected(s'.mem.capacity, f'.queue, TakenBy(f', t), s'.threads[t]))
    ensures Remaining(cfg, s.mem, s.threads[t]) >= 1
  {
    hide CountersInv, Simulates, LagInv, FixedInv, Fresh, Remaining, Expected, Facts, Next, EventOf, Ready,
      Advances, ThreadStep, Contents, Apply, Accepts, QueueInv, WithFirst, TakenBy, DeliveredBy;
    var th := s.threads[t];
    AloneFacts(cfg, s, l, f, t);
    l' := AloneStep(cfg, s, l, f, t);
    var e := ThreadStep(cfg, s.mem, th, false);
    f' := Apply(f, t, e.event);
    AloneFacts(cfg, Next(cfg, s, Run(t, false)), l', f', t);
    if OnQueue(th) { QueueCallAdvances(cfg, s.mem, th, t, f); } else { LocalCallAdvances(cfg, s.mem, th, t, f); }
    Advanced(cfg, s.mem, th, t, f, e);
  }

  lemma {:induction false} Ends<V>(cfg: Config, s: System<V>, l: Ledger, f: Fifo<V>, t: nat, n: nat)
    requires AloneInv(cfg, s, l, f, t) && Fresh(cfg, s.mem, s.threads[t], f.queue)
    requires n >= Remaining(cfg, s.mem, s.threads[t])
    ensures var (s', delivered) := Alone(cfg, s, t, n);
      Ended(cfg, s, t, Expected(s.mem.capacity, f.queue, TakenBy(f, t), s.threads[t]), s', delivered)
    decreases n
  {
    hide AloneInv, Fresh, Remaining, Next, EventOf, Expected, TakenBy, DeliveredBy, Contents, MemoryInv, Matches;
    if s.threads[t].Done? {
      EndedWhenDone(cfg, s, l, f, t);
      StaysDone(cfg, s, t, n);
    } else {
      var l', f' := StepKeepsExpected(cfg, s, l, f, t);
      Ends(cfg, Next(cfg, s, Run(t, false)), l', f', t, n - 1);
    }
  }

  lemma EndedWhenDone<V>(cfg: Config, s: System<V>, l: Ledger, f: Fifo<V>, t: nat)
    requires AloneInv(cfg, s, l, f, t) && s.threads[t].Done?
    ensures Ended(cfg, s, t, Expected(s.mem.capacity, f.queue, TakenBy(f, t), s.threads[t]), s, [])
  {
    hide CountersInv, LagInv, FixedInv, Contents, QueueInv;
    assert s.threads == s.threads[t := s.threads[t]];
  }

  lemma {:induction false} StaysDone<V>(cfg: Config, s: System<V>, t: nat, n: nat)
    requires t in s.threads && s.threads[t].Done?
    ensures Alone(cfg, s, t, n) == (s, [])
    decreases n
  {
    if n > 0 {
      StaysDone(cfg, s, t, n - 1);
      assert Just<V>(None) + [] == [];
      assert EventOf(cfg, s, Run(t, false)) == Tau;
    }
  }

  // ---------------------------------------------------------------------------------------
  // From every reachable state between calls

  /** The values in the queue, oldest first. */
  ghost predicate Stores<V>(cfg: Config, m: Memory<V>, queue: seq<V>) {
    MemoryInv(cfg, m) && Matches(m.buf, Contents(cfg.max, m.used), queue)
  }

  /** Thread `t` of a reachable state, in which all threads are between calls, may start one. */
  ghost predicate BetweenCalls<V(!new)>(cfg: Config, s: System<V>, t: nat, queue: seq<V>) {
    && cfg.max >= 1 && Reachable(cfg, s) && t in s.threads && (forall u :: u in s.threads ==> s.threads[u].Done?)
    && Stores(cfg, s.mem, queue)
  }

  lemma StoresOnce<V>(cfg: Config, m: Memory<V>, a: seq<V>, b: seq<V>)
    requires Stores(cfg, m, a) && Stores(cfg, m, b)
    ensures a == b
  {
    hide Contents;
    forall k | 0 <= k < |a| ensures a[k] == b[k] {
      assert m.buf[Contents(cfg.max, m.used)[k]] == Some(a[k]);
    }
  }

  lemma ReachableAlone<V(!new)>(cfg: Config, s: System<V>, t: nat, queue: seq<V>) returns (l: Ledger, f: Fifo<V>)
    requires BetweenCalls(cfg, s, t, queue)
    ensures AloneInv(cfg, s, l, f, t) && f.queue == queue && t !in f.taken
  {
    hide Contents, Initial, Exec, SystemInv, SizeInv, CapacityInv, QueueInv, LagInv, FixedInv, Matches;
    var threads, actions :| s == Exec(cfg, Initial<V>(cfg, threads), actions);
    InitialLag<V>(cfg, threads);
    var l0 := InitialCounters<V>(cfg, threads);
    l := ExecKeepsLag(cfg, Initial<V>(cfg, threads), l0, actions);
    f := ReachableFifo(cfg, threads, actions, l0);
    assert CarriesMatch(s.mem.buf, s.threads[t], t, f.taken);
    StoresOnce(cfg, s.mem, f.queue, queue);
  }

  lemma ReachableFifo<V>(cfg: Config, threads: set<nat>, actions: seq<Action<V>>, l: Ledger) returns (f: Fifo<V>)
    requires cfg.max >= 1 && SystemInv(cfg, Initial<V>(cfg, threads), l)
    ensures MemoryInv(cfg, Exec(cfg, Initial<V>(cfg, threads), actions).mem)
    ensures Simulates(cfg, Exec(cfg, Initial<V>(cfg, threads), actions), f)
  {
    hide SystemInv, Exec, QueueInv, Contents, Trace, After;
    EmptyQueue(cfg.max);
    FullQueue(cfg.max);
    var start: Fifo<V> := Fifo([], map[]);
    ExecSimulates(cfg, Initial<V>(cfg, threads), l, start, actions);
    f := After(start, Trace(cfg, Initial<V>(cfg, threads), actions));
  }

  lemma StartAlone<V>(cfg: Config, s: System<V>, l: Ledger, f: Fifo<V>, t: nat, call: Call<V>)
    requires AloneInv(cfg, s, l, f, t) && s.threads[t].Done?
    ensures Next(cfg, s, Start(t, call)) == s.(threads := s.threads[t := StartCall(cfg, call)])
    ensures AloneInv(cfg, Next(cfg, s, Start(t, call)), l, f, t)
  {
    hide SystemInv, SizeInv, CapacityInv, LagInv, FixedInv, StartCall, MemoryInv;
    StartKeepsCounters(cfg, s, l, t, call);
    NextSimulates(cfg, s, l, f, Start(t, call));
    NextKeepsLag(cfg, s, l, Start(t, call));
  }

  /** How many steps a call needs at most. */
  function Bound<V>(cfg: Config, call: Call<V>): nat {
    if call.SetCapacity? then 24 * cfg.max + 21 else 49
  }

  lemma CallStarts<V>(cfg: Config, m: Memory<V>, call: Call<V>, queue: seq<V>)
    requires MemoryInv(cfg, m) && m.capacity <= cfg.max && (call.Push? ==> m.capacity >= 1)
    ensures Fresh(cfg, m, StartCall(cfg, call), queue) && Remaining(cfg, m, StartCall(cfg, call)) <= Bound(cfg, call)
  {
    hide QueueInv, Contents;
  }

  /** A call that runs alone ends as expected. */
  lemma CallAlone<V(!new)>(cfg: Config, s: System<V>, t: nat, call: Call<V>, queue: seq<V>)
    requires BetweenCalls(cfg, s, t, queue) && (call.Push? ==> s.mem.capacity >= 1)
    ensures var (s', delivered) := Alone(cfg, Next(cfg, s, Start(t, call)), t, Bound(cfg, call));
      Ended(cfg, s, t, Expected(s.mem.capacity, queue, None, StartCall(cfg, call)), s', delivered)
    ensures |queue| <= s.mem.capacity <= cfg.max
  {
    hide CountersInv, LagInv, FixedInv, Simulates, Stores, Contents, Alone, Expected, Next, StartCall, Fresh, Remaining,
      Reachable;
    var l, f := ReachableAlone(cfg, s, t, queue);
    AloneFacts(cfg, s, l, f, t);
    FactsBound(cfg, s.mem, s.threads[t], t, f);
    CallStarts(cfg, s.mem, call, queue);
    StartAlone(cfg, s, l, f, t, call);
    var s1 := Next(cfg, s, Start(t, call));
    hide AloneInv, Ended;
    Ends(cfg, s1, l, f, t, Bound(cfg, call));
    StartedEnds(cfg, s, t, call, Expected(s.mem.capacity, queue, None, StartCall(cfg, call)),
                Alone(cfg, s1, t, Bound(cfg, call)).0, Alone(cfg, s1, t, Bound(cfg, call)).1);
  }

  lemma FactsBound<V>(cfg: Config, m: Memory<V>, th: Thread<V>, t: nat, f: Fifo<V>)
    requires Facts(cfg, m, th, t, f) && th.Done?
    ensures |f.queue| <= m.capacity <= cfg.max
  {
    hide MayStep, Contents;
  }

  lemma StartedEnds<V>(cfg: Config, s: System<V>, t: nat, call: Call<V>, e: Ending<V>, s': System<V>, delivered: seq<V>)
    requires t in s.threads && Ended(cfg, s.(threads := s.threads[t := StartCall(cfg, call)]), t, e, s', delivered)
    ensures Ended(cfg, s, t, e, s', delivered)
  {
    hide StartCall, Contents;
    assert s.threads[t := StartCall(cfg, call)][t := Done(e.result)] == s.threads[t := Done(e.result)];
  }

  // ---------------------------------------------------------------------------------------
  // Call by call

  /** tryPush stores its value and returns true exactly if the queue is not at its capacity. */
  lemma TryPushAlone<V(!new)>(cfg: Config, s: System<V>, t: nat, v: V, queue: seq<V>)
    requires BetweenCalls(cfg, s, t, queue)
    ensures var (s', delivered) := Alone(cfg, Next(cfg, s, Start(t, TryPush(v))), t, 49);
      && delivered == [] && s'.mem.capacity == s.mem.capacity
      && s'.threads == s.threads[t := Done(if |queue| < s.mem.capacity then Stored(None) else Refused)]
      && Stores(cfg, s'.mem, if |queue| < s.mem.capacity then queue + [v] else queue)
  {
    hide Reachable, Alone, Next, Contents, Matches, MemoryInv;
    CallAlone(cfg, s, t, TryPush(v), queue);
  }

  /** push stores its value, and returns the oldest one exactly if the queue is at its capacity. */
  lemma PushAlone<V(!new)>(cfg: Config, s: System<V>, t: nat, v: V, queue: seq<V>) returns (queue': seq<V>)
    requires BetweenCalls(cfg, s, t, queue) && s.mem.capacity >= 1
    ensures var (s', delivered) := Alone(cfg, Next(cfg, s, Start(t, Push(v))), t, 49);
      && queue + [v] == delivered + queue' && s'.mem.capacity == s.mem.capacity
      && |delivered| == (if |queue| < s.mem.capacity then 0 else 1)
      && s'.threads == s.threads[t := Done(Stored(if delivered == [] then None else Some(delivered[0])))]
      && Stores(cfg, s'.mem, queue')
  {
    hide Reachable, Alone, Next, Contents, Matches, MemoryInv;
    CallAlone(cfg, s, t, Push(v), queue);
    queue' := PushOver(s.mem.capacity, queue, v).0;
  }

  /** pop returns the oldest value exactly if there is one. */
  lemma PopAlone<V(!new)>(cfg: Config, s: System<V>, t: nat, queue: seq<V>) returns (queue': seq<V>)
    requires BetweenCalls(cfg, s, t, queue)
    ensures var (s', delivered) := Alone(cfg, Next(cfg, s, Start(t, Call.Pop)), t, 49);
      && queue == delivered + queue' && s'.mem.capacity == s.mem.capacity
      && |delivered| == (if queue == [] then 0 else 1)
      && s'.threads == s.threads[t := Done(Popped(if queue == [] then None else Some(queue[0])))]
      && Stores(cfg, s'.mem, queue')
  {
    hide Reachable, Alone, Next, Contents, Matches, MemoryInv;
    CallAlone(cfg, s, t, Call.Pop, queue);
    queue' := PopFront(queue).0;
  }

  /** empty and size answer for the values stored, and change nothing. */
  lemma QueriesAlone<V(!new)>(cfg: Config, s: System<V>, t: nat, queue: seq<V>)
    requires BetweenCalls(cfg, s, t, queue)
    ensures var (s', delivered) := Alone(cfg, Next(cfg, s, Start(t, AskEmpty)), t, 49);
      && delivered == [] && s'.threads == s.threads[t := Done(WasEmpty(queue == []))] && Stores(cfg, s'.mem, queue)
    ensures var (s', delivered) := Alone(cfg, Next(cfg, s, Start(t, AskSize)), t, 49);
      && delivered == [] && s'.threads == s.threads[t := Done(HadSize(|queue|))] && Stores(cfg, s'.mem, queue)
  {
    hide Reachable, Alone, Next, Contents, Matches, MemoryInv;
    CallAlone(cfg, s, t, AskEmpty, queue);
    CallAlone(cfg, s, t, AskSize, queue);
  }

  /** setCapacity(n) returns true exactly if the queue is resizeable and n is at most MaxCapacity.
      Then n is the capacity, the newest min(n, size) values stay, and the others go to the remove
      handler, the oldest first. Otherwise nothing changes. */
  lemma SetCapacityAlone<V(!new)>(cfg: Config, s: System<V>, t: nat, n: nat, queue: seq<V>) returns (queue': seq<V>)
    requires BetweenCalls(cfg, s, t, queue)
    ensures var (s', delivered) := Alone(cfg, Next(cfg, s, Start(t, SetCapacity(n))), t, 24 * cfg.max + 21);
      var ok := cfg.resizeable && n <= cfg.max;
      && s'.threads == s.threads[t := Done(CapacitySet(ok))]
      && s'.mem.capacity == (if ok then n else s.mem.capacity)
      && queue == delivered + queue' && Stores(cfg, s'.mem, queue')
      && |queue'| == (if ok && n < |queue| then n else |queue|)
  {
    hide Reachable, Alone, Next, Contents, Matches, MemoryInv;
    CallAlone(cfg, s, t, SetCapacity(n), queue);
    queue' := Expected(s.mem.capacity, queue, None, StartCall<V>(cfg, SetCapacity(n))).queue;
  }

  // ---------------------------------------------------------------------------------------
  // When push returns

  ghost predicate Returned<V>(cfg: Config, s: System<V>, t: nat, v: V, n: nat) {
    var s' := Alone(cfg, Next(cfg, s, Start(t, Push(v))), t, n).0; t in s'.threads && s'.threads[t].Done?
  }

  lemma {:induction false} SpinsOn<V>(cfg: Config, s: System<V>, t: nat, n: nat)
    requires t in s.threads && Spinning(cfg, s.mem, s.threads[t])
    ensures var s' := Alone(cfg, s, t, n).0; t in s'.threads && Spinning(cfg, s'.mem, s'.threads[t])
    decreases n
  {
    hide Spinning, ThreadStep, Ready, EventOf;
    if n > 0 {
      SpinStep(cfg, s.mem, s.threads[t], false);
      SpinningIsNotDone(cfg, s.mem, s.threads[t]);
      SpinsOn(cfg, Next(cfg, s, Run(t, false)), t, n - 1);
    }
  }

  lemma SpinningIsNotDone<V>(cfg: Config, m: Memory<V>, th: Thread<V>)
    requires Spinning(cfg, m, th)
    ensures !th.Done?
  {
  }

  lemma StartSpinning<V(!new)>(cfg: Config, s: System<V>, t: nat, v: V, queue: seq<V>)
    requires BetweenCalls(cfg, s, t, queue) && s.mem.capacity == 0
    ensures var s1 := Next(cfg, s, Start(t, Push(v))); t in s1.threads && Spinning(cfg, s1.mem, s1.threads[t])
  {
    hide Reachable, AloneInv, Stores, QueueInv, Contents, MayStep;
    var l, f := ReachableAlone(cfg, s, t, queue);
    AloneFacts(cfg, s, l, f, t);
    CallsStart(cfg.max, s.mem.free, 0, 0);
  }

  /** From every reachable state between calls, push that runs alone returns if and only if the
      capacity is at least one. */
  lemma PushReturnsExactlyWithCapacity<V(!new)>(cfg: Config, s: System<V>, t: nat, v: V, queue: seq<V>)
    requires BetweenCalls(cfg, s, t, queue)
    ensures s.mem.capacity >= 1 <==> exists n :: Returned(cfg, s, t, v, n)
  {
    hide Reachable, Alone, Next, Stores, Spinning;
    if s.mem.capacity >= 1 {
      var _ := PushAlone(cfg, s, t, v, queue);
      assert Returned(cfg, s, t, v, 49);
    } else {
      StartSpinning(cfg, s, t, v, queue);
      forall n ensures !Returned(cfg, s, t, v, n) {
        var s1 := Next(cfg, s, Start(t, Push(v)));
        SpinsOn(cfg, s1, t, n);
        SpinningIsNotDone(cfg, Alone(cfg, s1, t, n).0.mem, Alone(cfg, s1, t, n).0.threads[t]);
      }
    }
  }

  /** Running alone is one of the interleavings. */
  lemma {:induction false} AloneIsRun<V>(cfg: Config, s: System<V>, t: nat, n: nat)
    ensures Alone(cfg, s, t, n).0 == Exec(cfg, s, seq(n, _ => Run(t, false)))
    decreases n
  {
    hide Next, EventOf;
    if n > 0 {
      AloneIsRun(cfg, Next(cfg, s, Run(t, false)), t, n - 1);
      FirstRun(cfg, s, t, n - 1);
    }
  }

  lemma {:induction false} FirstRun<V>(cfg: Config, s: System<V>, t: nat, n: nat)
    ensures Exec(cfg, Next(cfg, s, Run(t, false)), seq(n, _ => Run(t, false)))
         == Exec(cfg, s, seq(n + 1, _ => Run(t, false)))
    decreases n
  {
    hide Next;
    var runs: seq<Action<V>> := seq(n + 1, _ => Run(t, false));
    assert runs[..n] == seq(n, _ => Run(t, false));
    if n > 0 {
      FirstRun(cfg, s, t, n - 1);
      assert runs[..n][..n - 1] == seq(n - 1, _ => Run(t, false));
    }
  }
}
