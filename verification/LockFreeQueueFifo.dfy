/**
 The lock-free queues refine a FIFO queue of values.

 The specification is a sequence of values from which a thread may take the oldest one and
 deliver it later. A push takes effect at the compare-exchange that publishes its index on
 m_usedIndices, a pop or an eviction at the one that advances its read position.
*/
module LockFreeQueueFifo {
  import opened Options
  import opened Indices
  import opened IndexQueueProtocol
  import opened LockFreeQueueProtocol
  import opened LockFreeQueueOwnership
  import opened LockFreeQueueSystem

  // ---------------------------------------------------------------------------------------
  // The specification

  /** The values in the queue, oldest first, and the value each thread has taken out of it but
      not yet handed to its caller. */
  datatype Fifo<V> = Fifo(queue: seq<V>, taken: map<nat, V>)

  ghost predicate Accepts<V>(f: Fifo<V>, t: nat, event: QueueEvent<V>) {
    match event
    case Tau => true
    case Enqueue(_) => true
    case Dequeue => f.queue != [] && t !in f.taken
    case Deliver(out) => t in f.taken && out == Some(f.taken[t])
  }

  function Apply<V>(f: Fifo<V>, t: nat, event: QueueEvent<V>): Fifo<V> {
    match event
    case Tau => f
    case Enqueue(v) => f.(queue := f.queue + [v])
    case Dequeue => if f.queue == [] then f else Fifo(f.queue[1..], f.taken[t := f.queue[0]])
    case Deliver(_) => f.(taken := f.taken - {t})
  }

  // ---------------------------------------------------------------------------------------
  // The simulation relation

  /** The index whose value a thread has taken and not yet read. */
  function Carries<V>(th: Thread<V>): Option<nat> {
    match th
    case EvictSubSize(_, i) => Some(i)
    case EvictMove(_, i) => Some(i)
    case PopSubSize(i) => Some(i)
    case PopMove(i) => Some(i)
    case ShrinkSubSize(_, i) => Some(i)
    case ShrinkMove(_, i) => Some(i)
    case _ => None
  }

  ghost predicate Matches<V>(buf: seq<Option<V>>, used: seq<nat>, queue: seq<V>) {
    && |used| == |queue|
    && forall k :: 0 <= k < |used| ==> used[k] < |buf| && buf[used[k]] == Some(queue[k])
  }

  ghost predicate CarriesMatch<V>(buf: seq<Option<V>>, th: Thread<V>, t: nat, taken: map<nat, V>) {
    && (Carries(th).Some? <==> t in taken)
    && (Carries(th).Some? ==> Carries(th).value < |buf| && buf[Carries(th).value] == Some(taken[t]))
  }

  ghost predicate Simulates<V>(cfg: Config, s: System<V>, f: Fifo<V>)
    requires MemoryInv(cfg, s.mem)
  {
    && Matches(s.mem.buf, Contents(cfg.max, s.mem.used), f.queue)
    && (forall t :: t in s.threads ==> CarriesMatch(s.mem.buf, s.threads[t], t, f.taken))
    && f.taken.Keys <= s.threads.Keys
  }

  /** What an event says about the shared memory and the stepping thread. */
  ghost predicate Means<V>(th: Thread<V>, e: Effect<V>, buf: seq<Option<V>>, used: seq<nat>, used': seq<nat>) {
    match e.event
    case Tau => used' == used && Carries(e.th) == Carries(th) && (Carries(th).Some? ==> e.mem.buf == buf)
    case Enqueue(v) =>
      && th.PushUsed? && v == th.v && used' == used + [th.i]
      && Carries(th).None? && Carries(e.th).None?
      && th.i < |buf| && buf[th.i] == Some(v) && e.mem.buf == buf
    case Dequeue =>
      && Carries(th).None? && Carries(e.th).Some? && used == [Carries(e.th).value] + used' && e.mem.buf == buf
    case Deliver(out) =>
      && used' == used && Carries(e.th).None?
      && Carries(th).Some? && Carries(th).value < |buf| && out == buf[Carries(th).value]
  }

  lemma TakeFreeEventMeaning<V>(cfg: Config, m: Memory<V>, v: V, retry: bool, op: Op, spurious: bool)
    requires MayStep(cfg, m, TakeFree(v, retry, op))
    ensures var e := StepTakeFree(cfg, m, v, retry, op, spurious);
            && MemoryInv(cfg, e.mem)
            && Means(TakeFree(v, retry, op), e, m.buf, Contents(cfg.max, m.used), Contents(cfg.max, e.mem.used))
  {
    hide Step, QueueInv, Contents, OpInv, BufferInv;
    PopOutcome(cfg.max, m.free, op, spurious);
  }

  lemma EvictEventMeaning<V>(cfg: Config, m: Memory<V>, v: V, op: Op, spurious: bool)
    requires MayStep(cfg, m, Evict(v, op))
    ensures var e := StepEvict(cfg, m, v, op, spurious);
            && MemoryInv(cfg, e.mem)
            && Means(Evict(v, op), e, m.buf, Contents(cfg.max, m.used), Contents(cfg.max, e.mem.used))
  {
    hide Step, QueueInv, Contents, OpInv, BufferInv;
    PopOutcome(cfg.max, m.used, op, spurious);
  }

  lemma PushUsedEventMeaning<V>(cfg: Config, m: Memory<V>, v: V, i: nat, evicted: Option<V>, op: Op, spurious: bool)
    requires MayStep(cfg, m, PushUsed(v, i, evicted, op))
    ensures var e := StepPushUsed(cfg, m, v, i, evicted, op, spurious);
            && MemoryInv(cfg, e.mem)
            && Means(PushUsed(v, i, evicted, op), e, m.buf, Contents(cfg.max, m.used), Contents(cfg.max, e.mem.used))
  {
    hide Step, QueueInv, Contents, OpInv, BufferInv;
    PushOutcome(cfg.max, m.used, op, spurious);
  }

  lemma PushLocalEventMeaning<V>(cfg: Config, m: Memory<V>, th: Thread<V>, spurious: bool)
    requires MayStep(cfg, m, th) && PushCall(th) && !OnQueue(th)
    ensures var e := StepPushCall(cfg, m, th, spurious);
            && MemoryInv(cfg, e.mem)
            && Means(th, e, m.buf, Contents(cfg.max, m.used), Contents(cfg.max, e.mem.used))
  {
    hide QueueInv, Contents, OpInv, BufferInv;
  }

  lemma PushEventMeaning<V>(cfg: Config, m: Memory<V>, th: Thread<V>, spurious: bool)
    requires MayStep(cfg, m, th) && PushCall(th)
    ensures var e := StepPushCall(cfg, m, th, spurious);
            && MemoryInv(cfg, e.mem)
            && Means(th, e, m.buf, Contents(cfg.max, m.used), Contents(cfg.max, e.mem.used))
  {
    hide MayStep, Means, StepTakeFree, StepEvict, StepPushUsed;
    match th {
      case TakeFree(v, retry, op) => TakeFreeEventMeaning(cfg, m, v, retry, op, spurious);
      case Evict(v, op) => EvictEventMeaning(cfg, m, v, op, spurious);
      case PushUsed(v, i, evicted, op) => PushUsedEventMeaning(cfg, m, v, i, evicted, op, spurious);
      case _ => PushLocalEventMeaning(cfg, m, th, spurious);
    }
  }

  lemma TakeUsedEventMeaning<V>(cfg: Config, m: Memory<V>, op: Op, spurious: bool)
    requires MayStep(cfg, m, TakeUsed(op))
    ensures var e := StepTakeUsed(cfg, m, op, spurious);
            && MemoryInv(cfg, e.mem)
            && Means(TakeUsed(op), e, m.buf, Contents(cfg.max, m.used), Contents(cfg.max, e.mem.used))
  {
    hide Step, QueueInv, Contents, OpInv, BufferInv;
    PopOutcome(cfg.max, m.used, op, spurious);
  }

  lemma PushFreeEventMeaning<V>(cfg: Config, m: Memory<V>, i: nat, out: Option<V>, op: Op, spurious: bool)
    requires MayStep(cfg, m, PushFree(i, out, op))
    ensures var e := StepPushFree(cfg, m, i, out, op, spurious);
            && MemoryInv(cfg, e.mem)
            && Means(PushFree(i, out, op), e, m.buf, Contents(cfg.max, m.used), Contents(cfg.max, e.mem.used))
  {
    hide Step, QueueInv, Contents, OpInv, BufferInv;
    PushOutcome(cfg.max, m.free, op, spurious);
  }

  lemma PopLocalEventMeaning<V>(cfg: Config, m: Memory<V>, th: Thread<V>, spurious: bool)
    requires MayStep(cfg, m, th) && PopCall(th) && !OnQueue(th)
    ensures var e := StepPopCall(cfg, m, th, spurious);
            && MemoryInv(cfg, e.mem)
            && Means(th, e, m.buf, Contents(cfg.max, m.used), Contents(cfg.max, e.mem.used))
  {
    hide QueueInv, Contents, OpInv, BufferInv;
  }

  lemma PopEventMeaning<V>(cfg: Config, m: Memory<V>, th: Thread<V>, spurious: bool)
    requires MayStep(cfg, m, th) && PopCall(th)
    ensures var e := StepPopCall(cfg, m, th, spurious);
            && MemoryInv(cfg, e.mem)
            && Means(th, e, m.buf, Contents(cfg.max, m.used), Contents(cfg.max, e.mem.used))
  {
    hide MayStep, Means, StepTakeUsed, StepPushFree;
    match th {
      case TakeUsed(op) => TakeUsedEventMeaning(cfg, m, op, spurious);
      case PushFree(i, out, op) => PushFreeEventMeaning(cfg, m, i, out, op, spurious);
      case _ => PopLocalEventMeaning(cfg, m, th, spurious);
    }
  }

  lemma QueryEventMeaning<V>(cfg: Config, m: Memory<V>, th: Thread<V>, spurious: bool)
    requires MayStep(cfg, m, th) && QueryCall(th)
    ensures var e := StepQueryCall(cfg, m, th, spurious);
            && MemoryInv(cfg, e.mem)
            && Means(th, e, m.buf, Contents(cfg.max, m.used), Contents(cfg.max, e.mem.used))
  {
    hide Step, QueueInv, Contents, OpInv, BufferInv;
  }

  lemma GrowPushEventMeaning<V>(cfg: Config, m: Memory<V>, g: Goal, i: nat, op: Op, spurious: bool)
    requires MayStep(cfg, m, GrowPush(g, i, op))
    ensures var e := StepGrowPush(cfg, m, g, i, op, spurious);
            && MemoryInv(cfg, e.mem)
            && Means(GrowPush(g, i, op), e, m.buf, Contents(cfg.max, m.used), Contents(cfg.max, e.mem.used))
  {
    hide Step, QueueInv, Contents, OpInv, BufferInv;
    PushOutcome(cfg.max, m.free, op, spurious);
  }

  lemma ShrinkFreeEventMeaning<V>(cfg: Config, m: Memory<V>, g: Goal, op: Op, spurious: bool)
    requires MayStep(cfg, m, ShrinkFree(g, op))
    ensures var e := StepShrinkFree(cfg, m, g, op, spurious);
            && MemoryInv(cfg, e.mem)
            && Means(ShrinkFree(g, op), e, m.buf, Contents(cfg.max, m.used), Contents(cfg.max, e.mem.used))
  {
    hide Step, QueueInv, Contents, OpInv, BufferInv;
    PopOutcome(cfg.max, m.free, op, spurious);
  }

  lemma ShrinkUsedEventMeaning<V>(cfg: Config, m: Memory<V>, g: Goal, op: Op, spurious: bool)
    requires MayStep(cfg, m, ShrinkUsed(g, op))
    ensures var e := StepShrinkUsed(cfg, m, g, op, spurious);
            && MemoryInv(cfg, e.mem)
            && Means(ShrinkUsed(g, op), e, m.buf, Contents(cfg.max, m.used), Contents(cfg.max, e.mem.used))
  {
    hide Step, QueueInv, Contents, OpInv, BufferInv;
    PopOutcome(cfg.max, m.used, op, spurious);
  }

  lemma ResizeQueueEventMeaning<V>(cfg: Config, m: Memory<V>, th: Thread<V>, spurious: bool)
    requires MayStep(cfg, m, th) && (th.GrowPush? || th.ShrinkFree? || th.ShrinkUsed?)
    ensures var e := StepResizeCall(cfg, m, th, spurious);
            && MemoryInv(cfg, e.mem)
            && Means(th, e, m.buf, Contents(cfg.max, m.used), Contents(cfg.max, e.mem.used))
  {
    hide StepGrowPush, StepShrinkFree, StepShrinkUsed, QueueInv, Contents, OpInv, BufferInv, ThreadRoom, Means;
    match th {
      case GrowPush(g, i, op) => GrowPushEventMeaning(cfg, m, g, i, op, spurious);
      case ShrinkFree(g, op) => ShrinkFreeEventMeaning(cfg, m, g, op, spurious);
      case ShrinkUsed(g, op) => ShrinkUsedEventMeaning(cfg, m, g, op, spurious);
    }
  }

  lemma ResizeLocalEventMeaning<V>(cfg: Config, m: Memory<V>, th: Thread<V>, spurious: bool)
    requires MayStep(cfg, m, th) && ResizeCall(th) && !OnQueue(th)
    ensures var e := StepResizeCall(cfg, m, th, spurious);
            && MemoryInv(cfg, e.mem)
            && Means(th, e, m.buf, Contents(cfg.max, m.used), Contents(cfg.max, e.mem.used))
  {
    hide QueueInv, Contents, OpInv, BufferInv;
  }

  lemma EventMeaning<V>(cfg: Config, m: Memory<V>, th: Thread<V>, spurious: bool)
    requires MayStep(cfg, m, th)
    ensures var e := ThreadStep(cfg, m, th, spurious);
            && MemoryInv(cfg, e.mem)
            && Means(th, e, m.buf, Contents(cfg.max, m.used), Contents(cfg.max, e.mem.used))
  {
    hide StepPushCall, StepPopCall, StepQueryCall, StepResizeCall, QueueInv, Contents, OpInv, BufferInv, ThreadRoom;
    if QueryCall(th) { QueryEventMeaning(cfg, m, th, spurious); }
    else if PushCall(th) { PushEventMeaning(cfg, m, th, spurious); }
    else if PopCall(th) { PopEventMeaning(cfg, m, th, spurious); }
    else if th.GrowPush? || th.ShrinkFree? || th.ShrinkUsed? { ResizeQueueEventMeaning(cfg, m, th, spurious); }
    else if ResizeCall(th) { ResizeLocalEventMeaning(cfg, m, th, spurious); }
  }

  // ---------------------------------------------------------------------------------------
  // Refinement

  /** A buffer slot that belongs to the used queue or to another thread is not the one the
      stepping thread may change. */
  lemma NotMine<V>(cfg: Config, s: System<V>, l: Ledger, t: nat, j: nat)
    requires SystemInv(cfg, s, l) && t in s.threads
    requires j in Contents(cfg.max, s.mem.used)
      || exists u :: u in s.threads && u != t && Held(s.threads[u]) == Some(j)
    ensures j < cfg.max && Held(s.threads[t]) != Some(j)
  {
    hide QueueInv, Contents, OpInv, ThreadInv, KeptBy, FlagInv, Filled, Held;
  }

  lemma MatchesStep<V>(buf: seq<Option<V>>, used: seq<nat>, used': seq<nat>, f: Fifo<V>,
                       t: nat, th: Thread<V>, e: Effect<V>)
    requires Matches(buf, used, f.queue) && Means(th, e, buf, used, used')
    requires |e.mem.buf| == |buf|
    requires forall k :: 0 <= k < |used| ==> e.mem.buf[used[k]] == buf[used[k]]
    ensures Matches(e.mem.buf, used', Apply(f, t, e.event).queue)
    ensures e.event.Dequeue? ==> f.queue != [] && buf[Carries(e.th).value] == Some(f.queue[0])
  {
    hide Carries;
    if e.event.Dequeue? {
      assert used[0] == Carries(e.th).value;
      assert used' == used[1..];
    }
  }

  lemma TakenStep<V>(buf: seq<Option<V>>, used: seq<nat>, used': seq<nat>, f: Fifo<V>,
                     t: nat, th: Thread<V>, e: Effect<V>)
    requires Means(th, e, buf, used, used') && |e.mem.buf| == |buf|
    requires Carries(e.th).Some? ==> Carries(e.th).value < |buf|
    requires CarriesMatch(buf, th, t, f.taken)
    requires e.event.Dequeue? ==> f.queue != [] && buf[Carries(e.th).value] == Some(f.queue[0])
    ensures Accepts(f, t, e.event)
    ensures CarriesMatch(e.mem.buf, e.th, t, Apply(f, t, e.event).taken)
  {
    hide Carries;
  }

  /** One step of any thread of a system in order is a step of the specification. */
  lemma RunSimulates<V>(cfg: Config, s: System<V>, l: Ledger, f: Fifo<V>, t: nat, spurious: bool)
    requires SystemInv(cfg, s, l) && Simulates(cfg, s, f) && t in s.threads
    requires Ready(cfg, s.mem, s.threads[t])
    ensures var e := ThreadStep(cfg, s.mem, s.threads[t], spurious);
            && MemoryInv(cfg, e.mem)
            && Accepts(f, t, e.event)
            && Simulates(cfg, System(e.mem, s.threads[t := e.th]), Apply(f, t, e.event))
  {
    hide ThreadStep, QueueInv, Contents, OpInv, ThreadInv, Ready, KeptBy, FlagInv, MayStep, Means, Matches;
    hide Partitioned, Assigned, Filled, Carries, Held;
    ThreadMayStep(cfg, s, l, t);
    var th := s.threads[t];
    EventMeaning(cfg, s.mem, th, spurious);
    StepOnBuffer(cfg, s.mem, th, spurious);
    var e := ThreadStep(cfg, s.mem, th, spurious);
    var f' := Apply(f, t, e.event);
    var used, used' := Contents(cfg.max, s.mem.used), Contents(cfg.max, e.mem.used);
    forall k | 0 <= k < |used| ensures used[k] < cfg.max && e.mem.buf[used[k]] == s.mem.buf[used[k]] {
      NotMine(cfg, s, l, t, used[k]);
    }
    MatchesStep(s.mem.buf, used, used', f, t, th, e);
    CarriedInRange(cfg, s, l, t, spurious);
    TakenStep(s.mem.buf, used, used', f, t, th, e);
    forall u | u in s.threads && u != t
      ensures CarriesMatch(e.mem.buf, s.threads[u], u, f'.taken)
    {
      if Carries(s.threads[u]).Some? {
        CarriedIsHeld(s.threads[u]);
        NotMine(cfg, s, l, t, Carries(s.threads[u]).value);
      }
    }
  }

  lemma CarriedIsHeld<V>(th: Thread<V>)
    ensures Carries(th).Some? ==> Held(th) == Carries(th)
  {
  }

  lemma CarriedInRange<V>(cfg: Config, s: System<V>, l: Ledger, t: nat, spurious: bool)
    requires SystemInv(cfg, s, l) && t in s.threads && Ready(cfg, s.mem, s.threads[t])
    ensures var e := ThreadStep(cfg, s.mem, s.threads[t], spurious);
            Carries(e.th).Some? ==> Carries(e.th).value < cfg.max
  {
    hide ThreadStep, QueueInv, Contents, OpInv, Ready, Held, Carries, ThreadInv, Partitioned, KeptBy, FlagInv, Filled;
    var l' := RunKeepsInv(cfg, s, l, t, spurious);
    var e := ThreadStep(cfg, s.mem, s.threads[t], spurious);
    var threads' := s.threads[t := e.th];
    CarriedIsHeld(threads'[t]);
    assert t in threads' && Assigned(threads', l'.own);
  }

  /** The events of an interleaving, with the thread each belongs to. */
  function EventOf<V>(cfg: Config, s: System<V>, a: Action<V>): QueueEvent<V> {
    if a.Run? && Enabled(cfg, s, a) then ThreadStep(cfg, s.mem, s.threads[a.t], a.spurious).event else Tau
  }

  function Trace<V>(cfg: Config, s: System<V>, actions: seq<Action<V>>): (r: seq<(nat, QueueEvent<V>)>)
    ensures |r| == |actions|
  {
    if actions == [] then []
    else
      var before := actions[..|actions| - 1];
      var a := actions[|actions| - 1];
      Trace(cfg, s, before) + [(a.t, EventOf(cfg, Exec(cfg, s, before), a))]
  }

  /** The state of the specification after a trace, and whether it allows every event of it. */
  function After<V>(f: Fifo<V>, trace: seq<(nat, QueueEvent<V>)>): Fifo<V> {
    if trace == [] then f
    else
      var (t, event) := trace[|trace| - 1];
      Apply(After(f, trace[..|trace| - 1]), t, event)
  }

  ghost predicate AcceptsAll<V>(f: Fifo<V>, trace: seq<(nat, QueueEvent<V>)>) {
    trace == [] ||
    (var (t, event) := trace[|trace| - 1];
     AcceptsAll(f, trace[..|trace| - 1]) && Accepts(After(f, trace[..|trace| - 1]), t, event))
  }

  lemma NextSimulates<V>(cfg: Config, s: System<V>, l: Ledger, f: Fifo<V>, a: Action<V>)
    requires SystemInv(cfg, s, l) && Simulates(cfg, s, f)
    ensures var s' := Next(cfg, s, a);
            && MemoryInv(cfg, s'.mem)
            && Accepts(f, a.t, EventOf(cfg, s, a))
            && Simulates(cfg, s', Apply(f, a.t, EventOf(cfg, s, a)))
  {
    hide ThreadStep, QueueInv, Contents, Ready, ThreadInv, Partitioned, Assigned, Filled, FlagInv, Matches;
    if Enabled(cfg, s, a) && a.Run? {
      RunSimulates(cfg, s, l, f, a.t, a.spurious);
    }
  }

  lemma {:induction false} ExecSimulates<V>(cfg: Config, s: System<V>, l: Ledger, f: Fifo<V>, actions: seq<Action<V>>)
    requires SystemInv(cfg, s, l) && Simulates(cfg, s, f)
    ensures MemoryInv(cfg, Exec(cfg, s, actions).mem)
    ensures AcceptsAll(f, Trace(cfg, s, actions))
    ensures Simulates(cfg, Exec(cfg, s, actions), After(f, Trace(cfg, s, actions)))
  {
    hide Next, EventOf, Simulates, Accepts, Apply, MemoryInv, Partitioned, Assigned, Filled, FlagInv, ThreadInv;
    if actions != [] {
      var before := actions[..|actions| - 1];
      var a := actions[|actions| - 1];
      ExecSimulates(cfg, s, l, f, before);
      var l' := ExecKeepsInv(cfg, s, l, before);
      NextSimulates(cfg, Exec(cfg, s, before), l', After(f, Trace(cfg, s, before)), a);
      assert Trace(cfg, s, actions)[..|actions| - 1] == Trace(cfg, s, before);
    }
  }

  // ---------------------------------------------------------------------------------------
  // What a whole run delivers

  /** The values pushed in a trace, in the order in which their indices were published. */
  function PushedIn<V>(trace: seq<(nat, QueueEvent<V>)>): seq<V> {
    if trace == [] then []
    else
      var before := PushedIn(trace[..|trace| - 1]);
      match trace[|trace| - 1].1
      case Enqueue(v) => before + [v]
      case _ => before
  }

  /** The values taken out in a trace, by thread `taker` or by any thread. */
  function TakenIn<V>(f: Fifo<V>, trace: seq<(nat, QueueEvent<V>)>, taker: Option<nat>): seq<V> {
    if trace == [] then []
    else
      var before := TakenIn(f, trace[..|trace| - 1], taker);
      var (t, event) := trace[|trace| - 1];
      var queue := After(f, trace[..|trace| - 1]).queue;
      if event.Dequeue? && queue != [] && (taker.None? || taker == Some(t)) then before + [queue[0]] else before
  }

  /** The values handed to the callers of thread `t`: popped, evicted or removed by a resize. */
  function DeliveredTo<V>(trace: seq<(nat, QueueEvent<V>)>, t: nat): seq<Option<V>> {
    if trace == [] then []
    else
      var before := DeliveredTo(trace[..|trace| - 1], t);
      var (u, event) := trace[|trace| - 1];
      if event.Deliver? && u == t then before + [event.out] else before
  }

  function Somes<V>(s: seq<V>): (r: seq<Option<V>>)
    ensures |r| == |s| && forall k :: 0 <= k < |s| ==> r[k] == Some(s[k])
  {
    if s == [] then [] else Somes(s[..|s| - 1]) + [Some(s[|s| - 1])]
  }

  /** Everything pushed has been taken, in the same order, or is still in the queue. */
  lemma {:induction false} PushedIsTakenOrStored<V>(f: Fifo<V>, trace: seq<(nat, QueueEvent<V>)>)
    requires AcceptsAll(f, trace)
    ensures f.queue + PushedIn(trace) == TakenIn(f, trace, None) + After(f, trace).queue
  {
    if trace != [] {
      var before := trace[..|trace| - 1];
      PushedIsTakenOrStored(f, before);
      var queue := After(f, before).queue;
      match trace[|trace| - 1].1 {
        case Enqueue(v) =>
          assert f.queue + (PushedIn(before) + [v]) == (f.queue + PushedIn(before)) + [v];
          assert TakenIn(f, before, None) + (queue + [v]) == (TakenIn(f, before, None) + queue) + [v];
        case Dequeue =>
          assert TakenIn(f, before, None) + queue == (TakenIn(f, before, None) + [queue[0]]) + queue[1..];
        case _ =>
      }
    }
  }

  lemma SomesAppend<V>(s: seq<V>, v: V)
    ensures Somes(s + [v]) == Somes(s) + [Some(v)]
  {
    assert (s + [v])[..|s|] == s;
  }

  /** What a thread takes it delivers once, in the same order, with at most one value pending. */
  lemma {:induction false} TakenIsDelivered<V>(f: Fifo<V>, trace: seq<(nat, QueueEvent<V>)>, t: nat)
    requires AcceptsAll(f, trace) && t !in f.taken
    ensures Somes(TakenIn(f, trace, Some(t)))
         == DeliveredTo(trace, t) + (if t in After(f, trace).taken then [Some(After(f, trace).taken[t])] else [])
  {
    hide Somes;
    if trace == [] {
      assert Somes<V>([]) == [];
    } else {
      var before := trace[..|trace| - 1];
      TakenIsDelivered(f, before, t);
      var (u, event) := trace[|trace| - 1];
      if event.Dequeue? && u == t {
        SomesAppend(TakenIn(f, before, Some(t)), After(f, before).queue[0]);
      }
    }
  }

  /** The value a thread has taken out and is about to read. */
  function Pending<V>(s: System<V>, t: nat): seq<Option<V>> {
    if t !in s.threads then []
    else match Carries(s.threads[t])
      case Some(i) => if i < |s.mem.buf| then [s.mem.buf[i]] else []
      case None => []
  }

  /** Over every run of a lock-free queue: the values pushed are, in the order of publication,
      the values taken out followed by the values still stored in the buffer; and each thread
      has delivered what it took, except for the one value it may be about to read. */
  lemma EveryRunIsFifo<V(!new)>(cfg: Config, threads: set<nat>, actions: seq<Action<V>>) returns (stored: seq<V>)
    requires cfg.max >= 1
    ensures var s := Exec(cfg, Initial<V>(cfg, threads), actions);
            var trace := Trace(cfg, Initial<V>(cfg, threads), actions);
            var start: Fifo<V> := Fifo([], map[]);
            && MemoryInv(cfg, s.mem)
            && Matches(s.mem.buf, Contents(cfg.max, s.mem.used), stored)
            && PushedIn(trace) == TakenIn(start, trace, None) + stored
            && (forall t :: t in threads ==>
                  Somes(TakenIn(start, trace, Some(t))) == DeliveredTo(trace, t) + Pending(s, t))
  {
    var start: Fifo<V> := Fifo([], map[]);
    var s := Initial<V>(cfg, threads);
    var trace := Trace(cfg, s, actions);
    InitialInv<V>(cfg, threads);
    EmptyQueue(cfg.max);
    ExecSimulates(cfg, s, Ledger(seq(cfg.max, _ => InFree), None), start, actions);
    PushedIsTakenOrStored(start, trace);
    stored := After(start, trace).queue;
    ExecThreads(cfg, s, actions);
    forall t | t in threads
      ensures Somes(TakenIn(start, trace, Some(t))) == DeliveredTo(trace, t) + Pending(Exec(cfg, s, actions), t)
    {
      TakenIsDelivered(start, trace, t);
    }
  }

  lemma {:induction false} ExecThreads<V>(cfg: Config, s: System<V>, actions: seq<Action<V>>)
    ensures Exec(cfg, s, actions).threads.Keys == s.threads.Keys
  {
    hide ThreadStep, Ready;
    if actions != [] { ExecThreads(cfg, s, actions[..|actions| - 1]); }
  }

  // ---------------------------------------------------------------------------------------
  // What the results of the operations mean

  /** LockFreeQueue::push evicts only from a queue that holds all indices at that moment, so no
      index is free and no other thread holds one. */
  lemma EvictsOnlyWhenFull<V>(cfg: Config, s: System<V>, l: Ledger, t: nat, spurious: bool, i: nat)
    requires SystemInv(cfg, s, l) && t in s.threads && s.threads[t].Evict? && !cfg.resizeable
    requires ThreadStep(cfg, s.mem, s.threads[t], spurious).event.Dequeue?
    requires i < cfg.max
    ensures i in Contents(cfg.max, s.mem.used) && l.own[i] == InUsed
  {
    hide QueueInv, Contents, OpInv, KeptBy, FlagInv, Filled, Assigned;
    var op := s.threads[t].op;
    assert Step(cfg.max, s.mem.used, op, spurious).op.Got?;
    StepKinds(cfg.max, s.mem.used, op, spurious);
    ConditionalPopIsTruthful(cfg.max, s.mem.used, op, spurious);
    FullHoldsAll(cfg.max, Contents(cfg.max, s.mem.used), i);
  }

  /** ResizeableLockFreeQueue::push evicts only from a queue that holds at least as many values
      as the capacity it has loaded. */
  lemma EvictsOnlyAtCapacity<V>(cfg: Config, s: System<V>, l: Ledger, t: nat, spurious: bool)
    requires SystemInv(cfg, s, l) && t in s.threads && s.threads[t].Evict? && s.threads[t].op.SizeCas?
    requires ThreadStep(cfg, s.mem, s.threads[t], spurious).event.Dequeue?
    ensures |Contents(cfg.max, s.mem.used)| >= s.threads[t].op.min
  {
    hide QueueInv, Contents, OpInv, KeptBy, FlagInv, Filled, Assigned, Partitioned;
    var op := s.threads[t].op;
    StepKinds(cfg.max, s.mem.used, op, spurious);
    ConditionalPopIsTruthful(cfg.max, s.mem.used, op, spurious);
  }

  /** pop returns nothing, and empty answers true, only when there is no value in the queue, and
      tryPush refuses only when no index is free, at the moment of the load that decides. */
  lemma FailuresAreTruthful<V>(cfg: Config, s: System<V>, l: Ledger, f: Fifo<V>, t: nat, spurious: bool)
    requires SystemInv(cfg, s, l) && Simulates(cfg, s, f) && t in s.threads
    requires Ready(cfg, s.mem, s.threads[t])
    ensures var th' := ThreadStep(cfg, s.mem, s.threads[t], spurious).th;
            && (s.threads[t].TakeUsed? && th' == Done(Popped(None)) ==> f.queue == [])
            && (s.threads[t].ReadEmpty? && th' == Done(WasEmpty(true)) ==> f.queue == [])
            && (s.threads[t].TakeFree? && th' == Done(Refused) ==> Contents(cfg.max, s.mem.free) == [])
  {
    hide QueueInv, Contents, OpInv, KeptBy, FlagInv, Filled, Assigned, Partitioned, Step;
    var th := s.threads[t];
    if th.TakeUsed? && Step(cfg.max, s.mem.used, th.op, spurious).op.NotGot? {
      EmptyIsTruthful(cfg.max, s.mem.used, th.op, spurious);
    }
    if th.ReadEmpty? && Step(cfg.max, s.mem.used, th.op, spurious).op == EmptyIs(true) {
      EmptyIsTruthful(cfg.max, s.mem.used, th.op, spurious);
    }
    if th.TakeFree? && Step(cfg.max, s.mem.free, th.op, spurious).op.NotGot? {
      EmptyIsTruthful(cfg.max, s.mem.free, th.op, spurious);
    }
  }

  /** In every reachable state: empty answers true only while the used queue is empty, and false
      only while it is not, unless the read position it loaded has moved on. */
  lemma EmptyAnswerIsTruthful<V(!new)>(cfg: Config, s: System<V>, t: nat, spurious: bool)
    requires cfg.max >= 1 && Reachable(cfg, s) && t in s.threads && s.threads[t].ReadEmpty?
    requires s.threads[t].op.EmptyRead?
    ensures Ready(cfg, s.mem, s.threads[t]) && MemoryInv(cfg, s.mem)
    ensures var used := Contents(cfg.max, s.mem.used);
      var th' := ThreadStep(cfg, s.mem, s.threads[t], spurious).th;
      && (th' == Done(WasEmpty(true)) ==> used == [])
      && (th' == Done(WasEmpty(false)) && s.threads[t].op.rp == s.mem.used.rd ==> used != [])
  {
    hide Reachable, Contents, KeptBy, FlagInv, Filled, Assigned, Partitioned, QueueInv;
    AlwaysReady(cfg, s, t);
    var l := ReachableInv(cfg, s);
    CellCycle(cfg.max, s.mem.used, s.threads[t].op.rp);
    FrontierIsClose(cfg.max, s.mem.used);
    assert ThreadInv(cfg, s.mem, s.threads[t]);
  }
}
