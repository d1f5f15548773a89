/**
 Between calls: a reachable state in which every thread is done is quiescent.
*/
module LockFreeQueueQuiescence {
  import opened CyclicIndex
  import opened Options
  import opened Indices
  import opened IndexQueueProtocol
  import opened LockFreeQueueProtocol
  import opened LockFreeQueueOwnership
  import opened LockFreeQueueSystem
  import opened LockFreeQueueCounters

  // ---------------------------------------------------------------------------------------
  // The write position

  predicate Lags(c: nat, q: Queue)
    requires Shape(c, q)
  {
    q.wr < Frontier(c, q)
  }

  lemma OnlyPushesWrite(c: nat, q: Queue, op: Op, spurious: bool)
    requires Shape(c, q) && !Publishing(op) && !op.PushFinish?
    ensures var q' := Step(c, q, op, spurious).queue; q'.cells == q.cells && q'.wr == q.wr
    ensures !Step(c, q, op, spurious).op.PushFinish?
  {
    hide LoadValueAt, OneCycleBehind, CycleOf, IndexOf;
  }

  lemma LagPush(c: nat, q: Queue, op: Op, spurious: bool)
    requires QueueInv(c, q) && OpInv(c, q, op) && HasRoom(c, q, op) && (Publishing(op) || op.PushFinish?)
    ensures var r := StepPush(c, q, op, spurious);
      Lags(c, r.queue) ==>
        || (Lags(c, q) && r.queue.wr == q.wr && op != PushFinish(q.wr))
        || r.op == PushFinish(r.queue.wr)
  {
    hide Contents, Pack, QueueInv, CycleOf, IndexOf, OneCycleBehind;
    FrontierIsClose(c, q);
    match op
    case PushCas(idx, wp, seen) =>
      if LoadValueAt(c, q, wp) == seen && !spurious { Publish(c, q, idx, wp); }
    case PushHelp(_, wp) => if q.wr == wp { MoveWritePosition(c, q); }
    case PushFinish(wp) => if q.wr == wp { MoveWritePosition(c, q); }
    case _ =>
  }

  /** A queue that lags after a step lagged before, and the step was not by the push that is about
      to catch up; or the step has published, and its push is now that one. */
  lemma LagStep(c: nat, q: Queue, op: Op, spurious: bool)
    requires QueueInv(c, q) && OpInv(c, q, op) && HasRoom(c, q, op)
    ensures var r := Step(c, q, op, spurious);
      Lags(c, r.queue) ==>
        || (Lags(c, q) && r.queue.wr == q.wr && op != PushFinish(q.wr))
        || r.op == PushFinish(r.queue.wr)
  {
    hide QueueInv, OpInv, HasRoom, StepPush;
    if Publishing(op) || op.PushFinish? {
      LagPush(c, q, op, spurious);
    } else {
      hide StepPop, StepPopIfFull, StepPopIfSize, StepEmpty;
      OnlyPushesWrite(c, q, op, spurious);
    }
  }

  // ---------------------------------------------------------------------------------------
  // Over whole runs

  predicate CatchesUp<V>(th: Thread<V>, wr: nat) {
    th.PushUsed? && th.op == PushFinish(wr)
  }

  /** While the used queue lags, the push that has published is still there. */
  ghost predicate LagInv<V>(cfg: Config, s: System<V>)
    requires MemoryInv(cfg, s.mem)
  {
    Lags(cfg.max, s.mem.used) ==> exists t :: t in s.threads && CatchesUp(s.threads[t], s.mem.used.wr)
  }

  /** Without resizing the capacity stays as built and no index is out of service. */
  ghost predicate FixedInv<V>(cfg: Config, s: System<V>) {
    !cfg.resizeable ==>
      && s.mem.capacity == cfg.max && s.mem.unused == []
      && forall t :: t in s.threads ==> !ResizeCall(s.threads[t])
  }

  /** What a step on the used queue leaves the thread with. */
  lemma UsedOp<V>(cfg: Config, m: Memory<V>, th: Thread<V>, spurious: bool, wr: nat)
    requires Ready(cfg, m, th) && OnUsed(th)
    ensures var r := Step(cfg.max, m.used, th.op, spurious);
      th.PushUsed? && r.op == PushFinish(wr) ==> CatchesUp(ThreadStep(cfg, m, th, spurious).th, wr)
  {
    hide Step;
  }

  lemma RunKeepsLag<V>(cfg: Config, s: System<V>, l: Ledger, t: nat, spurious: bool)
    requires SystemInv(cfg, s, l) && LagInv(cfg, s) && t in s.threads && Ready(cfg, s.mem, s.threads[t])
    ensures var e := ThreadStep(cfg, s.mem, s.threads[t], spurious);
      var s' := System(e.mem, s.threads[t := e.th]);
      MemoryInv(cfg, s'.mem) && LagInv(cfg, s')
  {
    hide ThreadStep, Step, QueueInv, Contents, OpInv, BufferInv, Assigned, Filled, Partitioned, FlagInv, KeptBy, Lags;
    var th := s.threads[t];
    var e := ThreadStep(cfg, s.mem, th, spurious);
    var s' := System(e.mem, s.threads[t := e.th]);
    ThreadMayStep(cfg, s, l, t);
    ThreadMoves(cfg, s.mem, th, spurious);
    StepOnQueues(cfg, s.mem, th, spurious);
    if Lags(cfg.max, e.mem.used) {
      if OnUsed(th) {
        UsedLag(cfg, s.mem, th, spurious);
        UsedOp(cfg, s.mem, th, spurious, e.mem.used.wr);
      }
      if CatchesUp(e.th, e.mem.used.wr) {
        assert t in s'.threads && CatchesUp(s'.threads[t], s'.mem.used.wr);
      } else {
        var u :| u in s.threads && CatchesUp(s.threads[u], s.mem.used.wr);
        assert u in s'.threads && CatchesUp(s'.threads[u], s'.mem.used.wr);
      }
    }
  }

  lemma UsedLag<V>(cfg: Config, m: Memory<V>, th: Thread<V>, spurious: bool)
    requires MayStep(cfg, m, th) && OnUsed(th)
    ensures var r := Step(cfg.max, m.used, th.op, spurious);
      Lags(cfg.max, r.queue) ==>
        || (Lags(cfg.max, m.used) && r.queue.wr == m.used.wr && !CatchesUp(th, m.used.wr))
        || (th.PushUsed? && r.op == PushFinish(r.queue.wr))
  {
    hide Step, QueueInv, Contents, OpInv, BufferInv, Lags;
    LagStep(cfg.max, m.used, th.op, spurious);
    if !th.PushUsed? { OnlyPushesWrite(cfg.max, m.used, th.op, spurious); }
  }

  lemma StartKeepsLag<V>(cfg: Config, s: System<V>, t: nat, call: Call<V>)
    requires MemoryInv(cfg, s.mem) && LagInv(cfg, s) && FixedInv(cfg, s) && t in s.threads && s.threads[t].Done?
    ensures var s' := s.(threads := s.threads[t := StartCall(cfg, call)]); LagInv(cfg, s') && FixedInv(cfg, s')
  {
    hide QueueInv, Lags;
    var s' := s.(threads := s.threads[t := StartCall(cfg, call)]);
    if Lags(cfg.max, s.mem.used) {
      var u :| u in s.threads && CatchesUp(s.threads[u], s.mem.used.wr);
      assert u in s'.threads && CatchesUp(s'.threads[u], s'.mem.used.wr);
    }
  }

  lemma NextKeepsLag<V>(cfg: Config, s: System<V>, l: Ledger, a: Action<V>)
    requires SystemInv(cfg, s, l) && LagInv(cfg, s) && FixedInv(cfg, s)
    ensures MemoryInv(cfg, Next(cfg, s, a).mem) && LagInv(cfg, Next(cfg, s, a)) && FixedInv(cfg, Next(cfg, s, a))
  {
    hide SystemInv, LagInv, ThreadStep, StartCall, MemoryInv;
    SystemHasQueues(cfg, s, l);
    if Enabled(cfg, s, a) {
      match a
      case Start(t, call) => StartKeepsLag(cfg, s, t, call);
      case Run(t, spurious) =>
        RunKeepsLag(cfg, s, l, t, spurious);
        if !cfg.resizeable { StaysInCall(cfg, s.mem, s.threads[t], spurious); }
    }
  }

  lemma SystemHasQueues<V>(cfg: Config, s: System<V>, l: Ledger)
    requires SystemInv(cfg, s, l)
    ensures MemoryInv(cfg, s.mem)
  {
  }

  lemma {:induction false} ExecKeepsLag<V>(cfg: Config, s: System<V>, l: Ledger, actions: seq<Action<V>>)
    returns (l': Ledger)
    requires CountersInv(cfg, s, l) && MemoryInv(cfg, s.mem) && LagInv(cfg, s) && FixedInv(cfg, s)
    ensures var s' := Exec(cfg, s, actions);
      CountersInv(cfg, s', l') && MemoryInv(cfg, s'.mem) && LagInv(cfg, s') && FixedInv(cfg, s')
  {
    hide SystemInv, SizeInv, CapacityInv, LagInv, FixedInv, MemoryInv, Next;
    l' := ExecKeepsCounters(cfg, s, l, actions);
    if actions != [] {
      var before := actions[..|actions| - 1];
      var l1 := ExecKeepsLag(cfg, s, l, before);
      NextKeepsLag(cfg, Exec(cfg, s, before), l1, actions[|actions| - 1]);
    }
  }

  // ---------------------------------------------------------------------------------------
  // Between calls

  /** If no thread holds an index, the three lists have them all. */
  lemma AllListed(own: seq<Place>, free: seq<nat>, used: seq<nat>, kept: seq<nat>)
    requires Partitioned(own, free, used, kept)
    requires forall i :: 0 <= i < |own| ==> !own[i].HeldBy?
    ensures |free| + |used| + |kept| == |own|
  {
    var all := free + used + kept;
    DistinctConcat(free, used);
    DistinctConcat(free + used, kept);
    DistinctIndicesFit(|own|, all);
    forall i: nat | i < |own| ensures i in all {
      assert own[i] == InFree || own[i] == InUsed || own[i] == InUnused;
    }
    CardinalityOfSubset(Below(|own|), Elements(all));
  }

  lemma NoneHeld<V>(cfg: Config, s: System<V>, l: Ledger)
    requires SystemInv(cfg, s, l) && forall t :: t in s.threads ==> s.threads[t].Done?
    ensures KeptBy(s, l.resizer) == s.mem.unused
    ensures |Contents(cfg.max, s.mem.free)| + |Contents(cfg.max, s.mem.used)| + |s.mem.unused| == cfg.max
  {
    hide QueueInv, Contents, OpInv, ThreadInv, Filled, Partitioned;
    assert forall i :: 0 <= i < |l.own| ==> !l.own[i].HeldBy?;
    AllListed(l.own, Contents(cfg.max, s.mem.free), Contents(cfg.max, s.mem.used), KeptBy(s, l.resizer));
  }

  lemma CapacityBetweenCalls<V>(cfg: Config, s: System<V>, l: Ledger)
    requires CountersInv(cfg, s, l) && forall t :: t in s.threads ==> s.threads[t].Done?
    ensures |Contents(cfg.max, s.mem.free)| + |Contents(cfg.max, s.mem.used)| == s.mem.capacity <= cfg.max
  {
    hide QueueInv, Contents, OpInv, ThreadInv, Filled, Partitioned, Assigned, SizeInv;
    NoneHeld(cfg, s, l);
  }

  lemma InitialLag<V>(cfg: Config, threads: set<nat>)
    requires cfg.max >= 1
    ensures var s := Initial<V>(cfg, threads); MemoryInv(cfg, s.mem) && LagInv(cfg, s) && FixedInv(cfg, s)
  {
    hide Contents;
    EmptyQueue(cfg.max);
    FullQueue(cfg.max);
    EmptyDoesNotLag(cfg.max);
  }

  lemma EmptyDoesNotLag(c: nat)
    requires c >= 1
    ensures !Lags(c, ConstructEmpty(c))
  {
    assert CycleOf(c, c) == 1 + CycleOf(c, 0);
  }

  /** No index is in flight and no push has left the write position behind. */
  ghost predicate Quiescent<V>(cfg: Config, m: Memory<V>) {
    && MemoryInv(cfg, m)
    && m.used.wr == Frontier(cfg.max, m.used)
    && |Contents(cfg.max, m.free)| + |Contents(cfg.max, m.used)| == m.capacity <= cfg.max
    && (!cfg.resizeable ==> m.capacity == cfg.max)
  }

  /** Every reachable state in which all threads are between calls is quiescent. */
  lemma ReachableQuiescent<V(!new)>(cfg: Config, s: System<V>)
    requires cfg.max >= 1 && Reachable(cfg, s) && forall t :: t in s.threads ==> s.threads[t].Done?
    ensures Quiescent(cfg, s.mem)
  {
    hide Contents, Initial, Exec, CountersInv, QueueInv, Lags;
    var threads, actions :| s == Exec(cfg, Initial<V>(cfg, threads), actions);
    InitialLag<V>(cfg, threads);
    var l0 := InitialCounters<V>(cfg, threads);
    var l := ExecKeepsLag(cfg, Initial<V>(cfg, threads), l0, actions);
    CapacityBetweenCalls(cfg, s, l);
    NoLagMeansSettled(cfg.max, s.mem.used);
  }

  lemma NoLagMeansSettled(c: nat, q: Queue)
    requires QueueInv(c, q)
    ensures !Lags(c, q) ==> q.wr == Frontier(c, q)
  {
    hide Contents;
    FrontierIsClose(c, q);
  }

  lemma InitialCounters<V>(cfg: Config, threads: set<nat>) returns (l: Ledger)
    requires cfg.max >= 1
    ensures CountersInv(cfg, Initial<V>(cfg, threads), l)
  {
    hide SystemInv;
    l := Ledger(seq(cfg.max, _ => InFree), None);
    InitialInv<V>(cfg, threads);
    assert CountedSet(Initial<V>(cfg, threads).threads, l.own) == {};
  }
}
