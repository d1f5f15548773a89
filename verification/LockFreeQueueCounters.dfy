/**
 The two counters of the lock-free queues: m_size and m_capacity.
*/
module LockFreeQueueCounters {
  import opened Options
  import opened Indices
  import opened IndexQueueProtocol
  import opened LockFreeQueueProtocol
  import opened LockFreeQueueOwnership
  import opened LockFreeQueueSystem

  /** A thread between its fetch_add and the publication of the index, or between taking the
      index and its fetch_sub. */
  predicate Counts<V>(th: Thread<V>) {
    match th
    case PushUsed(_, _, _, op) => Publishing(op)
    case EvictSubSize(_, _) => true
    case PopSubSize(_) => true
    case ShrinkSubSize(_, _) => true
    case _ => false
  }

  /** The index counts for m_size: it is in the used queue, or a thread that has added it
      without having published it, or taken it without having subtracted it, holds it. */
  predicate Counted<V>(threads: map<nat, Thread<V>>, own: seq<Place>, i: nat) {
    && i < |own|
    && (own[i] == InUsed || (own[i].HeldBy? && own[i].t in threads && Counts(threads[own[i].t])))
  }

  function CountedSet<V>(threads: map<nat, Thread<V>>, own: seq<Place>): set<nat> {
    set i: nat | 0 <= i < |own| && Counted(threads, own, i)
  }

  ghost predicate SizeInv<V>(s: System<V>, l: Ledger) {
    s.mem.size == |CountedSet(s.threads, l.own)|
  }

  ghost predicate CapacityInv<V>(cfg: Config, s: System<V>, l: Ledger) {
    s.mem.capacity + |KeptBy(s, l.resizer)|
      == cfg.max + (if l.resizer.Some? && l.resizer.value in s.threads && s.threads[l.resizer.value].ShrinkCapacity?
                    then 1 else 0)
  }

  /** What a step does to m_size: it adds or subtracts the index the thread holds. */
  ghost predicate OnSize<V>(m: Memory<V>, th: Thread<V>, e: Effect<V>) {
    if th.AddSize? then
      Held(th) == Held(e.th) == Some(th.i) && !Counts(th) && Counts(e.th) && e.mem.size == m.size + 1
    else if th.EvictSubSize? || th.PopSubSize? || th.ShrinkSubSize? then
      Held(th) == Held(e.th) == Some(th.i) && Counts(th) && !Counts(e.th) && e.mem.size == FetchSub(m.size)
    else
      && e.mem.size == m.size
      && (Held(th).Some? && Held(e.th).Some? ==> Counts(th) == Counts(e.th))
      && (Held(th).Some? && Held(e.th).None? ==> (Counts(th) <==> Destination(th) == InUsed))
      && (Held(th).None? && Held(e.th).Some? ==> (Counts(e.th) <==> Source(th) == InUsed))
  }

  lemma PushOnSize<V>(cfg: Config, m: Memory<V>, th: Thread<V>, spurious: bool)
    requires MayStep(cfg, m, th) && PushCall(th)
    ensures OnSize(m, th, StepPushCall(cfg, m, th, spurious))
  {
    hide Step, QueueInv, Contents, OpInv, BufferInv;
    if th.PushUsed? { PushOutcome(cfg.max, m.used, th.op, spurious); }
  }

  lemma PopOnSize<V>(cfg: Config, m: Memory<V>, th: Thread<V>, spurious: bool)
    requires MayStep(cfg, m, th) && PopCall(th)
    ensures OnSize(m, th, StepPopCall(cfg, m, th, spurious))
  {
    hide Step, QueueInv, Contents, OpInv, BufferInv;
    if th.PushFree? { PushOutcome(cfg.max, m.free, th.op, spurious); }
  }

  lemma ResizeOnSize<V>(cfg: Config, m: Memory<V>, th: Thread<V>, spurious: bool)
    requires MayStep(cfg, m, th) && ResizeCall(th)
    ensures OnSize(m, th, StepResizeCall(cfg, m, th, spurious))
  {
    hide Step, QueueInv, Contents, OpInv, BufferInv;
    if th.GrowPush? { PushOutcome(cfg.max, m.free, th.op, spurious); }
  }

  lemma StepOnSize<V>(cfg: Config, m: Memory<V>, th: Thread<V>, spurious: bool)
    requires MayStep(cfg, m, th)
    ensures OnSize(m, th, ThreadStep(cfg, m, th, spurious))
  {
    hide StepPushCall, StepPopCall, StepResizeCall, QueueInv, Contents, OpInv, BufferInv, ThreadRoom;
    if PushCall(th) { PushOnSize(cfg, m, th, spurious); }
    else if PopCall(th) { PopOnSize(cfg, m, th, spurious); }
    else if ResizeCall(th) { ResizeOnSize(cfg, m, th, spurious); }
  }

  lemma StepOnCapacity<V>(cfg: Config, m: Memory<V>, th: Thread<V>, spurious: bool)
    requires Ready(cfg, m, th)
    ensures OnCapacity(m, th, ThreadStep(cfg, m, th, spurious))
  {
    hide Step, StepPushCall, StepPopCall, StepResizeCall, OnCapacity;
    if ResizeCall(th) {
      ResizeOnCapacity(cfg, m, th, spurious);
    } else {
      StaysInCall(cfg, m, th, spurious);
      OtherOnCapacity(m, th, ThreadStep(cfg, m, th, spurious));
    }
  }

  lemma OtherOnCapacity<V>(m: Memory<V>, th: Thread<V>, e: Effect<V>)
    requires !ResizeCall(th) && Fixed(m, e)
    ensures OnCapacity(m, th, e)
  {
  }

  lemma ResizeOnCapacity<V>(cfg: Config, m: Memory<V>, th: Thread<V>, spurious: bool)
    requires Ready(cfg, m, th) && ResizeCall(th)
    ensures OnCapacity(m, th, StepResizeCall(cfg, m, th, spurious))
  {
    hide Step;
  }

  /** What a step does to m_capacity. */
  ghost predicate OnCapacity<V>(m: Memory<V>, th: Thread<V>, e: Effect<V>) {
    && (e.th.ShrinkCapacity? <==> th.ShrinkStash?)
    && (th.ShrinkCapacity? ==> e.mem.capacity == FetchSub(m.capacity))
    && (th.Grow? && e.th.GrowPush? ==> e.mem.capacity == m.capacity + 1)
    && (!th.ShrinkCapacity? && !(th.Grow? && e.th.GrowPush?) ==> e.mem.capacity == m.capacity)
    && (e.th.GrowPush? ==> th.Grow? || th.GrowPush?)
  }

  lemma CountedElsewhere<V>(threads: map<nat, Thread<V>>, own: seq<Place>, t: nat, th': Thread<V>, i: nat)
    requires t in threads && Assigned(threads, own)
    requires Held(threads[t]) != Some(i) && (Held(threads[t]).None? ==> Held(th') != Some(i))
    ensures Counted(threads[t := th'], NextOwn(own, t, threads[t], th'), i) <==> Counted(threads, own, i)
  {
    hide Held, Counts, Destination;
  }

  /** The index the stepping thread holds before the step, or after it. */
  function Mine<V>(th: Thread<V>, th': Thread<V>): Option<nat> {
    if Held(th).Some? then Held(th) else Held(th')
  }

  lemma OthersCounted<V>(threads: map<nat, Thread<V>>, own: seq<Place>, t: nat, th': Thread<V>)
    requires t in threads && Assigned(threads, own)
    ensures forall i: nat :: Mine(threads[t], th') != Some(i) ==>
      (i in CountedSet(threads[t := th'], NextOwn(own, t, threads[t], th')) <==> i in CountedSet(threads, own))
  {
    hide Counts, Held, Destination;
    forall i: nat | Mine(threads[t], th') != Some(i)
      ensures i in CountedSet(threads[t := th'], NextOwn(own, t, threads[t], th')) <==> i in CountedSet(threads, own)
    {
      CountedElsewhere(threads, own, t, th', i);
    }
  }

  lemma MineCounted<V>(m: Memory<V>, threads: map<nat, Thread<V>>, own: seq<Place>, t: nat, e: Effect<V>, i: nat)
    requires t in threads && Assigned(threads, own) && OnSize(m, threads[t], e)
    requires Held(threads[t]).Some? && Held(e.th).Some? ==> Held(e.th) == Held(threads[t])
    requires Held(threads[t]).None? && Held(e.th).Some? ==>
      Held(e.th).value < |own| && own[Held(e.th).value] == Source(threads[t])
    requires Mine(threads[t], e.th) == Some(i)
    ensures var th := threads[t];
      var before := i in CountedSet(threads, own);
      var after := i in CountedSet(threads[t := e.th], NextOwn(own, t, th, e.th));
      if th.AddSize? then !before && after
      else if SubtractsNext(th) then before && !after
      else before == after
  {
    hide Counts, Held;
  }

  /** m_size is the number of indices written but not yet read. */
  lemma SizeStep<V>(m: Memory<V>, threads: map<nat, Thread<V>>, own: seq<Place>, t: nat, e: Effect<V>)
    requires t in threads && Assigned(threads, own) && OnSize(m, threads[t], e)
    requires Held(threads[t]).Some? && Held(e.th).Some? ==> Held(e.th) == Held(threads[t])
    requires Held(threads[t]).None? && Held(e.th).Some? ==>
      Held(e.th).value < |own| && own[Held(e.th).value] == Source(threads[t])
    requires m.size == |CountedSet(threads, own)|
    ensures e.mem.size == |CountedSet(threads[t := e.th], NextOwn(own, t, threads[t], e.th))|
    ensures threads[t].EvictSubSize? || threads[t].PopSubSize? || threads[t].ShrinkSubSize? ==> m.size >= 1
  {
    hide Counts, Held, Assigned, NextOwn, CountedSet, Source;
    var th := threads[t];
    var before, after := CountedSet(threads, own), CountedSet(threads[t := e.th], NextOwn(own, t, th, e.th));
    OthersCounted(threads, own, t, e.th);
    if Mine(th, e.th).Some? {
      var i := Mine(th, e.th).value;
      MineCounted(m, threads, own, t, e, i);
      if th.AddSize? {
        assert after == before + {i};
      } else if SubtractsNext(th) {
        assert after == before - {i};
      } else {
        assert after == before;
      }
    } else {
      assert after == before;
    }
  }

  lemma KeptStep<V>(cfg: Config, s: System<V>, l: Ledger, t: nat, spurious: bool)
    requires SystemInv(cfg, s, l) && t in s.threads && Ready(cfg, s.mem, s.threads[t])
    ensures var e := ThreadStep(cfg, s.mem, s.threads[t], spurious);
            var s' := System(e.mem, s.threads[t := e.th]);
            var th := s.threads[t];
            var kept, kept' := |KeptBy(s, l.resizer)|, |KeptBy(s', NextResizer(l.resizer, t, e.th))|;
            && FlagInv(s', NextResizer(l.resizer, t, e.th))
            && kept <= cfg.max
            && (th.Grow? && e.th.GrowPush? ==> kept == kept' + 1)
            && (th.ShrinkStash? ==> kept' == kept + 1)
            && (!(th.Grow? && e.th.GrowPush?) && !th.ShrinkStash? ==> kept' == kept)
  {
    hide ThreadStep, QueueInv, Contents, OpInv, ThreadInv, Filled, MayStep, Assigned, FlagInv, Ready, KeptBy;
    ThreadMayStep(cfg, s, l, t);
    ThreadMoves(cfg, s.mem, s.threads[t], spurious);
    FlagStep(cfg, s, l, t, spurious);
    GrowStep(cfg, s.mem, s.threads[t], spurious);
    DistinctIndicesFit(cfg.max, KeptBy(s, l.resizer));
  }

  lemma GrowStep<V>(cfg: Config, m: Memory<V>, th: Thread<V>, spurious: bool)
    requires Ready(cfg, m, th)
    ensures var e := ThreadStep(cfg, m, th, spurious);
            && (th.Grow? ==> Held(th).None? && (Held(e.th).Some? <==> e.th.GrowPush?))
            && (th.ShrinkStash? ==> Held(th).Some? && Held(e.th).None? && Resizing(th))
  {
    hide Step;
  }

  /** The capacity and the indices taken out of service always add up to MaxCapacity, except for
      the one index a shrink has stashed but not yet subtracted. */
  lemma CapacityStep<V>(cfg: Config, s: System<V>, l: Ledger, t: nat, spurious: bool)
    requires SystemInv(cfg, s, l) && CapacityInv(cfg, s, l) && t in s.threads && Ready(cfg, s.mem, s.threads[t])
    ensures var e := ThreadStep(cfg, s.mem, s.threads[t], spurious);
            CapacityInv(cfg, System(e.mem, s.threads[t := e.th]),
                        Ledger(NextOwn(l.own, t, s.threads[t], e.th), NextResizer(l.resizer, t, e.th)))
    ensures s.threads[t].ShrinkCapacity? ==> s.mem.capacity >= 1
  {
    hide ThreadStep, QueueInv, Contents, OpInv, ThreadInv, Filled, Assigned, Ready, KeptBy, Partitioned;
    StepOnCapacity(cfg, s.mem, s.threads[t], spurious);
    KeptStep(cfg, s, l, t, spurious);
  }

  lemma RunKeepsCounters<V>(cfg: Config, s: System<V>, l: Ledger, t: nat, spurious: bool) returns (l': Ledger)
    requires SystemInv(cfg, s, l) && SizeInv(s, l) && CapacityInv(cfg, s, l)
    requires t in s.threads && Ready(cfg, s.mem, s.threads[t])
    ensures var e := ThreadStep(cfg, s.mem, s.threads[t], spurious);
            var s' := System(e.mem, s.threads[t := e.th]);
            SystemInv(cfg, s', l') && SizeInv(s', l') && CapacityInv(cfg, s', l')
    ensures s.threads[t].EvictSubSize? || s.threads[t].PopSubSize? || s.threads[t].ShrinkSubSize? ==> s.mem.size >= 1
    ensures s.threads[t].ShrinkCapacity? ==> s.mem.capacity >= 1
  {
    hide ThreadStep, QueueInv, Contents, OpInv, ThreadInv, Filled, MayStep, FlagInv, KeptBy, Ready, CapacityInv;
    hide OnSize, Held, Counted, CountedSet;
    ThreadMayStep(cfg, s, l, t);
    l' := RunKeepsInv(cfg, s, l, t, spurious);
    CapacityStep(cfg, s, l, t, spurious);
    StepOnSize(cfg, s.mem, s.threads[t], spurious);
    ThreadMoves(cfg, s.mem, s.threads[t], spurious);
    var e := ThreadStep(cfg, s.mem, s.threads[t], spurious);
    TakenFromSource(cfg, s, l, t, spurious);
    SizeStep(s.mem, s.threads, l.own, t, e);
  }

  lemma TakenFromSource<V>(cfg: Config, s: System<V>, l: Ledger, t: nat, spurious: bool)
    requires SystemInv(cfg, s, l) && t in s.threads && Ready(cfg, s.mem, s.threads[t])
    ensures var e := ThreadStep(cfg, s.mem, s.threads[t], spurious);
      Held(s.threads[t]).None? && Held(e.th).Some? ==>
        Held(e.th).value < |l.own| && l.own[Held(e.th).value] == Source(s.threads[t])
  {
    hide ThreadStep, QueueInv, Contents, OpInv, ThreadInv, Filled, MayStep, Assigned, FlagInv, Ready, KeptBy, Held;
    ThreadMayStep(cfg, s, l, t);
    ThreadMoves(cfg, s.mem, s.threads[t], spurious);
    FlagStep(cfg, s, l, t, spurious);
    var e := ThreadStep(cfg, s.mem, s.threads[t], spurious);
    var s' := System(e.mem, s.threads[t := e.th]);
    var l' := NextResizer(l.resizer, t, e.th);
    assert Moves(InUnused, s.threads[t], e.th, KeptBy(s, l.resizer), KeptBy(s', l'));
    if Held(s.threads[t]).None? && Held(e.th).Some? {
      var i := Held(e.th).value;
      match Source(s.threads[t]) {
        case InFree => HoldsDropHead(l.own, InFree, Contents(cfg.max, s.mem.free), i, Contents(cfg.max, e.mem.free), HeldBy(t));
        case InUsed => HoldsDropHead(l.own, InUsed, Contents(cfg.max, s.mem.used), i, Contents(cfg.max, e.mem.used), HeldBy(t));
        case InUnused => HoldsDropLast(l.own, InUnused, KeptBy(s, l.resizer), i, KeptBy(s', l'), HeldBy(t));
      }
    }
  }

  ghost predicate CountersInv<V>(cfg: Config, s: System<V>, l: Ledger) {
    SystemInv(cfg, s, l) && SizeInv(s, l) && CapacityInv(cfg, s, l)
  }

  lemma StartKeepsCounters<V>(cfg: Config, s: System<V>, l: Ledger, t: nat, call: Call<V>)
    requires CountersInv(cfg, s, l) && t in s.threads && s.threads[t].Done?
    ensures CountersInv(cfg, s.(threads := s.threads[t := StartCall(cfg, call)]), l)
  {
    hide QueueInv, Contents, OpInv, Partitioned, Filled, ThreadInv;
    StartKeepsInv(cfg, s, l, t, call);
    var threads' := s.threads[t := StartCall(cfg, call)];
    forall i: nat | i < |l.own|
      ensures Counted(threads', l.own, i) <==> Counted(s.threads, l.own, i)
    {
    }
    assert CountedSet(threads', l.own) == CountedSet(s.threads, l.own);
  }

  lemma {:induction false} ExecKeepsCounters<V>(cfg: Config, s: System<V>, l: Ledger, actions: seq<Action<V>>)
    returns (l': Ledger)
    requires CountersInv(cfg, s, l)
    ensures CountersInv(cfg, Exec(cfg, s, actions), l')
  {
    hide SystemInv, SizeInv, CapacityInv, ThreadStep, Ready;
    l' := l;
    if actions != [] {
      l' := ExecKeepsCounters(cfg, s, l, actions[..|actions| - 1]);
      var before := Exec(cfg, s, actions[..|actions| - 1]);
      var a := actions[|actions| - 1];
      if Enabled(cfg, before, a) {
        match a {
          case Start(t, call) => StartKeepsCounters(cfg, before, l', t, call);
          case Run(t, spurious) => l' := RunKeepsCounters(cfg, before, l', t, spurious);
        }
      }
    }
  }

  lemma ReachableCounters<V(!new)>(cfg: Config, s: System<V>) returns (l: Ledger)
    requires cfg.max >= 1 && Reachable(cfg, s)
    ensures CountersInv(cfg, s, l)
  {
    hide SystemInv, Exec;
    var threads, actions :| s == Exec(cfg, Initial<V>(cfg, threads), actions);
    InitialInv<V>(cfg, threads);
    var start := Ledger(seq(cfg.max, _ => InFree), None);
    assert CountedSet(Initial<V>(cfg, threads).threads, start.own) == {};
    l := ExecKeepsCounters(cfg, Initial<V>(cfg, threads), start, actions);
  }

  predicate SubtractsNext<V>(th: Thread<V>) {
    th.EvictSubSize? || th.PopSubSize? || th.ShrinkSubSize?
  }

  lemma UsedAreCounted<V>(cfg: Config, s: System<V>, l: Ledger)
    requires SystemInv(cfg, s, l)
    ensures |Contents(cfg.max, s.mem.used)| <= |CountedSet(s.threads, l.own)|
  {
    hide QueueInv, Contents, ThreadInv, FlagInv, Filled, KeptBy;
    var used, counted := Contents(cfg.max, s.mem.used), CountedSet(s.threads, l.own);
    assert Elements(used) <= counted;
    CardinalityOfSubset(Elements(used), counted);
  }

  /** In every reachable state m_size is the number of indices written but not yet read: those in
      the used queue, those added but not yet published, and those taken but not yet subtracted.
      So it never exceeds the capacity, and no fetch_sub underflows. */
  lemma SizeIsTruthful<V(!new)>(cfg: Config, s: System<V>) returns (l: Ledger)
    requires cfg.max >= 1 && Reachable(cfg, s)
    ensures SystemInv(cfg, s, l)
    ensures s.mem.size == |CountedSet(s.threads, l.own)| <= cfg.max
    ensures |Contents(cfg.max, s.mem.used)| <= s.mem.size
    ensures forall t :: t in s.threads && SubtractsNext(s.threads[t]) ==> s.mem.size >= 1
  {
    hide Reachable, QueueInv, Contents, ThreadInv, FlagInv, Filled, KeptBy;
    l := ReachableCounters(cfg, s);
    var counted := CountedSet(s.threads, l.own);
    CardinalityOfSubset(counted, Below(cfg.max));
    UsedAreCounted(cfg, s, l);
    forall t | t in s.threads && SubtractsNext(s.threads[t])
      ensures s.mem.size >= 1
    {
      assert Held(s.threads[t]).value in counted;
    }
  }

  /** What size() answers is the number of indices written but not yet read: at least the indices
      in the used queue at its load, and at most the number of cells. */
  lemma SizeAnswerIsTruthful<V(!new)>(cfg: Config, s: System<V>, t: nat, spurious: bool) returns (l: Ledger)
    requires cfg.max >= 1 && Reachable(cfg, s) && t in s.threads && s.threads[t].ReadSize?
    ensures Ready(cfg, s.mem, s.threads[t]) && SystemInv(cfg, s, l)
    ensures var th := ThreadStep(cfg, s.mem, s.threads[t], spurious).th;
      && th.Done? && th.result.HadSize?
      && th.result.size == |CountedSet(s.threads, l.own)|
      && |Contents(cfg.max, s.mem.used)| <= th.result.size <= cfg.max
  {
    hide Reachable, QueueInv, Contents, FlagInv, Filled, KeptBy, CountedSet;
    l := SizeIsTruthful(cfg, s);
    ThreadMayStep(cfg, s, l, t);
  }

  /** When setCapacity(n) is about to return true, the capacity is n and exactly
      MaxCapacity - n indices are out of service. */
  lemma ResizeIsTruthful<V>(cfg: Config, s: System<V>, l: Ledger, t: nat)
    requires CountersInv(cfg, s, l) && t in s.threads && s.threads[t].ClearFlag?
    ensures s.mem.capacity == s.threads[t].target
    ensures s.threads[t].target + |s.mem.unused| == cfg.max
  {
    hide QueueInv, Contents, OpInv, Filled, Assigned, SizeInv, Partitioned;
    assert Resizing(s.threads[t]);
  }

  /** In every reachable state capacity plus indices out of service make MaxCapacity, up to the
      one index a shrink has put away but not yet subtracted; no fetch_sub underflows. */
  lemma CapacityIsTruthful<V(!new)>(cfg: Config, s: System<V>, t: nat)
    returns (l: Ledger)
    requires cfg.max >= 1 && Reachable(cfg, s)
    ensures CountersInv(cfg, s, l)
    ensures s.mem.capacity <= cfg.max
    ensures t in s.threads && s.threads[t].ShrinkCapacity? ==> s.mem.capacity >= 1
  {
    hide Reachable, QueueInv, Contents, OpInv, Filled, Assigned, SizeInv;
    l := ReachableCounters(cfg, s);
    DistinctIndicesFit(cfg.max, KeptBy(s, l.resizer));
  }
}
