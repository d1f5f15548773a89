/**
 Any number of threads on one lock-free queue: the invariant of every reachable state.
*/
module LockFreeQueueSystem {
  import opened Options
  import opened Indices
  import opened IndexQueueProtocol
  import opened LockFreeQueueProtocol
  import opened LockFreeQueueOwnership

  datatype System<V> = System(mem: Memory<V>, threads: map<nat, Thread<V>>)

  datatype Action<V> =
    | Start(t: nat, call: Call<V>)
    | Run(t: nat, spurious: bool)

  function Initial<V>(cfg: Config, threads: set<nat>): System<V> {
    var mem := Memory(ConstructFull(cfg.max), ConstructEmpty(cfg.max), seq(cfg.max, _ => None),
                      0, cfg.max, false, []);
    System(mem, map t | t in threads :: Done(NoResult))
  }

  predicate Enabled<V>(cfg: Config, s: System<V>, a: Action<V>) {
    && a.t in s.threads
    && (a.Start? ==> s.threads[a.t].Done?)
    && (a.Run? ==> !s.threads[a.t].Done? && Ready(cfg, s.mem, s.threads[a.t]))
  }

  /** One action; scheduling a thread that has nothing to do changes nothing. */
  function Next<V>(cfg: Config, s: System<V>, a: Action<V>): System<V> {
    if !Enabled(cfg, s, a) then s
    else match a
      case Start(t, call) => s.(threads := s.threads[t := StartCall(cfg, call)])
      case Run(t, spurious) =>
        var e := ThreadStep(cfg, s.mem, s.threads[t], spurious);
        System(e.mem, s.threads[t := e.th])
  }

  /** The state after a whole interleaving. */
  function Exec<V>(cfg: Config, s: System<V>, actions: seq<Action<V>>): System<V> {
    if actions == [] then s
    else Next(cfg, Exec(cfg, s, actions[..|actions| - 1]), actions[|actions| - 1])
  }

  // ---------------------------------------------------------------------------------------
  // The invariant

  /** Bookkeeping of the proof: where each index is, and who holds the resize flag. */
  datatype Ledger = Ledger(own: seq<Place>, resizer: Option<nat>)

  function KeptBy<V>(s: System<V>, resizer: Option<nat>): seq<nat> {
    if resizer.Some? && resizer.value in s.threads then Kept(s.mem, s.threads[resizer.value]) else s.mem.unused
  }

  /** The threads own exactly the indices the ledger says they hold. */
  ghost predicate Assigned<V>(threads: map<nat, Thread<V>>, own: seq<Place>) {
    && (forall t :: t in threads && Held(threads[t]).Some? ==>
          Held(threads[t]).value < |own| && own[Held(threads[t]).value] == HeldBy(t))
    && (forall i :: 0 <= i < |own| && own[i].HeldBy? ==>
          own[i].t in threads && Held(threads[own[i].t]) == Some(i))
  }

  /** A buffer slot holds a value exactly while its index is in the used queue or on the way
      into it or out of it. */
  ghost predicate Filled<V>(buf: seq<Option<V>>, own: seq<Place>) {
    && |buf| == |own|
    && (forall i :: 0 <= i < |own| && (own[i] == InFree || own[i] == InUnused) ==> buf[i].None?)
    && (forall i :: 0 <= i < |own| && own[i] == InUsed ==> buf[i].Some?)
  }

  ghost predicate Partitioned(own: seq<Place>, free: seq<nat>, used: seq<nat>, kept: seq<nat>) {
    Holds(own, InFree, free) && Holds(own, InUsed, used) && Holds(own, InUnused, kept)
  }

  ghost predicate FlagInv<V>(s: System<V>, resizer: Option<nat>) {
    && (forall t :: t in s.threads ==> (Resizing(s.threads[t]) <==> resizer == Some(t)))
    && (resizer.Some? ==> resizer.value in s.threads)
    && s.mem.resizing == resizer.Some?
  }

  ghost predicate SystemInv<V>(cfg: Config, s: System<V>, l: Ledger) {
    && MemoryInv(cfg, s.mem)
    && |l.own| == cfg.max
    && Partitioned(l.own, Contents(cfg.max, s.mem.free), Contents(cfg.max, s.mem.used), KeptBy(s, l.resizer))
    && Assigned(s.threads, l.own)
    && Filled(s.mem.buf, l.own)
    && FlagInv(s, l.resizer)
    && forall t :: t in s.threads ==> ThreadInv(cfg, s.mem, s.threads[t])
  }

  lemma InitialInv<V>(cfg: Config, threads: set<nat>)
    requires cfg.max >= 1
    ensures SystemInv(cfg, Initial<V>(cfg, threads), Ledger(seq(cfg.max, _ => InFree), None))
  {
    hide QueueInv, Contents;
    EmptyQueue(cfg.max);
    FullQueue(cfg.max);
    var free := Contents(cfg.max, ConstructFull(cfg.max));
    forall i | 0 <= i < cfg.max ensures i in free { assert free[i] == i; }
  }

  // ---------------------------------------------------------------------------------------
  // Preservation

  /** A thread of a system in order may take its next step. */
  lemma ThreadMayStep<V>(cfg: Config, s: System<V>, l: Ledger, t: nat)
    requires SystemInv(cfg, s, l) && t in s.threads
    ensures MayStep(cfg, s.mem, s.threads[t])
    ensures Ready(cfg, s.mem, s.threads[t])
  {
    hide QueueInv, Contents, OpInv;
    var th := s.threads[t];
    if Held(th).Some? {
      var i := Held(th).value;
      RoomForTheOwner(cfg.max, Contents(cfg.max, s.mem.free), i);
      RoomForTheOwner(cfg.max, Contents(cfg.max, s.mem.used), i);
    }
  }

  function NextOwn<V>(own: seq<Place>, t: nat, th: Thread<V>, th': Thread<V>): seq<Place> {
    match (Held(th), Held(th'))
    case (None, Some(i)) => if i < |own| then own[i := HeldBy(t)] else own
    case (Some(i), None) => if i < |own| then own[i := Destination(th)] else own
    case _ => own
  }

  lemma PlacesStep<V>(own: seq<Place>, t: nat, th: Thread<V>, th': Thread<V>,
                      free: seq<nat>, used: seq<nat>, kept: seq<nat>,
                      free': seq<nat>, used': seq<nat>, kept': seq<nat>)
    requires Partitioned(own, free, used, kept)
    requires Moves(InFree, th, th', free, free')
    requires Moves(InUsed, th, th', used, used')
    requires Moves(InUnused, th, th', kept, kept')
    requires Held(th).Some? ==> Held(th).value < |own| && own[Held(th).value] == HeldBy(t)
    ensures Partitioned(NextOwn(own, t, th, th'), free', used', kept')
    ensures Held(th).None? && Held(th').Some? ==> Held(th').value < |own| && !own[Held(th').value].HeldBy?
  {
    hide Holds, Held;
    match (Held(th), Held(th')) {
      case (None, Some(i)) =>
        match Source(th) {
          case InFree => HoldsDropHead(own, InFree, free, i, free', HeldBy(t));
          case InUsed => HoldsDropHead(own, InUsed, used, i, used', HeldBy(t));
          case InUnused => HoldsDropLast(own, InUnused, kept, i, kept', HeldBy(t));
        }
        if Source(th) != InFree { HoldsElsewhere(own, InFree, free, i, HeldBy(t)); }
        if Source(th) != InUsed { HoldsElsewhere(own, InUsed, used, i, HeldBy(t)); }
        if Source(th) != InUnused { HoldsElsewhere(own, InUnused, kept, i, HeldBy(t)); }
      case (Some(i), None) =>
        var to := Destination(th);
        match to {
          case InFree => HoldsAppend(own, InFree, free, i);
          case InUsed => HoldsAppend(own, InUsed, used, i);
          case InUnused => HoldsAppend(own, InUnused, kept, i);
        }
        if to != InFree { HoldsElsewhere(own, InFree, free, i, to); }
        if to != InUsed { HoldsElsewhere(own, InUsed, used, i, to); }
        if to != InUnused { HoldsElsewhere(own, InUnused, kept, i, to); }
      case _ =>
    }
  }

  function NextResizer<V>(resizer: Option<nat>, t: nat, th': Thread<V>): Option<nat> {
    if Resizing(th') then Some(t) else if resizer == Some(t) then None else resizer
  }

  /** The resize flag: taken when it was free, and given back by its holder. */
  lemma FlagStep<V>(cfg: Config, s: System<V>, l: Ledger, t: nat, spurious: bool)
    requires SystemInv(cfg, s, l) && t in s.threads && MayStep(cfg, s.mem, s.threads[t])
    requires Ready(cfg, s.mem, s.threads[t])
    ensures var e := ThreadStep(cfg, s.mem, s.threads[t], spurious);
            var s' := System(e.mem, s.threads[t := e.th]);
            && FlagInv(s', NextResizer(l.resizer, t, e.th))
            && ((!Resizing(s.threads[t]) && KeptBy(s, l.resizer) == KeptBy(s', NextResizer(l.resizer, t, e.th)))
                || (KeptBy(s, l.resizer) == Kept(s.mem, s.threads[t])
                    && KeptBy(s', NextResizer(l.resizer, t, e.th)) == Kept(e.mem, e.th)))
  {
    hide ThreadStep, QueueInv, OpInv, Contents, MayStep, Partitioned, Assigned, Filled, ThreadInv, Ready;
    StepOnBuffer(cfg, s.mem, s.threads[t], spurious);
  }

  lemma HeldIsOwned<V>(threads: map<nat, Thread<V>>, own: seq<Place>, t: nat)
    requires Assigned(threads, own) && t in threads && Held(threads[t]).Some?
    ensures Held(threads[t]).value < |own| && own[Held(threads[t]).value] == HeldBy(t)
  {
  }

  lemma AssignedStep<V>(threads: map<nat, Thread<V>>, own: seq<Place>, t: nat, th': Thread<V>)
    requires t in threads && Assigned(threads, own)
    requires Held(threads[t]).Some? && Held(th').Some? ==> Held(th') == Held(threads[t])
    requires Held(threads[t]).None? && Held(th').Some? ==>
      Held(th').value < |own| && !own[Held(th').value].HeldBy?
    ensures Assigned(threads[t := th'], NextOwn(own, t, threads[t], th'))
  {
    hide Held;
    var threads' := threads[t := th'];
    var own' := NextOwn(own, t, threads[t], th');
    forall i | 0 <= i < |own'| && own'[i].HeldBy?
      ensures own'[i].t in threads' && Held(threads'[own'[i].t]) == Some(i)
    {
    }
  }

  lemma FilledStep<V>(cfg: Config, m: Memory<V>, own: seq<Place>, t: nat, th: Thread<V>, spurious: bool)
    requires MayStep(cfg, m, th) && Ready(cfg, m, th) && |own| == cfg.max && Filled(m.buf, own)
    requires Held(th).Some? ==> Held(th).value < |own| && own[Held(th).value] == HeldBy(t)
    ensures var e := ThreadStep(cfg, m, th, spurious); Filled(e.mem.buf, NextOwn(own, t, th, e.th))
  {
    hide ThreadStep, QueueInv, Contents, OpInv, ThreadRoom, BufferInv;
    StepOnBuffer(cfg, m, th, spurious);
    StepHandsOn(cfg, m, th, spurious);
  }

  /** An index is handed on by a step that does not touch the buffer. */
  lemma StepHandsOn<V>(cfg: Config, m: Memory<V>, th: Thread<V>, spurious: bool)
    requires Ready(cfg, m, th)
    ensures var e := ThreadStep(cfg, m, th, spurious);
      Held(th).Some? && Held(e.th).None? ==>
        && Touches(th).None?
        && (th.PushUsed? || th.PushFree? || th.GrowPush? || th.ShrinkStash?)
  {
    hide Step;
  }

  /** One step of one thread keeps every thread's invariant. */
  lemma ThreadsStep<V>(cfg: Config, s: System<V>, l: Ledger, t: nat, spurious: bool, u: nat)
    requires SystemInv(cfg, s, l) && t in s.threads && u in s.threads
    requires Ready(cfg, s.mem, s.threads[t])
    ensures var e := ThreadStep(cfg, s.mem, s.threads[t], spurious);
            && Shaped(cfg, e.mem)
            && ThreadInv(cfg, e.mem, if u == t then e.th else s.threads[u])
  {
    hide ThreadStep, QueueInv, Contents, OpInv, ThreadInv, Partitioned, Filled, MayStep, Ready, KeptBy;
    ThreadMayStep(cfg, s, l, t);
    if u == t {
      ThreadMoves(cfg, s.mem, s.threads[t], spurious);
    } else {
      OthersUndisturbed(cfg, s.mem, s.threads[t], spurious, s.threads[u]);
    }
  }

  lemma RunKeepsInv<V>(cfg: Config, s: System<V>, l: Ledger, t: nat, spurious: bool) returns (l': Ledger)
    requires SystemInv(cfg, s, l) && t in s.threads && Ready(cfg, s.mem, s.threads[t])
    ensures var e := ThreadStep(cfg, s.mem, s.threads[t], spurious);
            && l' == Ledger(NextOwn(l.own, t, s.threads[t], e.th), NextResizer(l.resizer, t, e.th))
            && SystemInv(cfg, System(e.mem, s.threads[t := e.th]), l')
  {
    hide ThreadStep, QueueInv, Contents, OpInv, ThreadInv, Partitioned, Filled, MayStep, Assigned, FlagInv;
    hide Held, Ready, KeptBy;
    ThreadMayStep(cfg, s, l, t);
    var th := s.threads[t];
    var e := ThreadStep(cfg, s.mem, th, spurious);
    var s' := System(e.mem, s.threads[t := e.th]);
    l' := Ledger(NextOwn(l.own, t, th, e.th), NextResizer(l.resizer, t, e.th));
    ThreadMoves(cfg, s.mem, th, spurious);
    FlagStep(cfg, s, l, t, spurious);
    if Held(th).Some? { HeldIsOwned(s.threads, l.own, t); }
    assert Moves(InUnused, th, e.th, KeptBy(s, l.resizer), KeptBy(s', l'.resizer));
    PlacesStep(l.own, t, th, e.th,
      Contents(cfg.max, s.mem.free), Contents(cfg.max, s.mem.used), KeptBy(s, l.resizer),
      Contents(cfg.max, e.mem.free), Contents(cfg.max, e.mem.used), KeptBy(s', l'.resizer));
    AssignedStep(s.threads, l.own, t, e.th);
    FilledStep(cfg, s.mem, l.own, t, th, spurious);
    forall u | u in s'.threads ensures ThreadInv(cfg, s'.mem, s'.threads[u]) {
      ThreadsStep(cfg, s, l, t, spurious, u);
    }
  }

  lemma StartKeepsInv<V>(cfg: Config, s: System<V>, l: Ledger, t: nat, call: Call<V>)
    requires SystemInv(cfg, s, l) && t in s.threads && s.threads[t].Done?
    ensures SystemInv(cfg, s.(threads := s.threads[t := StartCall(cfg, call)]), l)
  {
    hide QueueInv, Contents, OpInv, Partitioned, Filled, ThreadInv, KeptBy, StartCall;
    StartedThread(cfg, s.mem, call);
    var s' := s.(threads := s.threads[t := StartCall(cfg, call)]);
    StartKeepsKept(cfg, s, l, t, call);
    assert forall u :: u in s.threads && u != t ==> s'.threads[u] == s.threads[u];
  }

  lemma StartedThread<V>(cfg: Config, m: Memory<V>, call: Call<V>)
    requires MemoryInv(cfg, m)
    ensures var th := StartCall(cfg, call); ThreadInv(cfg, m, th) && Held(th).None? && !Resizing(th)
  {
    hide QueueInv, OpInv;
    CallsStart(cfg.max, m.free, 0, 0);
    CallsStart(cfg.max, m.used, 0, 0);
  }

  lemma StartKeepsKept<V>(cfg: Config, s: System<V>, l: Ledger, t: nat, call: Call<V>)
    requires FlagInv(s, l.resizer) && t in s.threads && s.threads[t].Done?
    ensures KeptBy(s.(threads := s.threads[t := StartCall(cfg, call)]), l.resizer) == KeptBy(s, l.resizer)
  {
    hide StartCall;
  }

  /** Every action of every thread keeps the system in order. */
  lemma NextKeepsInv<V>(cfg: Config, s: System<V>, l: Ledger, a: Action<V>) returns (l': Ledger)
    requires SystemInv(cfg, s, l)
    ensures SystemInv(cfg, Next(cfg, s, a), l')
  {
    hide SystemInv, Ready, ThreadStep;
    l' := l;
    if Enabled(cfg, s, a) {
      match a {
        case Start(t, call) => StartKeepsInv(cfg, s, l, t, call);
        case Run(t, spurious) => l' := RunKeepsInv(cfg, s, l, t, spurious);
      }
    }
  }

  /** A state that some interleaving of some calls leads to. */
  ghost predicate Reachable<V(!new)>(cfg: Config, s: System<V>) {
    exists threads, actions :: s == Exec(cfg, Initial<V>(cfg, threads), actions)
  }

  lemma {:induction false} ExecKeepsInv<V>(cfg: Config, s: System<V>, l: Ledger, actions: seq<Action<V>>)
    returns (l': Ledger)
    requires SystemInv(cfg, s, l)
    ensures SystemInv(cfg, Exec(cfg, s, actions), l')
  {
    hide SystemInv, Next;
    if actions == [] {
      l' := l;
    } else {
      l' := ExecKeepsInv(cfg, s, l, actions[..|actions| - 1]);
      l' := NextKeepsInv(cfg, Exec(cfg, s, actions[..|actions| - 1]), l', actions[|actions| - 1]);
    }
  }

  lemma ReachableInv<V(!new)>(cfg: Config, s: System<V>) returns (l: Ledger)
    requires cfg.max >= 1 && Reachable(cfg, s)
    ensures SystemInv(cfg, s, l)
  {
    hide SystemInv, Initial, Exec;
    var threads, actions :| s == Exec(cfg, Initial<V>(cfg, threads), actions);
    InitialInv<V>(cfg, threads);
    l := ExecKeepsInv(cfg, Initial<V>(cfg, threads), Ledger(seq(cfg.max, _ => InFree), None), actions);
  }

  // ---------------------------------------------------------------------------------------
  // What conservation gives

  /** The places an index is in, counted over the two queues, the unused list and the threads. */
  ghost predicate InPlace<V>(cfg: Config, s: System<V>, resizer: Option<nat>, i: nat, p: Place)
    requires MemoryInv(cfg, s.mem)
  {
    match p
    case InFree => i in Contents(cfg.max, s.mem.free)
    case InUsed => i in Contents(cfg.max, s.mem.used)
    case InUnused => i in KeptBy(s, resizer)
    case HeldBy(t) => t in s.threads && Held(s.threads[t]) == Some(i)
  }

  lemma PlaceOf<V>(cfg: Config, s: System<V>, l: Ledger, i: nat, p: Place)
    requires SystemInv(cfg, s, l)
    ensures InPlace(cfg, s, l.resizer, i, p) <==> i < cfg.max && l.own[i] == p
  {
    hide QueueInv, Contents, KeptBy, ThreadInv, Filled, FlagInv;
    if p.HeldBy? && InPlace(cfg, s, l.resizer, i, p) { assert Held(s.threads[p.t]) == Some(i); }
  }

  /** In every reachable state every index is in exactly one place, and never twice in a list. */
  lemma ExactlyOnePlace<V(!new)>(cfg: Config, s: System<V>) returns (l: Ledger)
    requires cfg.max >= 1 && Reachable(cfg, s)
    ensures MemoryInv(cfg, s.mem) && |l.own| == cfg.max
    ensures NoDuplicates(Contents(cfg.max, s.mem.free)) && NoDuplicates(Contents(cfg.max, s.mem.used))
    ensures NoDuplicates(KeptBy(s, l.resizer)) && FlagInv(s, l.resizer)
    ensures forall i: nat, p: Place :: InPlace(cfg, s, l.resizer, i, p) <==> i < cfg.max && l.own[i] == p
  {
    l := ReachableInv(cfg, s);
    hide QueueInv, Contents, KeptBy, ThreadInv, Filled, FlagInv, InPlace;
    forall i: nat, p: Place
      ensures InPlace(cfg, s, l.resizer, i, p) <==> i < cfg.max && l.own[i] == p
    {
      PlaceOf(cfg, s, l, i, p);
    }
  }

  /** Neither index queue ever holds more indices than it has cells. */
  lemma NeverOverflows<V(!new)>(cfg: Config, s: System<V>)
    requires cfg.max >= 1 && Reachable(cfg, s)
    ensures MemoryInv(cfg, s.mem)
    ensures |Contents(cfg.max, s.mem.free)| + |Contents(cfg.max, s.mem.used)| <= cfg.max
  {
    hide QueueInv, Contents, KeptBy, ThreadInv, Filled, FlagInv, Reachable;
    var l := ReachableInv(cfg, s);
    var free, used := Contents(cfg.max, s.mem.free), Contents(cfg.max, s.mem.used);
    DistinctConcat(free, used);
    DistinctIndicesFit(cfg.max, free + used);
  }

  /** No two threads are ever about to touch the same buffer slot, nor does any thread touch a
      slot whose index is in a queue. */
  lemma NoRaceOnTheBuffer<V(!new)>(cfg: Config, s: System<V>, t: nat, u: nat)
    requires cfg.max >= 1 && Reachable(cfg, s)
    requires t in s.threads && u in s.threads && t != u
    requires Touches(s.threads[t]).Some?
    ensures Touches(s.threads[u]) != Touches(s.threads[t])
    ensures MemoryInv(cfg, s.mem)
    ensures Touches(s.threads[t]).value !in Contents(cfg.max, s.mem.free)
    ensures Touches(s.threads[t]).value !in Contents(cfg.max, s.mem.used)
  {
    var l := ReachableInv(cfg, s);
    hide QueueInv, Contents, KeptBy, ThreadInv, Filled, FlagInv;
  }

  predicate Reads<V>(th: Thread<V>) {
    th.EvictMove? || th.PopMove? || th.ShrinkMove?
  }

  lemma SlotState<V>(cfg: Config, s: System<V>, l: Ledger, t: nat)
    requires SystemInv(cfg, s, l) && t in s.threads && Ready(cfg, s.mem, s.threads[t])
    ensures var th := s.threads[t];
      && (Reads(th) ==> s.mem.buf[th.i].Some?)
      && (th.WriteSlot? ==> s.mem.buf[th.i].None?)
  {
    hide MemoryInv, Assigned, Filled, Partitioned, FlagInv, KeptBy, OpInv;
    assert ThreadInv(cfg, s.mem, s.threads[t]);
  }

  /** No thread ever reads a slot whose element is destroyed or constructs over a live one. */
  lemma SlotsAreReady<V(!new)>(cfg: Config, s: System<V>, t: nat)
    requires cfg.max >= 1 && Reachable(cfg, s) && t in s.threads
    ensures Ready(cfg, s.mem, s.threads[t])
    ensures Reads(s.threads[t]) ==> s.mem.buf[s.threads[t].i].Some?
    ensures s.threads[t].WriteSlot? ==> s.mem.buf[s.threads[t].i].None?
  {
    hide SystemInv, Ready, Reachable;
    AlwaysReady(cfg, s, t);
    var l := ReachableInv(cfg, s);
    SlotState(cfg, s, l, t);
  }

  /** No thread of a reachable state is stuck. */
  lemma AlwaysReady<V(!new)>(cfg: Config, s: System<V>, t: nat)
    requires cfg.max >= 1 && Reachable(cfg, s) && t in s.threads
    ensures Ready(cfg, s.mem, s.threads[t])
  {
    hide SystemInv, Ready, Reachable;
    var l := ReachableInv(cfg, s);
    ThreadMayStep(cfg, s, l, t);
  }
}
