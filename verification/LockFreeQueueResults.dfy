/**
 What a call returns, against what it did to the queue of values.

 The log of a thread's running, or latest, call says which call it is, which values it has put
 into the queue, which it has taken out of it as the oldest, and which it has read out of the
 buffer. A push that returns has enqueued exactly its argument, once, and returns exactly the value
 it took; a pop returns exactly the value it took; a resize hands exactly the values it took to
 the remove handler, in order; a call that reports failure has done none of these.
*/
module LockFreeQueueResults {
  import opened Options
  import opened IndexQueueProtocol
  import opened LockFreeQueueProtocol
  import opened LockFreeQueueOwnership
  import opened LockFreeQueueSystem
  import opened LockFreeQueueFifo

  datatype Log<V> = Log(call: Option<Call<V>>, enqueued: seq<V>, taken: seq<V>, delivered: seq<Option<V>>)

  function NewLog<V>(call: Option<Call<V>>): Log<V> { Log(call, [], [], []) }

  /** `queue` is the abstract queue before the event. */
  function Record<V>(log: Log<V>, event: QueueEvent<V>, queue: seq<V>): Log<V> {
    match event
    case Enqueue(v) => log.(enqueued := log.enqueued + [v])
    case Dequeue => if queue == [] then log else log.(taken := log.taken + [queue[0]])
    case Deliver(out) => log.(delivered := log.delivered + [out])
    case Tau => log
  }

  /** The log of thread `t` after one more action. */
  function NextLog<V>(cfg: Config, s: System<V>, f: Fifo<V>, a: Action<V>, t: nat, log: Log<V>): Log<V> {
    if a.t != t || !Enabled(cfg, s, a) then log
    else if a.Start? then NewLog(Some(a.call))
    else Record(log, EventOf(cfg, s, a), f.queue)
  }

  function LogOf<V>(cfg: Config, s: System<V>, f: Fifo<V>, actions: seq<Action<V>>, t: nat): Log<V> {
    if actions == [] then NewLog(None)
    else
      var before := actions[..|actions| - 1];
      NextLog(cfg, Exec(cfg, s, before), After(f, Trace(cfg, s, before)), actions[|actions| - 1], t,
              LogOf(cfg, s, f, before, t))
  }

  function Just<V>(out: Option<V>): seq<Option<V>> {
    if out.Some? then [out] else []
  }

  /** The call is a push of `v`, and an evicting one if it has evicted. */
  ghost predicate IsPush<V>(call: Option<Call<V>>, v: V, evicted: Option<V>) {
    call == Some(Push(v)) || (call == Some(TryPush(v)) && evicted.None?)
  }

  predicate IsResize<V>(call: Option<Call<V>>) {
    call.Some? && call.value.SetCapacity?
  }

  predicate IsQuery<V>(call: Option<Call<V>>) {
    call.Some? && (call.value.AskEmpty? || call.value.AskSize?)
  }

  /** What the log says at every point of a call about what was stored and read. */
  ghost predicate Accounts<V>(th: Thread<V>, log: Log<V>) {
    match th
    case Done(NoResult) => log == NewLog(None)
    case Done(Refused) => log.call.Some? && log.call.value.TryPush? && log.enqueued == [] && log.delivered == []
    case Done(Stored(evicted)) =>
      && log.call.Some? && (log.call.value.Push? || (log.call.value.TryPush? && evicted.None?))
      && log.enqueued == [log.call.value.v] && log.delivered == Just(evicted)
    case Done(Popped(out)) => log.call == Some(Call.Pop) && log.enqueued == [] && log.delivered == Just(out)
    case Done(CapacitySet(ok)) => IsResize(log.call) && log.enqueued == [] && (!ok ==> log.delivered == [])
    case Done(WasEmpty(_)) => IsQuery(log.call) && log.enqueued == [] && log.delivered == []
    case Done(HadSize(_)) => IsQuery(log.call) && log.enqueued == [] && log.delivered == []
    case TakeFree(v, retry, _) => Nothing(log, if retry then Push(v) else TryPush(v))
    case LoadCapacity(v) => Nothing(log, Push(v))
    case Evict(v, _) => Nothing(log, Push(v))
    case EvictSubSize(v, _) => Nothing(log, Push(v))
    case EvictMove(v, _) => Nothing(log, Push(v))
    case WriteSlot(v, _, evicted) =>
      IsPush(log.call, v, evicted) && log.enqueued == [] && log.delivered == Just(evicted)
    case AddSize(v, _, evicted) =>
      IsPush(log.call, v, evicted) && log.enqueued == [] && log.delivered == Just(evicted)
    case PushUsed(v, _, evicted, op) =>
      && IsPush(log.call, v, evicted) && (Publishing(op) || op.PushFinish?)
      && log.enqueued == (if Publishing(op) then [] else [v]) && log.delivered == Just(evicted)
    case TakeUsed(_) => Nothing(log, Call.Pop)
    case PopSubSize(_) => Nothing(log, Call.Pop)
    case PopMove(_) => Nothing(log, Call.Pop)
    case PushFree(_, out, _) =>
      out.Some? && log.call == Some(Call.Pop) && log.enqueued == [] && log.delivered == [out]
    case ReadEmpty(_) => Nothing(log, AskEmpty)
    case ReadSize => Nothing(log, AskSize)
    case TakeFlag(n) => Nothing(log, SetCapacity(n))
    case _ => IsResize(log.call) && log.enqueued == []
  }

  ghost predicate Nothing<V>(log: Log<V>, call: Call<V>) {
    log.call == Some(call) && log.enqueued == [] && log.delivered == []
  }

  /** What was taken has been delivered, in order, but for the value about to be read. */
  ghost predicate TakenAccounts<V>(f: Fifo<V>, t: nat, log: Log<V>) {
    Somes(log.taken) == log.delivered + (if t in f.taken then [Some(f.taken[t])] else [])
  }

  // ---------------------------------------------------------------------------------------
  // Step by step

  lemma PushUsedAccounts<V>(cfg: Config, m: Memory<V>, th: Thread<V>, spurious: bool, log: Log<V>, queue: seq<V>)
    requires Ready(cfg, m, th) && th.PushUsed? && Accounts(th, log)
    ensures var e := ThreadStep(cfg, m, th, spurious); Accounts(e.th, Record(log, e.event, queue))
  {
    hide Step, StepTakeFree, StepEvict;
    StepKinds(cfg.max, m.used, th.op, spurious);
  }

  lemma PushAccounts<V>(cfg: Config, m: Memory<V>, th: Thread<V>, spurious: bool, log: Log<V>, queue: seq<V>)
    requires Ready(cfg, m, th) && PushCall(th) && Accounts(th, log)
    requires th.EvictMove? ==> m.buf[th.i].Some?
    ensures var e := ThreadStep(cfg, m, th, spurious); Accounts(e.th, Record(log, e.event, queue))
  {
    hide Step, StepPushUsed;
    if th.PushUsed? { PushUsedAccounts(cfg, m, th, spurious, log, queue); }
  }

  lemma PopAccounts<V>(cfg: Config, m: Memory<V>, th: Thread<V>, spurious: bool, log: Log<V>, queue: seq<V>)
    requires Ready(cfg, m, th) && (PopCall(th) || QueryCall(th)) && Accounts(th, log)
    requires th.PopMove? ==> m.buf[th.i].Some?
    ensures var e := ThreadStep(cfg, m, th, spurious); Accounts(e.th, Record(log, e.event, queue))
  {
    hide Step;
  }

  lemma ResizeAccounts<V>(cfg: Config, m: Memory<V>, th: Thread<V>, spurious: bool, log: Log<V>, queue: seq<V>)
    requires Ready(cfg, m, th) && ResizeCall(th) && Accounts(th, log)
    ensures var e := ThreadStep(cfg, m, th, spurious); Accounts(e.th, Record(log, e.event, queue))
  {
    hide Step;
  }

  lemma StartAccounts<V>(cfg: Config, call: Call<V>)
    ensures Accounts(StartCall(cfg, call), NewLog(Some(call)))
  {
  }

  lemma NextAccounts<V>(cfg: Config, s: System<V>, l: Ledger, f: Fifo<V>, a: Action<V>, t: nat, log: Log<V>)
    requires SystemInv(cfg, s, l) && t in s.threads && Accounts(s.threads[t], log)
    ensures t in Next(cfg, s, a).threads
    ensures Accounts(Next(cfg, s, a).threads[t], NextLog(cfg, s, f, a, t, log))
  {
    hide SystemInv, Accounts, ThreadStep, StartCall, Record;
    if a.t == t && Enabled(cfg, s, a) {
      var th := s.threads[t];
      if a.Start? {
        StartAccounts(cfg, a.call);
      } else {
        SlotState(cfg, s, l, t);
        if PushCall(th) { PushAccounts(cfg, s.mem, th, a.spurious, log, f.queue); }
        else if ResizeCall(th) { ResizeAccounts(cfg, s.mem, th, a.spurious, log, f.queue); }
        else { PopAccounts(cfg, s.mem, th, a.spurious, log, f.queue); }
      }
    }
  }

  /** An action of another thread, or a start, takes nothing for `t`. */
  lemma NextTaken<V>(cfg: Config, s: System<V>, f: Fifo<V>, a: Action<V>, t: nat, log: Log<V>)
    requires MemoryInv(cfg, s.mem) && Simulates(cfg, s, f) && t in s.threads && TakenAccounts(f, t, log)
    requires Accepts(f, a.t, EventOf(cfg, s, a))
    ensures TakenAccounts(Apply(f, a.t, EventOf(cfg, s, a)), t, NextLog(cfg, s, f, a, t, log))
  {
    hide Matches, ThreadStep;
    if a.t == t && Enabled(cfg, s, a) && a.Start? {
      assert CarriesMatch(s.mem.buf, s.threads[t], t, f.taken);
    } else if a.t == t && EventOf(cfg, s, a).Dequeue? {
      SomesAppend(log.taken, f.queue[0]);
    }
  }

  lemma {:induction false} ExecAccounts<V>(cfg: Config, s: System<V>, l: Ledger, f: Fifo<V>,
                                           actions: seq<Action<V>>, t: nat)
    returns (l': Ledger)
    requires SystemInv(cfg, s, l) && Simulates(cfg, s, f) && t in s.threads && t !in f.taken
    requires Accounts(s.threads[t], NewLog(None))
    ensures var s', f' := Exec(cfg, s, actions), After(f, Trace(cfg, s, actions));
      && SystemInv(cfg, s', l') && Simulates(cfg, s', f') && t in s'.threads
      && Accounts(s'.threads[t], LogOf(cfg, s, f, actions, t))
      && TakenAccounts(f', t, LogOf(cfg, s, f, actions, t))
  {
    hide SystemInv, Simulates, Next, Accounts, NextLog, TakenAccounts, EventOf, Apply, Accepts;
    if actions == [] {
      l' := l;
      NothingTaken(f, t);
    } else {
      var before, a := actions[..|actions| - 1], actions[|actions| - 1];
      l' := ExecAccounts(cfg, s, l, f, before, t);
      var s', f' := Exec(cfg, s, before), After(f, Trace(cfg, s, before));
      var log := LogOf(cfg, s, f, before, t);
      NextAccounts(cfg, s', l', f', a, t, log);
      NextSimulates(cfg, s', l', f', a);
      SystemHasMemory(cfg, s', l');
      NextTaken(cfg, s', f', a, t, log);
      l' := NextKeepsInv(cfg, s', l', a);
      assert Trace(cfg, s, actions)[..|actions| - 1] == Trace(cfg, s, before);
    }
  }

  lemma NothingTaken<V>(f: Fifo<V>, t: nat)
    requires t !in f.taken
    ensures TakenAccounts(f, t, NewLog(None))
  {
  }

  /** A thread between calls has read everything it took. */
  lemma AllDelivered<V>(cfg: Config, s: System<V>, f: Fifo<V>, t: nat, log: Log<V>)
    requires MemoryInv(cfg, s.mem) && Simulates(cfg, s, f) && t in s.threads && s.threads[t].Done?
    requires TakenAccounts(f, t, log)
    ensures log.delivered == Somes(log.taken)
  {
    hide Matches;
    assert CarriesMatch(s.mem.buf, s.threads[t], t, f.taken);
  }

  /** In every run, at every moment, every thread's call is accounted for. Once it is done, what it
      delivered, to its caller or to the remove handler, are exactly the values it took out of the
      queue, in order; a push that returned has enqueued its argument, and a call that failed has
      neither enqueued nor taken anything. */
  lemma ResultsAreTruthful<V>(cfg: Config, threads: set<nat>, actions: seq<Action<V>>, t: nat)
    requires cfg.max >= 1 && t in threads
    ensures var s, log := Exec(cfg, Initial<V>(cfg, threads), actions),
                          LogOf(cfg, Initial<V>(cfg, threads), Fifo([], map[]), actions, t);
      && t in s.threads && Accounts(s.threads[t], log)
      && (s.threads[t].Done? ==> log.delivered == Somes(log.taken))
      && (s.threads[t] == Done(CapacitySet(false)) || s.threads[t] == Done(Refused) ==> log.taken == [])
  {
    var start: Fifo<V> := Fifo([], map[]);
    StartSimulates<V>(cfg, threads);
    hide SystemInv, Exec, LogOf, Simulates, Initial, TakenAccounts, Trace, After, Accounts, Somes, MemoryInv;
    InitialInv<V>(cfg, threads);
    StartHasNoLog<V>(cfg, threads, t);
    var l := ExecAccounts(cfg, Initial<V>(cfg, threads), Ledger(seq(cfg.max, _ => InFree), None), start, actions, t);
    var s := Exec(cfg, Initial<V>(cfg, threads), actions);
    var log := LogOf(cfg, Initial<V>(cfg, threads), start, actions, t);
    if s.threads[t].Done? {
      SystemHasMemory(cfg, s, l);
      AllDelivered(cfg, s, After(start, Trace(cfg, Initial<V>(cfg, threads), actions)), t, log);
      FailureTakesNothing(s.threads[t], log);
    }
  }

  lemma FailureTakesNothing<V>(th: Thread<V>, log: Log<V>)
    requires Accounts(th, log) && log.delivered == Somes(log.taken)
    ensures th == Done(CapacitySet(false)) || th == Done(Refused) ==> log.taken == []
  {
  }

  lemma SystemHasMemory<V>(cfg: Config, s: System<V>, l: Ledger)
    requires SystemInv(cfg, s, l)
    ensures MemoryInv(cfg, s.mem)
  {
  }

  lemma StartHasNoLog<V>(cfg: Config, threads: set<nat>, t: nat)
    requires t in threads
    ensures t in Initial<V>(cfg, threads).threads
    ensures Accounts(Initial<V>(cfg, threads).threads[t], NewLog(None))
  {
  }

  lemma StartSimulates<V>(cfg: Config, threads: set<nat>)
    requires cfg.max >= 1
    ensures MemoryInv(cfg, Initial<V>(cfg, threads).mem)
    ensures Simulates(cfg, Initial<V>(cfg, threads), Fifo([], map[]))
  {
    hide QueueInv, Contents;
    EmptyQueue(cfg.max);
    FullQueue(cfg.max);
  }

  // ---------------------------------------------------------------------------------------
  // Failures

  /** What the state says when thread `t` answers: a refused push found no free index, a failing pop
      and a positive empty() found no value, size() gives the counter, and a resize is refused for its
      argument, or because another thread is resizing. */
  ghost predicate Justified<V>(cfg: Config, s: System<V>, a: Action<V>, result: Result<V>)
    requires MemoryInv(cfg, s.mem) && a.t in s.threads
  {
    var free, used := Contents(cfg.max, s.mem.free), Contents(cfg.max, s.mem.used);
    match result
    case Refused => a.Run? && free == []
    case Popped(out) => a.Run? && (s.threads[a.t].PushFree? || (out == None && used == []))
    case WasEmpty(answer) => a.Run? && (answer ==> used == [])
    case HadSize(n) => a.Run? && n == s.mem.size
    case CapacitySet(ok) =>
      if a.Start? then !ok && a.call.SetCapacity? && (!cfg.resizeable || a.call.n > cfg.max)
      else ok || exists u :: u in s.threads && u != a.t && Resizing(s.threads[u])
    case Stored(_) => a.Run?
    case NoResult => false
  }

  lemma StartJustified<V>(cfg: Config, s: System<V>, a: Action<V>)
    requires MemoryInv(cfg, s.mem) && a.Start? && a.t in s.threads && StartCall(cfg, a.call).Done?
    ensures Justified(cfg, s, a, StartCall(cfg, a.call).result)
  {
    hide Contents, QueueInv;
  }

  lemma PushJustified<V>(cfg: Config, s: System<V>, l: Ledger, a: Action<V>)
    requires SystemInv(cfg, s, l) && a.Run? && Enabled(cfg, s, a)
    requires ThreadStep(cfg, s.mem, s.threads[a.t], a.spurious).th.Done?
    requires PushCall(s.threads[a.t]) || PopCall(s.threads[a.t])
    ensures Justified(cfg, s, a, ThreadStep(cfg, s.mem, s.threads[a.t], a.spurious).th.result)
  {
    hide QueueInv, Contents, OpInv, KeptBy, FlagInv, Filled, Assigned, Partitioned, Step;
    var th := s.threads[a.t];
    assert ThreadInv(cfg, s.mem, th);
    if th.TakeUsed? && Step(cfg.max, s.mem.used, th.op, a.spurious).op.NotGot? {
      EmptyIsTruthful(cfg.max, s.mem.used, th.op, a.spurious);
    }
    if th.TakeFree? && Step(cfg.max, s.mem.free, th.op, a.spurious).op.NotGot? {
      EmptyIsTruthful(cfg.max, s.mem.free, th.op, a.spurious);
    }
  }

  lemma QueryJustified<V>(cfg: Config, s: System<V>, l: Ledger, a: Action<V>)
    requires SystemInv(cfg, s, l) && a.Run? && Enabled(cfg, s, a)
    requires ThreadStep(cfg, s.mem, s.threads[a.t], a.spurious).th.Done? && QueryCall(s.threads[a.t])
    ensures Justified(cfg, s, a, ThreadStep(cfg, s.mem, s.threads[a.t], a.spurious).th.result)
  {
    hide QueueInv, Contents, OpInv, KeptBy, FlagInv, Filled, Assigned, Partitioned, Step;
    var th := s.threads[a.t];
    assert ThreadInv(cfg, s.mem, th);
    if th.ReadEmpty? && Step(cfg.max, s.mem.used, th.op, a.spurious).op == EmptyIs(true) {
      EmptyIsTruthful(cfg.max, s.mem.used, th.op, a.spurious);
    }
  }

  lemma ResizeJustified<V>(cfg: Config, s: System<V>, l: Ledger, a: Action<V>)
    requires SystemInv(cfg, s, l) && a.Run? && Enabled(cfg, s, a)
    requires ThreadStep(cfg, s.mem, s.threads[a.t], a.spurious).th.Done? && ResizeCall(s.threads[a.t])
    ensures Justified(cfg, s, a, ThreadStep(cfg, s.mem, s.threads[a.t], a.spurious).th.result)
  {
    hide QueueInv, Contents, OpInv, KeptBy, Filled, Assigned, Partitioned, Step, ThreadInv;
  }

  /** Every answer given in a reachable state is justified by that state. In particular a resize is
      refused only for a capacity out of range, by a queue that cannot be resized, or while another
      thread holds the flag. */
  lemma AnswersAreJustified<V(!new)>(cfg: Config, s: System<V>, a: Action<V>)
    requires cfg.max >= 1 && Reachable(cfg, s) && Enabled(cfg, s, a)
    ensures MemoryInv(cfg, s.mem) && a.t in Next(cfg, s, a).threads
    ensures Next(cfg, s, a).threads[a.t].Done? ==> Justified(cfg, s, a, Next(cfg, s, a).threads[a.t].result)
  {
    hide Reachable, SystemInv, ThreadStep, StartCall, Justified, MemoryInv, Ready;
    var l := ReachableInv(cfg, s);
    SystemHasMemory(cfg, s, l);
    if Next(cfg, s, a).threads[a.t].Done? {
      if a.Start? { StartJustified(cfg, s, a); }
      else if PushCall(s.threads[a.t]) || PopCall(s.threads[a.t]) { PushJustified(cfg, s, l, a); }
      else if QueryCall(s.threads[a.t]) { QueryJustified(cfg, s, l, a); }
      else { ResizeJustified(cfg, s, l, a); }
    }
  }
}
