/**
 What size() and empty() of SoFi answer: the answer was right at one moment of the call. The call
 and that moment are positions in the interleaving.
*/
module SofiObserver {
  import opened Options
  import opened SofiProtocol

  /** The action at `i` starts a call of the observer. */
  predicate StartsAt<W>(cfg: Config, s: System<W>, actions: seq<Action<W>>, i: nat)
    requires i < |actions|
  {
    (actions[i].StartSize? || actions[i].StartEmpty?) && Enabled(cfg, Exec(cfg, s, actions[..i]), actions[i])
  }

  /** The latest call of the observer was started by the action at `call`. */
  ghost predicate LatestCall<W>(cfg: Config, s: System<W>, actions: seq<Action<W>>, call: nat) {
    && call < |actions| && StartsAt(cfg, s, actions, call)
    && forall i :: call < i < |actions| ==> !StartsAt(cfg, s, actions, i)
  }

  /** After `moment` actions the call was running. */
  ghost predicate During<W>(cfg: Config, s: System<W>, actions: seq<Action<W>>, call: nat, moment: nat) {
    call < moment <= |actions| && !ObserverIdle(Exec(cfg, s, actions[..moment]).observer)
  }

  function MemoryAt<W>(cfg: Config, s: System<W>, actions: seq<Action<W>>, moment: nat): Memory<W>
    requires moment <= |actions|
  {
    Exec(cfg, s, actions[..moment]).mem
  }

  predicate AsksSize(o: Observer) {
    o.SizeRead? || o.SizeWrite? || o.SizeWriteAgain? || o.SizeReadAgain? || o.Size?
  }

  /** What the observer has seen of the memory at `moment`; `m` is the memory now. */
  predicate Saw<W>(past: Memory<W>, m: Memory<W>, o: Observer) {
    match o
    case SizeReadAgain(r, w) => w == past.wr && r <= past.rd <= m.rd
    case Size(n) => n == past.wr - past.rd
    case EmptyReadAgain(r, answer) => (answer <==> past.wr == r) && r <= past.rd <= m.rd && past.rd <= past.wr
    case Empty(answer) => answer <==> past.wr == past.rd
    case _ => true
  }

  predicate HasSeen(o: Observer) {
    o.SizeReadAgain? || o.Size? || o.EmptyReadAgain? || o.Empty?
  }

  ghost predicate Observed<W>(cfg: Config, s: System<W>, actions: seq<Action<W>>, call: nat, moment: nat) {
    var now := Exec(cfg, s, actions);
    !now.observer.Resting? ==>
      && LatestCall(cfg, s, actions, call) && (actions[call].StartSize? <==> AsksSize(now.observer))
      && (HasSeen(now.observer) ==>
            && During(cfg, s, actions, call, moment)
            && Saw(MemoryAt(cfg, s, actions, moment), now.mem, now.observer))
  }

  // ---------------------------------------------------------------------------------------

  /** Positions only move forward. */
  lemma NextForward<W>(cfg: Config, s: System<W>, a: Action<W>)
    requires SystemInv(cfg, s)
    ensures s.mem.rd <= Next(cfg, s, a).mem.rd
    ensures Next(cfg, s, a).observer ==
      if a.RunObserver? then StepObserver(s.mem, s.observer)
      else if a.StartSize? && Enabled(cfg, s, a) then SizeRead
      else if a.StartEmpty? && Enabled(cfg, s, a) then EmptyRead
      else s.observer
    ensures a.RunObserver? ==> Next(cfg, s, a).mem == s.mem
  {
    hide SlotAt, StepObserver;
  }

  lemma Prefixes<W>(cfg: Config, s: System<W>, actions: seq<Action<W>>, call: nat)
    requires actions != []
    ensures var before := actions[..|actions| - 1];
      && Exec(cfg, s, actions) == Next(cfg, Exec(cfg, s, before), actions[|actions| - 1])
      && (forall k: nat :: k <= |before| ==> before[..k] == actions[..k])
      && actions[..|actions|] == actions
      && (LatestCall(cfg, s, before, call) && !StartsAt(cfg, s, actions, |before|) ==> LatestCall(cfg, s, actions, call))
      && (StartsAt(cfg, s, actions, |before|) ==> LatestCall(cfg, s, actions, |before|))
  {
    hide Next, Enabled;
    var before := actions[..|actions| - 1];
    assert forall k: nat :: k <= |before| ==> before[..k] == actions[..k];
    if LatestCall(cfg, s, before, call) && !StartsAt(cfg, s, actions, |before|) {
      forall i | call < i < |actions| ensures !StartsAt(cfg, s, actions, i) {
        if i < |before| { assert !StartsAt(cfg, s, before, i); }
      }
      assert StartsAt(cfg, s, before, call);
    }
  }

  /** A step of the observer sees the memory as it is, or keeps what it has seen. */
  lemma ObserverSees<W>(m: Memory<W>, past: Memory<W>, o: Observer)
    requires m.rd <= m.wr && ObserverInv(m, o) && (HasSeen(o) ==> Saw(past, m, o))
    ensures var o' := StepObserver(m, o);
      && AsksSize(o') == AsksSize(o) && (o'.Resting? <==> o.Resting?)
      && (HasSeen(o') ==> if HasSeen(o) then Saw(past, m, o') else !ObserverIdle(o) && Saw(m, m, o'))
  {
  }

  lemma StillSaw<W>(past: Memory<W>, m: Memory<W>, m': Memory<W>, o: Observer)
    requires Saw(past, m, o) && m.rd <= m'.rd
    ensures Saw(past, m', o)
  {
  }

  /** The moment of the latest call at which it saw what it has to tell. */
  lemma {:induction false} Witness<W>(cfg: Config, s: System<W>, actions: seq<Action<W>>)
    returns (call: nat, moment: nat)
    requires SystemInv(cfg, s) && s.observer.Resting?
    requires forall k: nat :: k <= |actions| ==> SystemInv(cfg, Exec(cfg, s, actions[..k]))
    ensures Observed(cfg, s, actions, call, moment)
    decreases |actions|
  {
    call, moment := 0, 0;
    if actions != [] {
      hide SystemInv, Next, Enabled, Saw, HasSeen, StepObserver, Exec, LatestCall, StartsAt;
      var before, a := actions[..|actions| - 1], actions[|actions| - 1];
      assert forall k: nat :: k <= |before| ==> before[..k] == actions[..k];
      call, moment := Witness(cfg, s, before);
      Prefixes(cfg, s, actions, call);
      call, moment := WitnessStep(cfg, s, actions, call, moment);
    } else {
      assert Exec(cfg, s, actions) == s;
    }
  }

  lemma WitnessStep<W>(cfg: Config, s: System<W>, actions: seq<Action<W>>, call: nat, moment: nat)
    returns (call': nat, moment': nat)
    requires actions != [] && SystemInv(cfg, Exec(cfg, s, actions[..|actions| - 1]))
    requires Observed(cfg, s, actions[..|actions| - 1], call, moment)
    ensures Observed(cfg, s, actions, call', moment')
  {
    hide Next, Enabled, Saw, StepObserver, Exec, ProducerInv, ConsumerInv;
    var before, a := actions[..|actions| - 1], actions[|actions| - 1];
    var s1 := Exec(cfg, s, before);
    call', moment' := call, moment;
    Prefixes(cfg, s, actions, call);
    NextForward(cfg, s1, a);
    assert actions[..|before|] == before && (moment <= |before| ==> actions[..moment] == before[..moment]);
    assert StartsAt(cfg, s, actions, |before|) <==> (a.StartSize? || a.StartEmpty?) && Enabled(cfg, s1, a);
    if StartsAt(cfg, s, actions, |before|) {
      call' := |before|;
    } else if a.RunObserver? {
      PositionsInOrder(cfg, s1);
      var past := if HasSeen(s1.observer) then MemoryAt(cfg, s, before, moment) else s1.mem;
      ObserverSees(s1.mem, past, s1.observer);
      if !HasSeen(s1.observer) { moment' := |before|; }
    } else if HasSeen(s1.observer) {
      StillSaw(MemoryAt(cfg, s, before, moment), s1.mem, Exec(cfg, s, actions).mem, s1.observer);
    }
  }

  lemma PositionsInOrder<W>(cfg: Config, s: System<W>)
    requires SystemInv(cfg, s)
    ensures s.mem.rd <= s.mem.wr && ObserverInv(s.mem, s.observer)
  {
  }

  /** The values in the buffer after `moment` actions, going by the specification. */
  function QueueAt<W>(cfg: Config, data: seq<seq<W>>, actions: seq<Action<W>>, moment: nat): seq<seq<W>>
    requires moment <= |actions|
  {
    After(Fifo([], None), Trace(cfg, Initial(data), actions[..moment])).queue
  }

  lemma InOrderAt<W>(cfg: Config, data: seq<seq<W>>, actions: seq<Action<W>>, moment: nat)
    requires Shape(cfg, Memory(data, 0, 0)) && moment <= |actions|
    ensures SystemInv(cfg, Exec(cfg, Initial(data), actions[..moment]))
    ensures var m := MemoryAt(cfg, Initial(data), actions, moment); |QueueAt(cfg, data, actions, moment)| == m.wr - m.rd
  {
    hide Exec, After, Trace, ProducerInv, ConsumerInv, ObserverInv, SlotAt;
    InitialInv(cfg, data);
    ExecSimulates(cfg, Initial(data), Fifo([], None), actions[..moment]);
  }

  /** In every run: what size() answered was the number of values in the buffer, and what empty()
      answered was whether there was none, at one moment between the start of that call and its
      answer. */
  lemma AnswersAreTruthful<W>(cfg: Config, data: seq<seq<W>>, actions: seq<Action<W>>) returns (call: nat, moment: nat)
    requires Shape(cfg, Memory(data, 0, 0))
    ensures var o := Exec(cfg, Initial(data), actions).observer;
      o.Size? || o.Empty? ==>
        && LatestCall(cfg, Initial(data), actions, call)
        && During(cfg, Initial(data), actions, call, moment)
        && (o.Size? ==> actions[call].StartSize? && o.n == |QueueAt(cfg, data, actions, moment)|)
        && (o.Empty? ==> actions[call].StartEmpty? && (o.answer <==> QueueAt(cfg, data, actions, moment) == []))
  {
    hide SystemInv, Exec, QueueAt;
    forall k: nat | k <= |actions| ensures SystemInv(cfg, Exec(cfg, Initial(data), actions[..k])) {
      InOrderAt(cfg, data, actions, k);
    }
    InitialInv(cfg, data);
    call, moment := Witness(cfg, Initial(data), actions);
    if HasSeen(Exec(cfg, Initial(data), actions).observer) { InOrderAt(cfg, data, actions, moment); }
  }
}
