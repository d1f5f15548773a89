/**
 What the calls on SoFi return, against what they did to the buffer.

 A push that returns has stored exactly its argument, once, and hands out exactly the value it
 dropped. A pop that succeeds returns exactly the value it took, one the verificator accepts; one
 that fails saw the buffer empty, or the oldest value refused, in its last round.
*/
module SofiResults {
  import opened Options
  import opened SofiProtocol

  datatype PushLog<W> = PushLog(call: Option<seq<W>>, enqueued: seq<seq<W>>, overflowed: seq<seq<W>>)

  /** Why a round of popIf ends without a value. */
  datatype Verdict<W> = Undecided | FoundEmpty | Refused(value: seq<W>)

  datatype PopLog<!W> = PopLog(call: Option<seq<W> -> bool>, taken: seq<seq<W>>, verdict: Verdict<W>)

  function Just<W>(out: Option<seq<W>>): seq<seq<W>> {
    if out.Some? then [out.value] else []
  }

  function RecordPush<W>(log: PushLog<W>, event: Event<W>): PushLog<W> {
    match event
    case Enqueue(value) => log.(enqueued := log.enqueued + [value])
    case Overflow(value) => log.(overflowed := log.overflowed + [value])
    case _ => log
  }

  function RecordPop<W>(log: PopLog<W>, event: Event<W>): PopLog<W> {
    match event
    case Dequeue(value) => log.(taken := log.taken + [value])
    case SawEmpty => log.(verdict := FoundEmpty)
    case Ask(value) => log.(verdict := Refused(value))
    case _ => log
  }

  function NextPushLog<W>(cfg: Config, s: System<W>, a: Action<W>, log: PushLog<W>): PushLog<W> {
    if !Enabled(cfg, s, a) then log
    else match a
      case StartPush(value) => PushLog(Some(value), [], [])
      case RunProducer => RecordPush(log, EventOf(cfg, s, a))
      case _ => log
  }

  function NextPopLog<W>(cfg: Config, s: System<W>, a: Action<W>, log: PopLog<W>): PopLog<W> {
    if !Enabled(cfg, s, a) then log
    else match a
      case StartPopIf(accept) => PopLog(Some(accept), [], Undecided)
      case RunConsumer(_) => RecordPop(log, EventOf(cfg, s, a))
      case _ => log
  }

  function LogsOf<W>(cfg: Config, s: System<W>, actions: seq<Action<W>>): (PushLog<W>, PopLog<W>) {
    if actions == [] then (PushLog(None, [], []), PopLog(None, [], Undecided))
    else
      var before := actions[..|actions| - 1];
      var a, s', logs := actions[|actions| - 1], Exec(cfg, s, before), LogsOf(cfg, s, before);
      (NextPushLog(cfg, s', a, logs.0), NextPopLog(cfg, s', a, logs.1))
  }

  /** What the log of the running or latest push says at every point of it. */
  ghost predicate PushAccounts<W>(p: Producer<W>, log: PushLog<W>) {
    match p
    case Ready => log == PushLog(None, [], [])
    case Write(value, _) => log == PushLog(Some(value), [], [])
    case Publish(value) => log == PushLog(Some(value), [], [])
    case Returned(overflow) =>
      log.call.Some? && log == PushLog(log.call, [log.call.value], Just(overflow))
    case _ => log.call.Some? && log == PushLog(log.call, [log.call.value], [])
  }

  ghost predicate Failed<W>(log: PopLog<W>) {
    && log.call.Some? && log.taken == []
    && (log.verdict.FoundEmpty? || (log.verdict.Refused? && !log.call.value(log.verdict.value)))
  }

  /** What the log of the running or latest popIf says at every point of it. */
  ghost predicate PopAccounts<W>(m: Memory<W>, c: Consumer<W>, log: PopLog<W>) {
    match c
    case Waiting => log == PopLog(None, [], Undecided)
    case LoadPosition(accept) => log.call == Some(accept) && log.taken == []
    case LoadWrite(accept, r) => log.call == Some(accept) && log.taken == []
    case CopyIn(accept, r, _, _) => log.call == Some(accept) && log.taken == [] && r <= m.rd
    case Peek(accept, r, _) => log.call == Some(accept) && log.taken == [] && r <= m.rd
    case Advance(accept, r, success, out) =>
      && log.call == Some(accept) && log.taken == []
      && if success then accept(out) || r < m.rd else Failed(log)
    case Answer(popped) =>
      if popped.Some? then
        log.call.Some? && log.taken == [popped.value] && log.call.value(popped.value)
      else Failed(log)
  }

  lemma ProducerAccounts<W>(cfg: Config, s: System<W>, log: PushLog<W>)
    requires SystemInv(cfg, s) && Enabled(cfg, s, RunProducer) && PushAccounts(s.producer, log)
    ensures var r := StepProducer(cfg, s.mem, s.producer);
      PushAccounts(r.producer, RecordPush(log, r.event)) && r.mem.rd >= s.mem.rd
  {
  }

  lemma ConsumerAccounts<W>(cfg: Config, s: System<W>, spurious: bool, log: PopLog<W>)
    requires SystemInv(cfg, s) && Enabled(cfg, s, RunConsumer(spurious)) && PopAccounts(s.mem, s.consumer, log)
    ensures var r := StepConsumer(cfg, s.mem, s.consumer, spurious);
      PopAccounts(r.mem, r.consumer, RecordPop(log, r.event))
  {
    hide ProducerInv, ObserverInv, SlotAt;
  }

  lemma PopStable<W>(m: Memory<W>, m': Memory<W>, c: Consumer<W>, log: PopLog<W>)
    requires PopAccounts(m, c, log) && m.rd <= m'.rd
    ensures PopAccounts(m', c, log)
  {
  }

  lemma NextAccounts<W>(cfg: Config, s: System<W>, a: Action<W>, push: PushLog<W>, pop: PopLog<W>)
    requires SystemInv(cfg, s) && PushAccounts(s.producer, push) && PopAccounts(s.mem, s.consumer, pop)
    ensures var s' := Next(cfg, s, a);
      && PushAccounts(s'.producer, NextPushLog(cfg, s, a, push))
      && PopAccounts(s'.mem, s'.consumer, NextPopLog(cfg, s, a, pop))
  {
    hide SystemInv, StepProducer, StepConsumer, RecordPush, RecordPop;
    if Enabled(cfg, s, a) {
      match a
      case RunProducer =>
        ProducerAccounts(cfg, s, push);
        PopStable(s.mem, StepProducer(cfg, s.mem, s.producer).mem, s.consumer, pop);
      case RunConsumer(spurious) => ConsumerAccounts(cfg, s, spurious, pop);
      case _ =>
    }
  }

  /** In every run, at every moment, the running or latest push and popIf are accounted for. */
  lemma {:induction false} ResultsAreTruthful<W>(cfg: Config, data: seq<seq<W>>, actions: seq<Action<W>>)
    requires Shape(cfg, Memory(data, 0, 0))
    ensures var s, logs := Exec(cfg, Initial(data), actions), LogsOf(cfg, Initial(data), actions);
      PushAccounts(s.producer, logs.0) && PopAccounts(s.mem, s.consumer, logs.1)
    decreases |actions|
  {
    hide SystemInv, Next, NextPushLog, NextPopLog, Simulates, Trace, After, AcceptsAll;
    if actions != [] {
      var before := actions[..|actions| - 1];
      ResultsAreTruthful(cfg, data, before);
      InitialInv(cfg, data);
      ExecSimulates(cfg, Initial(data), Fifo([], None), before);
      var s, logs := Exec(cfg, Initial(data), before), LogsOf(cfg, Initial(data), before);
      NextAccounts(cfg, s, actions[|actions| - 1], logs.0, logs.1);
    }
  }
}
