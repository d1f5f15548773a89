/**
 What each call on SoFi does when no other thread runs: it returns within a bounded number of
 steps, with exactly this answer and these values left, wherever the other threads stand.
*/
module SofiAlone {
  import opened Options
  import opened SofiProtocol

  /** The state after one thread has taken `n` steps. */
  function Alone<W>(cfg: Config, s: System<W>, a: Action<W>, n: nat): System<W>
    decreases n
  {
    if n == 0 then s else Alone(cfg, Next(cfg, s, a), a, n - 1)
  }

  /** A system in order, whose buffer holds the values of `f`. */
  ghost predicate Holds<W>(cfg: Config, s: System<W>, f: Fifo<W>) {
    SystemInv(cfg, s) && Simulates(cfg, s, f)
  }

  function Just<T>(out: Option<T>): seq<T> {
    if out.Some? then [out.value] else []
  }

  // ---------------------------------------------------------------------------------------
  // size and empty

  /** size() alone answers the number of values after four steps, and empty() whether there are
      none after three. */
  lemma ObserverAlone<W>(cfg: Config, s: System<W>, f: Fifo<W>)
    requires Holds(cfg, s, f) && ObserverIdle(s.observer)
    ensures Alone(cfg, Next(cfg, s, StartSize), RunObserver, 4) == s.(observer := Size(|f.queue|))
    ensures Alone(cfg, Next(cfg, s, StartEmpty), RunObserver, 3) == s.(observer := Empty(f.queue == []))
  {
    hide SystemInv, Alone, SlotAt;
    Shaped(cfg, s, f);
    Observes(cfg, s, SizeRead, 4);
    Observes(cfg, s, SizeWrite(s.mem.rd), 3);
    Observes(cfg, s, SizeWriteAgain(s.mem.rd, s.mem.wr), 2);
    Observes(cfg, s, SizeReadAgain(s.mem.rd, s.mem.wr), 1);
    Observes(cfg, s, Size(|f.queue|), 0);
    Observes(cfg, s, EmptyRead, 3);
    Observes(cfg, s, EmptyWrite(s.mem.rd), 2);
    Observes(cfg, s, EmptyReadAgain(s.mem.rd, f.queue == []), 1);
    Observes(cfg, s, Empty(f.queue == []), 0);
  }

  lemma Shaped<W>(cfg: Config, s: System<W>, f: Fifo<W>)
    requires Holds(cfg, s, f)
    ensures Shape(cfg, s.mem)
  {
  }

  lemma Observes<W>(cfg: Config, s: System<W>, o: Observer, n: nat)
    requires Shape(cfg, s.mem)
    ensures Alone(cfg, s.(observer := o), RunObserver, n)
         == if n == 0 then s.(observer := o)
            else Alone(cfg, s.(observer := StepObserver(s.mem, o)), RunObserver, n - 1)
  {
    hide StepObserver;
  }

  // ---------------------------------------------------------------------------------------
  // popIf

  /** What the consumer has loaded is up to date. */
  ghost predicate Fresh<W>(f: Fifo<W>, m: Memory<W>, c: Consumer<W>, accept: seq<W> -> bool) {
    match c
    case LoadPosition(a) => a == accept
    case LoadWrite(a, r) => a == accept && r == m.rd
    case CopyIn(a, r, _, _) => a == accept && r == m.rd
    case Peek(a, r, out) => a == accept && r == m.rd
    case Advance(a, r, success, out) =>
      && a == accept && r == m.rd
      && (success <==> f.queue != [] && accept(f.queue[0]))
    case _ => false
  }

  function PopStepsLeft<W>(cfg: Config, c: Consumer<W>): int {
    match c
    case LoadPosition(_) => cfg.words + 5
    case LoadWrite(_, _) => cfg.words + 4
    case CopyIn(_, _, k, _) => cfg.words - k + 3
    case Peek(_, _, _) => 2
    case Advance(_, _, _, _) => 1
    case _ => 0
  }

  /** The value that popIf takes out. */
  function Popped<W>(f: Fifo<W>, accept: seq<W> -> bool): Option<seq<W>> {
    if f.queue != [] && accept(f.queue[0]) then Some(f.queue[0]) else None
  }

  lemma PopStep<W>(cfg: Config, s: System<W>, f: Fifo<W>, accept: seq<W> -> bool)
    requires Holds(cfg, s, f) && Fresh(f, s.mem, s.consumer, accept)
    ensures PopStepsLeft(cfg, s.consumer) >= 1
    ensures var s' := Next(cfg, s, RunConsumer(false));
      var f' := Apply(f, EventOf(cfg, s, RunConsumer(false)));
      && Holds(cfg, s', f') && s'.producer == s.producer && s'.observer == s.observer
      && if s'.consumer.Answer? then
           && s'.consumer.popped == Popped(f, accept) && f'.dropped == f.dropped
           && f.queue == Just(Popped(f, accept)) + f'.queue
         else Fresh(f, s'.mem, s'.consumer, accept) && f' == f
              && PopStepsLeft(cfg, s'.consumer) < PopStepsLeft(cfg, s.consumer)
  {
    NextSimulates(cfg, s, f, RunConsumer(false));
    assert s.consumer.CopyIn? ==> s.consumer.k <= cfg.words;
    hide Simulates, SystemInv;
    HeadIs(cfg, s, f);
    hide SlotAt;
    ConsumerMoves(cfg, s.mem, s.consumer, f, accept);
  }

  /** The oldest value is the one in the slot of the read position. */
  lemma HeadIs<W>(cfg: Config, s: System<W>, f: Fifo<W>)
    requires Holds(cfg, s, f)
    ensures Shape(cfg, s.mem) && ConsumerInv(cfg, s.mem, s.consumer) && s.mem.wr - s.mem.rd == |f.queue|
    ensures f.queue != [] ==> SlotAt(cfg, s.mem, s.mem.rd) == f.queue[0] && |f.queue[0]| == cfg.words
  {
    if f.queue != [] { assert SlotAt(cfg, s.mem, s.mem.rd + 0) == f.queue[0]; }
  }

  lemma ConsumerMoves<W>(cfg: Config, m: Memory<W>, c: Consumer<W>, f: Fifo<W>, accept: seq<W> -> bool)
    requires Shape(cfg, m) && ConsumerInv(cfg, m, c) && Fresh(f, m, c, accept) && m.wr - m.rd == |f.queue|
    requires f.queue != [] ==> SlotAt(cfg, m, m.rd) == f.queue[0] && |f.queue[0]| == cfg.words
    ensures PopStepsLeft(cfg, c) >= 1
    ensures var r := StepConsumer(cfg, m, c, false);
      var f' := Apply(f, r.event);
      if r.consumer.Answer? then
        && r.consumer.popped == Popped(f, accept) && f'.dropped == f.dropped
        && f.queue == Just(Popped(f, accept)) + f'.queue
      else Fresh(f, r.mem, r.consumer, accept) && f' == f
           && PopStepsLeft(cfg, r.consumer) < PopStepsLeft(cfg, c)
  {
    hide SlotAt;
  }

  lemma {:induction false} PopEnds<W>(cfg: Config, s: System<W>, f: Fifo<W>, accept: seq<W> -> bool, n: nat)
    returns (f': Fifo<W>)
    requires Holds(cfg, s, f) && Fresh(f, s.mem, s.consumer, accept) && n >= PopStepsLeft(cfg, s.consumer)
    ensures var s' := Alone(cfg, s, RunConsumer(false), n);
      && s'.consumer == Answer(Popped(f, accept)) && s'.producer == s.producer && s'.observer == s.observer
      && Holds(cfg, s', f') && f'.dropped == f.dropped && f.queue == Just(Popped(f, accept)) + f'.queue
    decreases n
  {
    hide Holds, Next, Fresh, PopStepsLeft, EventOf, Apply, Popped;
    PopStep(cfg, s, f, accept);
    var s' := Next(cfg, s, RunConsumer(false));
    f' := Apply(f, EventOf(cfg, s, RunConsumer(false)));
    if s'.consumer.Answer? {
      Answered(cfg, s', n - 1);
    } else {
      f' := PopEnds(cfg, s', f, accept, n - 1);
    }
  }

  lemma {:induction false} Answered<W>(cfg: Config, s: System<W>, n: nat)
    requires s.consumer.Answer?
    ensures Alone(cfg, s, RunConsumer(false), n) == s
    decreases n
  {
    if n > 0 { Answered(cfg, s, n - 1); }
  }

  /** popIf alone pops the oldest value exactly if there is one and the verificator accepts it,
      within words + 5 steps, even from a buffer that a stopped producer has over-filled. */
  lemma PopAlone<W>(cfg: Config, s: System<W>, f: Fifo<W>, accept: seq<W> -> bool) returns (f': Fifo<W>)
    requires Holds(cfg, s, f) && ConsumerIdle(s.consumer)
    ensures var s' := Alone(cfg, Next(cfg, s, StartPopIf(accept)), RunConsumer(false), cfg.words + 5);
      && s'.consumer == Answer(Popped(f, accept)) && s'.producer == s.producer && s'.observer == s.observer
      && Holds(cfg, s', f') && f'.dropped == f.dropped && f.queue == Just(Popped(f, accept)) + f'.queue
  {
    NextSimulates(cfg, s, f, StartPopIf(accept));
    Shaped(cfg, s, f);
    hide Simulates, SystemInv, Alone;
    f' := PopEnds(cfg, Next(cfg, s, StartPopIf(accept)), f, accept, cfg.words + 5);
  }

  // ---------------------------------------------------------------------------------------
  // push

  /** What the producer has done of a push of `value` onto `queue`. */
  ghost predicate Pushing<W>(cfg: Config, m: Memory<W>, p: Producer<W>, f: Fifo<W>, queue: seq<seq<W>>, value: seq<W>) {
    match p
    case Write(v, _) => v == value && f.queue == queue
    case Publish(v) => v == value && f.queue == queue
    case LoadRead => f.queue == queue + [value]
    case DropOldest(r) => r == m.rd && f.queue == queue + [value] && |f.queue| == cfg.slots
    case CopyOut(_, _, _) => f.dropped.Some? && queue + [value] == [f.dropped.value] + f.queue && |f.queue| + 1 == cfg.slots
    case Returned(overflow) =>
      queue + [value] == Just(overflow) + f.queue && (overflow.None? <==> |queue| + 1 < cfg.slots)
    case _ => false
  }

  function PushStepsLeft<W>(cfg: Config, p: Producer<W>): int {
    match p
    case Write(_, k) => 2 * cfg.words - k + 5
    case Publish(_) => cfg.words + 4
    case LoadRead => cfg.words + 3
    case DropOldest(_) => cfg.words + 2
    case CopyOut(_, k, _) => cfg.words - k + 1
    case _ => 0
  }

  lemma ProducerMoves<W>(cfg: Config, m: Memory<W>, p: Producer<W>, f: Fifo<W>, queue: seq<seq<W>>, value: seq<W>)
    requires Shape(cfg, m) && ProducerInv(cfg, m, p) && Pushing(cfg, m, p, f, queue, value) && !p.Returned?
    requires m.wr - m.rd == |f.queue|
    requires Accepts(cfg, f, StepProducer(cfg, m, p).event)
    ensures PushStepsLeft(cfg, p) >= 1
    ensures var r := StepProducer(cfg, m, p);
      && Pushing(cfg, r.mem, r.producer, Apply(f, r.event), queue, value)
      && PushStepsLeft(cfg, r.producer) < PushStepsLeft(cfg, p)
  {
    hide SlotAt;
  }

  lemma PushStep<W>(cfg: Config, s: System<W>, f: Fifo<W>, queue: seq<seq<W>>, value: seq<W>)
    requires Holds(cfg, s, f) && Pushing(cfg, s.mem, s.producer, f, queue, value) && !s.producer.Returned?
    ensures PushStepsLeft(cfg, s.producer) >= 1
    ensures var s' := Next(cfg, s, RunProducer);
      var f' := Apply(f, EventOf(cfg, s, RunProducer));
      && Holds(cfg, s', f') && s'.consumer == s.consumer && s'.observer == s.observer
      && Pushing(cfg, s'.mem, s'.producer, f', queue, value)
      && PushStepsLeft(cfg, s'.producer) < PushStepsLeft(cfg, s.producer)
  {
    NextSimulates(cfg, s, f, RunProducer);
    assert ProducerInv(cfg, s.mem, s.producer);
    assert s.mem.wr - s.mem.rd == |f.queue|;
    hide Simulates, SystemInv, SlotAt, Pushing, PushStepsLeft, Accepts, Apply;
    ProducerMoves(cfg, s.mem, s.producer, f, queue, value);
  }

  lemma {:induction false} PushEnds<W>(cfg: Config, s: System<W>, f: Fifo<W>, queue: seq<seq<W>>, value: seq<W>, n: nat)
    returns (f': Fifo<W>)
    requires Holds(cfg, s, f) && Pushing(cfg, s.mem, s.producer, f, queue, value)
    requires n >= PushStepsLeft(cfg, s.producer)
    ensures var s' := Alone(cfg, s, RunProducer, n);
      && Holds(cfg, s', f') && s'.consumer == s.consumer && s'.observer == s.observer
      && s'.producer.Returned? && Pushing(cfg, s'.mem, s'.producer, f', queue, value)
    decreases n
  {
    hide Holds, Next, Pushing, PushStepsLeft, EventOf, Apply;
    f' := f;
    if s.producer.Returned? {
      HasReturned(cfg, s, n);
    } else {
      PushStep(cfg, s, f, queue, value);
      f' := PushEnds(cfg, Next(cfg, s, RunProducer), Apply(f, EventOf(cfg, s, RunProducer)), queue, value, n - 1);
    }
  }

  lemma {:induction false} HasReturned<W>(cfg: Config, s: System<W>, n: nat)
    requires s.producer.Returned?
    ensures Alone(cfg, s, RunProducer, n) == s
    decreases n
  {
    if n > 0 { HasReturned(cfg, s, n - 1); }
  }

  /** push alone stores its value within 2 * words + 5 steps and returns the oldest value exactly
      if the buffer was full, wherever a popIf may have stopped. */
  lemma PushAlone<W>(cfg: Config, s: System<W>, f: Fifo<W>, value: seq<W>) returns (f': Fifo<W>)
    requires Holds(cfg, s, f) && ProducerIdle(s.producer) && |value| == cfg.words
    ensures var s' := Alone(cfg, Next(cfg, s, StartPush(value)), RunProducer, 2 * cfg.words + 5);
      && Holds(cfg, s', f') && s'.consumer == s.consumer && s'.observer == s.observer
      && s'.producer.Returned?
      && f.queue + [value] == Just(s'.producer.overflow) + f'.queue
      && (s'.producer.overflow.None? <==> |f.queue| + 1 < cfg.slots)
  {
    NextSimulates(cfg, s, f, StartPush(value));
    Shaped(cfg, s, f);
    hide Simulates, SystemInv, Alone;
    f' := PushEnds(cfg, Next(cfg, s, StartPush(value)), f, f.queue, value, 2 * cfg.words + 5);
  }
}
