/**
 SoFi with one producer and one consumer, as a step machine.

 A value is a sequence of words and is copied word by word, so a copy may interleave with the
 other side overwriting the slot. Both sides advance the read position by compare-exchange:
 the consumer to pop, the producer to drop the oldest value of an overflowing buffer.
*/
module SofiProtocol {
  import opened Options
  import opened CyclicIndex

  /** `slots` is m_size, one more than the capacity; a value has `words` words. */
  datatype Config = Config(slots: nat, words: nat)

  datatype Memory<W> = Memory(data: seq<seq<W>>, rd: nat, wr: nat)

  datatype Producer<W> =
    | Ready
    | Write(value: seq<W>, k: nat)                  // m_data[...] = valueIn, next word k
    | Publish(value: seq<W>)                        // store m_writePosition
    | LoadRead                                      // load m_readPosition
    | DropOldest(r: nat)                            // compare_exchange_strong
    | CopyOut(r: nat, k: nat, out: seq<W>)          // memcpy of the dropped value
    | Returned(overflow: Option<seq<W>>)

  datatype Consumer<!W> =
    | Waiting
    | LoadPosition(accept: seq<W> -> bool)                                 // load m_readPosition
    | LoadWrite(accept: seq<W> -> bool, r: nat)                            // load m_writePosition
    | CopyIn(accept: seq<W> -> bool, r: nat, k: nat, out: seq<W>)          // memcpy, next word k
    | Peek(accept: seq<W> -> bool, r: nat, out: seq<W>)                    // load m_readPosition, ask
    | Advance(accept: seq<W> -> bool, r: nat, success: bool, out: seq<W>)  // compare_exchange_weak
    | Answer(popped: Option<seq<W>>)

  /** A size() or empty() call of any thread. */
  datatype Observer =
    | Resting
    | SizeRead                                      // load m_readPosition
    | SizeWrite(r: nat)                             // load m_writePosition
    | SizeWriteAgain(r: nat, w: nat)                // load m_writePosition again
    | SizeReadAgain(r: nat, w: nat)                 // load m_readPosition again
    | Size(n: int)
    | EmptyRead                                     // load m_readPosition
    | EmptyWrite(r: nat)                            // load m_writePosition
    | EmptyReadAgain(r: nat, answer: bool)          // load m_readPosition again
    | Empty(answer: bool)

  datatype System<!W> = System(mem: Memory<W>, producer: Producer<W>, consumer: Consumer<W>, observer: Observer)

  datatype Action<!W> =
    | StartPush(value: seq<W>)
    | RunProducer
    | StartPopIf(accept: seq<W> -> bool)
    | RunConsumer(spurious: bool)
    | StartSize
    | StartEmpty
    | RunObserver

  datatype Event<W> =
    | Tau
    | Enqueue(value: seq<W>)
    | Dequeue(value: seq<W>)        // the consumer pops the value it has copied
    | Ask(value: seq<W>)            // the verificator is asked about this value
    | SawEmpty
    | Drop                          // the producer takes the oldest value out
    | Overflow(value: seq<W>)       // push returns it to its caller

  predicate Shape<W>(cfg: Config, m: Memory<W>) {
    cfg.slots >= 1 && |m.data| == cfg.slots && forall i :: 0 <= i < cfg.slots ==> |m.data[i]| == cfg.words
  }

  function SlotAt<W>(cfg: Config, m: Memory<W>, p: nat): seq<W>
    requires Shape(cfg, m)
  {
    m.data[IndexOf(cfg.slots, p)]
  }

  datatype ProducerStep<W> = ProducerStep(mem: Memory<W>, producer: Producer<W>, event: Event<W>)

  function StepProducer<W>(cfg: Config, m: Memory<W>, p: Producer<W>): ProducerStep<W>
    requires Shape(cfg, m)
    requires p.Write? ==> |p.value| == cfg.words && p.k <= cfg.words
    requires p.CopyOut? ==> p.k <= cfg.words
  {
    match p
    case Write(value, k) =>
      if k == cfg.words then ProducerStep(m, Publish(value), Tau)
      else
        var i := IndexOf(cfg.slots, m.wr);
        ProducerStep(m.(data := m.data[i := m.data[i][k := value[k]]]), Write(value, k + 1), Tau)
    case Publish(value) => ProducerStep(m.(wr := m.wr + 1), LoadRead, Enqueue(value))
    case LoadRead =>
      if m.wr < m.rd + cfg.slots then ProducerStep(m, Returned(None), Tau)
      else ProducerStep(m, DropOldest(m.rd), Tau)
    case DropOldest(r) =>
      if m.rd == r then ProducerStep(m.(rd := r + 1), CopyOut(r, 0, []), Drop)
      else ProducerStep(m, Returned(None), Tau)
    case CopyOut(r, k, out) =>
      if k == cfg.words then ProducerStep(m, Returned(Some(out)), Overflow(out))
      else ProducerStep(m, CopyOut(r, k + 1, out + [SlotAt(cfg, m, r)[k]]), Tau)
    case _ => ProducerStep(m, p, Tau)
  }

  datatype ConsumerStep<!W> = ConsumerStep(mem: Memory<W>, consumer: Consumer<W>, event: Event<W>)

  function StepConsumer<W>(cfg: Config, m: Memory<W>, c: Consumer<W>, spurious: bool): ConsumerStep<W>
    requires Shape(cfg, m)
    requires c.CopyIn? ==> c.k <= cfg.words
  {
    match c
    case LoadPosition(accept) => ConsumerStep(m, LoadWrite(accept, m.rd), Tau)
    case LoadWrite(accept, r) =>
      if r == m.wr then ConsumerStep(m, Advance(accept, r, false, []), SawEmpty)
      else ConsumerStep(m, CopyIn(accept, r, 0, []), Tau)
    case CopyIn(accept, r, k, out) =>
      if k == cfg.words then ConsumerStep(m, Peek(accept, r, out), Tau)
      else ConsumerStep(m, CopyIn(accept, r, k + 1, out + [SlotAt(cfg, m, r)[k]]), Tau)
    case Peek(accept, r, out) =>
      if m.rd == r then ConsumerStep(m, Advance(accept, r, accept(out), out), Ask(out))
      else ConsumerStep(m, Advance(accept, r, true, out), Tau)
    case Advance(accept, r, success, out) =>
      if m.rd != r || spurious then ConsumerStep(m, LoadWrite(accept, m.rd), Tau)
      else if success then ConsumerStep(m.(rd := r + 1), Answer(Some(out)), Dequeue(out))
      else ConsumerStep(m, Answer(None), Tau)
    case _ => ConsumerStep(m, c, Tau)
  }

  function StepObserver<W>(m: Memory<W>, o: Observer): Observer {
    match o
    case SizeRead => SizeWrite(m.rd)
    case SizeWrite(r) => SizeWriteAgain(r, m.wr)
    case SizeWriteAgain(r, w) => if m.wr != w then SizeRead else SizeReadAgain(r, w)
    case SizeReadAgain(r, w) => if m.rd != r then SizeRead else Size(w - r)
    case EmptyRead => EmptyWrite(m.rd)
    case EmptyWrite(r) => EmptyReadAgain(r, m.wr == r)
    case EmptyReadAgain(r, answer) => if m.rd != r then EmptyRead else Empty(answer)
    case _ => o
  }

  // ---------------------------------------------------------------------------------------
  // Invariant

  /** Between pushes there is a free slot; only after a publication may the buffer be over-full
      by one value, until the producer has dropped the oldest or seen that the consumer took it. */
  ghost predicate ProducerInv<W>(cfg: Config, m: Memory<W>, p: Producer<W>)
    requires Shape(cfg, m)
  {
    && m.rd <= m.wr
    && match p
       case Write(value, k) =>
         && m.wr < m.rd + cfg.slots && |value| == cfg.words && k <= cfg.words
         && SlotAt(cfg, m, m.wr)[..k] == value[..k]
       case Publish(value) => m.wr < m.rd + cfg.slots && SlotAt(cfg, m, m.wr) == value
       case LoadRead => m.wr <= m.rd + cfg.slots
       case DropOldest(r) => m.wr == r + cfg.slots && r <= m.rd
       case CopyOut(r, k, out) =>
         && m.wr == r + cfg.slots && r < m.rd && k <= cfg.words
         && out == SlotAt(cfg, m, r)[..k]
       case _ => m.wr < m.rd + cfg.slots
  }

  /** As long as the read position has not moved, what the consumer has copied is intact. */
  ghost predicate ConsumerInv<W>(cfg: Config, m: Memory<W>, c: Consumer<W>)
    requires Shape(cfg, m)
  {
    match c
    case LoadWrite(_, r) => r <= m.rd
    case CopyIn(_, r, k, out) =>
      r <= m.rd && r < m.wr && k <= cfg.words && (r == m.rd ==> out == SlotAt(cfg, m, r)[..k])
    case Peek(_, r, out) => r <= m.rd && r < m.wr && (r == m.rd ==> out == SlotAt(cfg, m, r))
    case Advance(accept, r, success, out) =>
      && r <= m.rd
      && (success ==> r < m.wr && (r == m.rd ==> out == SlotAt(cfg, m, r)))
    case _ => true
  }

  ghost predicate ObserverInv<W>(m: Memory<W>, o: Observer) {
    match o
    case SizeWrite(r) => r <= m.rd
    case SizeWriteAgain(r, w) => r <= m.rd && w <= m.wr
    case SizeReadAgain(r, w) => r <= m.rd && w <= m.wr
    case EmptyWrite(r) => r <= m.rd
    case EmptyReadAgain(r, _) => r <= m.rd
    case _ => true
  }

  ghost predicate SystemInv<W>(cfg: Config, s: System<W>) {
    && Shape(cfg, s.mem)
    && ProducerInv(cfg, s.mem, s.producer)
    && ConsumerInv(cfg, s.mem, s.consumer)
    && ObserverInv(s.mem, s.observer)
  }

  // ---------------------------------------------------------------------------------------
  // Specification

  /** The values in the buffer, oldest first, and the value push has dropped and not returned. */
  datatype Fifo<W> = Fifo(queue: seq<seq<W>>, dropped: Option<seq<W>>)

  ghost predicate Accepts<W>(cfg: Config, f: Fifo<W>, event: Event<W>) {
    match event
    case Tau => true
    case Enqueue(_) => |f.queue| < cfg.slots
    case Dequeue(value) => f.queue != [] && f.queue[0] == value
    case Ask(value) => f.queue != [] && f.queue[0] == value
    case SawEmpty => f.queue == []
    case Drop => |f.queue| == cfg.slots && f.dropped.None?
    case Overflow(value) => f.dropped == Some(value)
  }

  function Apply<W>(f: Fifo<W>, event: Event<W>): Fifo<W> {
    match event
    case Enqueue(value) => f.(queue := f.queue + [value])
    case Dequeue(_) => if f.queue == [] then f else f.(queue := f.queue[1..])
    case Drop => if f.queue == [] then f else Fifo(f.queue[1..], Some(f.queue[0]))
    case Overflow(_) => f.(dropped := None)
    case _ => f
  }

  ghost predicate Simulates<W>(cfg: Config, s: System<W>, f: Fifo<W>)
    requires Shape(cfg, s.mem)
  {
    && s.mem.rd <= s.mem.wr
    && |f.queue| == s.mem.wr - s.mem.rd
    && (forall i :: 0 <= i < |f.queue| ==> SlotAt(cfg, s.mem, s.mem.rd + i) == f.queue[i])
    && (s.producer.CopyOut? <==> f.dropped.Some?)
    && (s.producer.CopyOut? ==> f.dropped == Some(SlotAt(cfg, s.mem, s.producer.r)))
  }

  // ---------------------------------------------------------------------------------------
  // Preservation and refinement, one step at a time

  /** The slot the producer writes holds none of the values in the buffer. */
  lemma WrittenSlotIsFree(slots: nat, rd: nat, wr: nat, p: nat)
    requires slots >= 1 && rd <= p < wr < rd + slots
    ensures IndexOf(slots, p) != IndexOf(slots, wr)
  {
    SameCell(slots, p, wr);
  }

  lemma ProducerStepInv<W>(cfg: Config, s: System<W>)
    requires SystemInv(cfg, s)
    ensures var r := StepProducer(cfg, s.mem, s.producer);
            SystemInv(cfg, s.(mem := r.mem, producer := r.producer))
  {
    hide IndexOf;
    var m := s.mem;
    if s.producer.Write? && s.producer.k < cfg.words {
      var r := StepProducer(cfg, m, s.producer);
      var i := IndexOf(cfg.slots, m.wr);
      assert r.mem.data[i][..s.producer.k + 1] == m.data[i][..s.producer.k] + [s.producer.value[s.producer.k]];
      if s.consumer.CopyIn? || s.consumer.Peek? || (s.consumer.Advance? && s.consumer.success) {
        if s.consumer.r == m.rd { WrittenSlotIsFree(cfg.slots, m.rd, m.wr, m.rd); }
      }
    }
  }

  lemma ProducerSimulates<W>(cfg: Config, s: System<W>, f: Fifo<W>)
    requires SystemInv(cfg, s) && Simulates(cfg, s, f)
    ensures var r := StepProducer(cfg, s.mem, s.producer);
            && Shape(cfg, r.mem)
            && Accepts(cfg, f, r.event)
            && Simulates(cfg, s.(mem := r.mem, producer := r.producer), Apply(f, r.event))
  {
    hide IndexOf;
    var m := s.mem;
    var r := StepProducer(cfg, m, s.producer);
    var f' := Apply(f, r.event);
    forall i | 0 <= i < |f'.queue|
      ensures SlotAt(cfg, r.mem, r.mem.rd + i) == f'.queue[i]
    {
      if s.producer.Write? { WrittenSlotIsFree(cfg.slots, m.rd, m.wr, m.rd + i); }
      if r.event.Drop? { assert SlotAt(cfg, m, m.rd + (i + 1)) == f.queue[i + 1]; }
    }
    if r.event.Drop? { assert SlotAt(cfg, m, m.rd + 0) == f.queue[0]; }
    if r.event.Overflow? {
      var slot := SlotAt(cfg, m, s.producer.r);
      assert slot[..cfg.words] == slot;
    }
  }

  lemma ConsumerStepInv<W>(cfg: Config, s: System<W>, spurious: bool)
    requires SystemInv(cfg, s)
    ensures var r := StepConsumer(cfg, s.mem, s.consumer, spurious);
            SystemInv(cfg, s.(mem := r.mem, consumer := r.consumer))
  {
    hide IndexOf;
  }

  lemma ConsumerSimulates<W>(cfg: Config, s: System<W>, f: Fifo<W>, spurious: bool)
    requires SystemInv(cfg, s) && Simulates(cfg, s, f)
    ensures var r := StepConsumer(cfg, s.mem, s.consumer, spurious);
            && Shape(cfg, r.mem)
            && Accepts(cfg, f, r.event)
            && Simulates(cfg, s.(mem := r.mem, consumer := r.consumer), Apply(f, r.event))
  {
    hide IndexOf;
    var m := s.mem;
    var r := StepConsumer(cfg, m, s.consumer, spurious);
    var f' := Apply(f, r.event);
    if f.queue != [] { assert SlotAt(cfg, m, m.rd + 0) == f.queue[0]; }
    if r.event.Dequeue? {
      forall i | 0 <= i < |f'.queue|
        ensures SlotAt(cfg, r.mem, r.mem.rd + i) == f'.queue[i]
      {
        assert SlotAt(cfg, m, m.rd + (i + 1)) == f.queue[i + 1];
      }
    }
  }

  // ---------------------------------------------------------------------------------------
  // Whole runs

  function Initial<W>(data: seq<seq<W>>): System<W> {
    System(Memory(data, 0, 0), Ready, Waiting, Resting)
  }

  predicate ProducerIdle<W>(p: Producer<W>) { p.Ready? || p.Returned? }
  predicate ConsumerIdle<W>(c: Consumer<W>) { c.Waiting? || c.Answer? }
  predicate ObserverIdle(o: Observer) { o.Resting? || o.Size? || o.Empty? }

  predicate Enabled<W>(cfg: Config, s: System<W>, a: Action<W>) {
    && Shape(cfg, s.mem)
    && match a
       case StartPush(value) => ProducerIdle(s.producer) && |value| == cfg.words
       case RunProducer =>
         && (s.producer.Write? ==> |s.producer.value| == cfg.words && s.producer.k <= cfg.words)
         && (s.producer.CopyOut? ==> s.producer.k <= cfg.words)
       case StartPopIf(_) => ConsumerIdle(s.consumer)
       case RunConsumer(_) => s.consumer.CopyIn? ==> s.consumer.k <= cfg.words
       case StartSize => ObserverIdle(s.observer)
       case StartEmpty => ObserverIdle(s.observer)
       case RunObserver => true
  }

  /** One action, and the event it raises. */
  function Next<W>(cfg: Config, s: System<W>, a: Action<W>): System<W> {
    if !Enabled(cfg, s, a) then s
    else match a
      case StartPush(value) => s.(producer := Write(value, 0))
      case RunProducer => var r := StepProducer(cfg, s.mem, s.producer); s.(mem := r.mem, producer := r.producer)
      case StartPopIf(accept) => s.(consumer := LoadPosition(accept))
      case RunConsumer(spurious) =>
        var r := StepConsumer(cfg, s.mem, s.consumer, spurious); s.(mem := r.mem, consumer := r.consumer)
      case StartSize => s.(observer := SizeRead)
      case StartEmpty => s.(observer := EmptyRead)
      case RunObserver => s.(observer := StepObserver(s.mem, s.observer))
  }

  function EventOf<W>(cfg: Config, s: System<W>, a: Action<W>): Event<W> {
    if !Enabled(cfg, s, a) then Tau
    else match a
      case RunProducer => StepProducer(cfg, s.mem, s.producer).event
      case RunConsumer(spurious) => StepConsumer(cfg, s.mem, s.consumer, spurious).event
      case _ => Tau
  }

  function Exec<W>(cfg: Config, s: System<W>, actions: seq<Action<W>>): System<W> {
    if actions == [] then s
    else Next(cfg, Exec(cfg, s, actions[..|actions| - 1]), actions[|actions| - 1])
  }

  function Trace<W>(cfg: Config, s: System<W>, actions: seq<Action<W>>): (r: seq<Event<W>>)
    ensures |r| == |actions|
  {
    if actions == [] then []
    else
      var before := actions[..|actions| - 1];
      Trace(cfg, s, before) + [EventOf(cfg, Exec(cfg, s, before), actions[|actions| - 1])]
  }

  function After<W>(f: Fifo<W>, trace: seq<Event<W>>): Fifo<W> {
    if trace == [] then f else Apply(After(f, trace[..|trace| - 1]), trace[|trace| - 1])
  }

  ghost predicate AcceptsAll<W>(cfg: Config, f: Fifo<W>, trace: seq<Event<W>>) {
    trace == [] ||
    (AcceptsAll(cfg, f, trace[..|trace| - 1]) &&
     Accepts(cfg, After(f, trace[..|trace| - 1]), trace[|trace| - 1]))
  }

  lemma NextSimulates<W>(cfg: Config, s: System<W>, f: Fifo<W>, a: Action<W>)
    requires SystemInv(cfg, s) && Simulates(cfg, s, f)
    ensures SystemInv(cfg, Next(cfg, s, a))
    ensures Accepts(cfg, f, EventOf(cfg, s, a))
    ensures Simulates(cfg, Next(cfg, s, a), Apply(f, EventOf(cfg, s, a)))
  {
    hide IndexOf, StepProducer, StepConsumer;
    if Enabled(cfg, s, a) {
      match a {
        case RunProducer => ProducerStepInv(cfg, s); ProducerSimulates(cfg, s, f);
        case RunConsumer(spurious) => ConsumerStepInv(cfg, s, spurious); ConsumerSimulates(cfg, s, f, spurious);
        case _ =>
      }
    }
  }

  /** Every interleaving of one producer, one consumer and an observer is a run of the FIFO
      specification: in particular the verificator is asked only about the intact oldest value,
      and every value popped or returned by an overflowing push is intact. */
  lemma {:induction false} ExecSimulates<W>(cfg: Config, s: System<W>, f: Fifo<W>, actions: seq<Action<W>>)
    requires SystemInv(cfg, s) && Simulates(cfg, s, f)
    ensures SystemInv(cfg, Exec(cfg, s, actions))
    ensures AcceptsAll(cfg, f, Trace(cfg, s, actions))
    ensures Simulates(cfg, Exec(cfg, s, actions), After(f, Trace(cfg, s, actions)))
  {
    hide Next, EventOf, Accepts, Apply, ProducerInv, ConsumerInv, ObserverInv, SlotAt;
    if actions != [] {
      var before := actions[..|actions| - 1];
      ExecSimulates(cfg, s, f, before);
      NextSimulates(cfg, Exec(cfg, s, before), After(f, Trace(cfg, s, before)), actions[|actions| - 1]);
      assert Trace(cfg, s, actions)[..|actions| - 1] == Trace(cfg, s, before);
    }
  }

  // ---------------------------------------------------------------------------------------
  // What a whole run delivers

  /** The values pushed, in order. */
  function PushedIn<W>(trace: seq<Event<W>>): seq<seq<W>> {
    if trace == [] then []
    else
      var before := PushedIn(trace[..|trace| - 1]);
      match trace[|trace| - 1]
      case Enqueue(value) => before + [value]
      case _ => before
  }

  /** The values that left the buffer, in the order of the read-position updates: those the
      consumer returned from pop, and those the producer is bound to return from push. */
  function HandedOut<W>(f: Fifo<W>, trace: seq<Event<W>>): seq<seq<W>> {
    if trace == [] then []
    else
      var before := trace[..|trace| - 1];
      match trace[|trace| - 1]
      case Dequeue(value) => HandedOut(f, before) + [value]
      case Drop =>
        var queue := After(f, before).queue;
        HandedOut(f, before) + (if queue == [] then [] else [queue[0]])
      case _ => HandedOut(f, before)
  }

  /** The values taken out by the producer, and those it has returned from overflowing pushes. */
  function Dropped<W>(f: Fifo<W>, trace: seq<Event<W>>): seq<seq<W>> {
    if trace == [] then []
    else
      var before := trace[..|trace| - 1];
      var queue := After(f, before).queue;
      Dropped(f, before) + (if trace[|trace| - 1].Drop? && queue != [] then [queue[0]] else [])
  }

  function Overflowed<W>(trace: seq<Event<W>>): seq<seq<W>> {
    if trace == [] then []
    else
      var before := Overflowed(trace[..|trace| - 1]);
      match trace[|trace| - 1]
      case Overflow(value) => before + [value]
      case _ => before
  }

  lemma {:induction false} HandedOutInOrder<W>(cfg: Config, f: Fifo<W>, trace: seq<Event<W>>)
    requires AcceptsAll(cfg, f, trace)
    ensures f.queue + PushedIn(trace) == HandedOut(f, trace) + After(f, trace).queue
  {
    if trace != [] {
      var before := trace[..|trace| - 1];
      HandedOutInOrder(cfg, f, before);
      var out, queue := HandedOut(f, before), After(f, before).queue;
      match trace[|trace| - 1] {
        case Enqueue(value) =>
          assert f.queue + (PushedIn(before) + [value]) == (f.queue + PushedIn(before)) + [value];
          assert out + (queue + [value]) == (out + queue) + [value];
        case Dequeue(value) => assert out + queue == (out + [queue[0]]) + queue[1..];
        case Drop => if queue != [] { assert out + queue == (out + [queue[0]]) + queue[1..]; }
        case _ =>
      }
    }
  }

  lemma {:induction false} DroppedIsReturned<W>(cfg: Config, f: Fifo<W>, trace: seq<Event<W>>)
    requires AcceptsAll(cfg, f, trace) && f.dropped.None?
    ensures Dropped(f, trace)
         == Overflowed(trace) + (if After(f, trace).dropped.Some? then [After(f, trace).dropped.value] else [])
  {
    if trace != [] {
      DroppedIsReturned(cfg, f, trace[..|trace| - 1]);
    }
  }

  /** The values in the slots of positions p..wr-1. */
  function Stored<W>(cfg: Config, m: Memory<W>, p: nat): (r: seq<seq<W>>)
    requires Shape(cfg, m) && p <= m.wr
    ensures |r| == m.wr - p && forall i :: 0 <= i < |r| ==> r[i] == SlotAt(cfg, m, p + i)
    decreases m.wr - p
  {
    if p == m.wr then [] else [SlotAt(cfg, m, p)] + Stored(cfg, m, p + 1)
  }

  lemma SimulatedQueue<W>(cfg: Config, s: System<W>, f: Fifo<W>)
    requires SystemInv(cfg, s) && Simulates(cfg, s, f)
    ensures f.queue == Stored(cfg, s.mem, s.mem.rd)
  {
    hide SlotAt, ProducerInv, ConsumerInv, ObserverInv;
    assert ProducerInv(cfg, s.mem, s.producer);
  }

  /** Over every run, the values handed out, in the order of the read-position updates, are
      exactly the oldest values pushed; the rest is in the buffer. What the producer took out it
      has returned from push, except for the one value it may still be copying. */
  lemma EveryRunIsFifo<W(!new)>(cfg: Config, data: seq<seq<W>>, actions: seq<Action<W>>)
    requires Shape(cfg, Memory(data, 0, 0))
    ensures var start: Fifo<W> := Fifo([], None);
            var trace := Trace(cfg, Initial(data), actions);
            var s := Exec(cfg, Initial(data), actions);
            && SystemInv(cfg, s)
            && PushedIn(trace) == HandedOut(start, trace) + Stored(cfg, s.mem, s.mem.rd)
            && Overflowed(trace) <= Dropped(start, trace)
            && (!s.producer.CopyOut? ==> Dropped(start, trace) == Overflowed(trace))
  {
    hide Accepts, Apply, EventOf, Next, ProducerInv, ConsumerInv, ObserverInv, SlotAt, Stored, Exec, Trace, After;
    var start: Fifo<W> := Fifo([], None);
    var trace := Trace(cfg, Initial(data), actions);
    InitialInv(cfg, data);
    ExecSimulates(cfg, Initial(data), start, actions);
    HandedOutInOrder(cfg, start, trace);
    SimulatedQueue(cfg, Exec(cfg, Initial(data), actions), After(start, trace));
    DroppedIsReturned(cfg, start, trace);
  }

  lemma InitialInv<W>(cfg: Config, data: seq<seq<W>>)
    requires Shape(cfg, Memory(data, 0, 0))
    ensures SystemInv(cfg, Initial(data)) && Simulates(cfg, Initial(data), Fifo([], None))
  {
  }
}
