/**
 LockFreeQueue and ResizeableLockFreeQueue as one step machine for any number of threads.

 Two index queues pass the indices 0..max-1 of the value buffer around; whoever holds an index
 outside the queues may touch its buffer slot. With `resizeable` unset only the operations of
 LockFreeQueue exist: a full push evicts by popIfFull and the capacity never changes.
*/
module LockFreeQueueProtocol {
  import opened Options
  import opened IndexQueueProtocol

  datatype Config = Config(max: nat, resizeable: bool)

  datatype Call<V> =
    | TryPush(v: V)
    | Push(v: V)
    | Pop
    | SetCapacity(n: nat)
    | AskEmpty
    | AskSize

  datatype Result<V> =
    | NoResult
    | Refused                           // tryPush returned false
    | Stored(evicted: Option<V>)        // tryPush returned true, or push returned
    | Popped(out: Option<V>)
    | CapacitySet(ok: bool)
    | WasEmpty(answer: bool)
    | HadSize(size: nat)

  /** The shared memory. A buffer slot is None while no value is constructed in it. */
  datatype Memory<V> = Memory(
    free: Queue,
    used: Queue,
    buf: seq<Option<V>>,
    size: nat,
    capacity: nat,
    resizing: bool,
    unused: seq<nat>)

  /** Locals of a running increaseCapacity or decreaseCapacity: the capacity to reach, the
      amount to change in this call and the amount changed so far. */
  datatype Goal = Goal(target: nat, todo: nat, changed: nat)

  /** Where a thread stands; every constructor is a point before one atomic access. */
  datatype Thread<V> =
    | Done(result: Result<V>)
    // tryPush and push
    | TakeFree(v: V, retry: bool, op: Op)                     // m_freeIndices.pop
    | LoadCapacity(v: V)                                      // capacity() in tryGetUsedIndex
    | Evict(v: V, op: Op)                                     // conditional pop of m_usedIndices
    | EvictSubSize(v: V, i: nat)                              // m_size.fetch_sub
    | EvictMove(v: V, i: nat)                                 // move the evicted value out
    | WriteSlot(v: V, i: nat, evicted: Option<V>)             // construct the value
    | AddSize(v: V, i: nat, evicted: Option<V>)               // m_size.fetch_add
    | PushUsed(v: V, i: nat, evicted: Option<V>, op: Op)      // m_usedIndices.push
    // pop
    | TakeUsed(op: Op)                                        // m_usedIndices.pop
    | PopSubSize(i: nat)
    | PopMove(i: nat)
    | PushFree(i: nat, out: Option<V>, op: Op)                // m_freeIndices.push
    // empty and size
    | ReadEmpty(op: Op)                                       // m_usedIndices.empty
    | ReadSize                                                // m_size.load
    // setCapacity
    | TakeFlag(target: nat)                                   // m_resizeInProgress.test_and_set
    | CompareCapacity(target: nat)                            // capacity() in the outer loop
    | Grow(g: Goal)                                           // m_capacity.fetch_add
    | GrowPush(g: Goal, i: nat, op: Op)                       // m_freeIndices.push(back)
    | GrowDrop(g: Goal, i: nat)                               // m_unusedIndices.pop_back
    | ShrinkFree(g: Goal, op: Op)                             // m_freeIndices.pop
    | ShrinkLoad(g: Goal)                                     // capacity() in tryGetUsedIndex
    | ShrinkUsed(g: Goal, op: Op)                             // popIfSizeIsAtLeast
    | ShrinkSubSize(g: Goal, i: nat)
    | ShrinkMove(g: Goal, i: nat)                             // hand the value to removeHandler
    | ShrinkStash(g: Goal, i: nat, fromUsed: bool)            // m_unusedIndices.push_back
    | ShrinkCapacity(g: Goal, fromUsed: bool)                 // m_capacity.fetch_sub
    | ClearFlag(target: nat)                                  // m_resizeInProgress.clear

  /** What a step means for the queue of values. */
  datatype QueueEvent<V> =
    | Tau
    | Enqueue(v: V)              // the value of this push enters the queue
    | Dequeue                    // the thread takes the oldest value out of the queue
    | Deliver(out: Option<V>)    // the thread reads the value it took

  datatype Effect<V> = Effect(mem: Memory<V>, th: Thread<V>, event: QueueEvent<V>)

  predicate Shaped<V>(cfg: Config, m: Memory<V>) {
    && Shape(cfg.max, m.free) && Shape(cfg.max, m.used)
    && |m.buf| == cfg.max
  }

  /** The buffer slot the next step of a thread reads or writes. */
  function Touches<V>(th: Thread<V>): Option<nat> {
    match th
    case EvictMove(_, i) => Some(i)
    case WriteSlot(_, i, _) => Some(i)
    case PopMove(i) => Some(i)
    case ShrinkMove(_, i) => Some(i)
    case _ => None
  }

  predicate Ready<V>(cfg: Config, m: Memory<V>, th: Thread<V>) {
    && Shaped(cfg, m)
    && (Touches(th).Some? ==> Touches(th).value < cfg.max)
    && (th.GrowDrop? ==> m.unused != [])
  }

  /** fetch_sub(1) on an unsigned 64-bit counter. */
  function FetchSub(n: nat): nat {
    if n == 0 then 0xFFFF_FFFF_FFFF_FFFF else n - 1
  }

  function StartCall<V>(cfg: Config, call: Call<V>): Thread<V> {
    match call
    case TryPush(v) => TakeFree(v, false, PopLoad)
    case Push(v) => TakeFree(v, true, PopLoad)
    case Pop => TakeUsed(PopLoad)
    case AskEmpty => ReadEmpty(EmptyLoad)
    case AskSize => ReadSize
    case SetCapacity(n) =>
      if !cfg.resizeable || n > cfg.max then Done(CapacitySet(false)) else TakeFlag(n)
  }

  // ---------------------------------------------------------------------------------------
  // One step of one thread, operation by operation

  function StepTakeFree<V>(cfg: Config, m: Memory<V>, v: V, retry: bool, op: Op, spurious: bool): Effect<V>
    requires Shaped(cfg, m)
  {
    var r := Step(cfg.max, m.free, op, spurious);
    var m' := m.(free := r.queue);
    match r.op
    case Got(i) => Effect(m', WriteSlot(v, i, None), Tau)
    case NotGot =>
      if !retry then Effect(m', Done(Refused), Tau)
      else if cfg.resizeable then Effect(m', LoadCapacity(v), Tau)
      else Effect(m', Evict(v, FullLoadWrite), Tau)
    case op' => Effect(m', TakeFree(v, retry, op'), Tau)
  }

  function StepEvict<V>(cfg: Config, m: Memory<V>, v: V, op: Op, spurious: bool): Effect<V>
    requires Shaped(cfg, m)
  {
    var r := Step(cfg.max, m.used, op, spurious);
    var m' := m.(used := r.queue);
    match r.op
    case Got(i) => Effect(m', EvictSubSize(v, i), Dequeue)
    case NotGot => Effect(m', TakeFree(v, true, PopLoad), Tau)
    case op' => Effect(m', Evict(v, op'), Tau)
  }

  function StepPushUsed<V>(cfg: Config, m: Memory<V>, v: V, i: nat, evicted: Option<V>, op: Op, spurious: bool)
    : Effect<V>
    requires Shaped(cfg, m)
  {
    var r := Step(cfg.max, m.used, op, spurious);
    var m' := m.(used := r.queue);
    var event := if r.event.Appended? then Enqueue(v) else Tau;
    if r.op.Pushed? then Effect(m', Done(Stored(evicted)), event)
    else Effect(m', PushUsed(v, i, evicted, r.op), event)
  }

  function StepPushCall<V>(cfg: Config, m: Memory<V>, th: Thread<V>, spurious: bool): Effect<V>
    requires Ready(cfg, m, th)
    requires PushCall(th)
  {
    match th
    case TakeFree(v, retry, op) => StepTakeFree(cfg, m, v, retry, op, spurious)
    case LoadCapacity(v) => Effect(m, Evict(v, StartPopIfSizeIsAtLeast(m.capacity)), Tau)
    case Evict(v, op) => StepEvict(cfg, m, v, op, spurious)
    case EvictSubSize(v, i) => Effect(m.(size := FetchSub(m.size)), EvictMove(v, i), Tau)
    case EvictMove(v, i) =>
      Effect(m.(buf := m.buf[i := None]), WriteSlot(v, i, m.buf[i]), Deliver(m.buf[i]))
    case WriteSlot(v, i, evicted) =>
      Effect(m.(buf := m.buf[i := Some(v)]), AddSize(v, i, evicted), Tau)
    case AddSize(v, i, evicted) =>
      Effect(m.(size := m.size + 1), PushUsed(v, i, evicted, PushLoad(i)), Tau)
    case PushUsed(v, i, evicted, op) => StepPushUsed(cfg, m, v, i, evicted, op, spurious)
  }

  function StepTakeUsed<V>(cfg: Config, m: Memory<V>, op: Op, spurious: bool): Effect<V>
    requires Shaped(cfg, m)
  {
    var r := Step(cfg.max, m.used, op, spurious);
    var m' := m.(used := r.queue);
    match r.op
    case Got(i) => Effect(m', PopSubSize(i), Dequeue)
    case NotGot => Effect(m', Done(Popped(None)), Tau)
    case op' => Effect(m', TakeUsed(op'), Tau)
  }

  function StepPushFree<V>(cfg: Config, m: Memory<V>, i: nat, out: Option<V>, op: Op, spurious: bool): Effect<V>
    requires Shaped(cfg, m)
  {
    var r := Step(cfg.max, m.free, op, spurious);
    var m' := m.(free := r.queue);
    if r.op.Pushed? then Effect(m', Done(Popped(out)), Tau)
    else Effect(m', PushFree(i, out, r.op), Tau)
  }

  function StepPopCall<V>(cfg: Config, m: Memory<V>, th: Thread<V>, spurious: bool): Effect<V>
    requires Ready(cfg, m, th)
    requires PopCall(th)
  {
    match th
    case TakeUsed(op) => StepTakeUsed(cfg, m, op, spurious)
    case PopSubSize(i) => Effect(m.(size := FetchSub(m.size)), PopMove(i), Tau)
    case PopMove(i) =>
      Effect(m.(buf := m.buf[i := None]), PushFree(i, m.buf[i], PushLoad(i)), Deliver(m.buf[i]))
    case PushFree(i, out, op) => StepPushFree(cfg, m, i, out, op, spurious)
  }

  /** The two calls that only load. */
  function StepQueryCall<V>(cfg: Config, m: Memory<V>, th: Thread<V>, spurious: bool): Effect<V>
    requires Ready(cfg, m, th)
    requires QueryCall(th)
  {
    match th
    case ReadEmpty(op) =>
      var op' := Step(cfg.max, m.used, op, spurious).op;
      Effect(m, if op'.EmptyIs? then Done(WasEmpty(op'.answer)) else ReadEmpty(op'), Tau)
    case ReadSize => Effect(m, Done(HadSize(m.size)), Tau)
  }

  function StepGrowPush<V>(cfg: Config, m: Memory<V>, g: Goal, i: nat, op: Op, spurious: bool): Effect<V>
    requires Shaped(cfg, m)
  {
    var r := Step(cfg.max, m.free, op, spurious);
    var m' := m.(free := r.queue);
    if r.op.Pushed? then Effect(m', GrowDrop(g, i), Tau)
    else Effect(m', GrowPush(g, i, r.op), Tau)
  }

  function StepShrinkFree<V>(cfg: Config, m: Memory<V>, g: Goal, op: Op, spurious: bool): Effect<V>
    requires Shaped(cfg, m)
  {
    var r := Step(cfg.max, m.free, op, spurious);
    var m' := m.(free := r.queue);
    match r.op
    case Got(i) => Effect(m', ShrinkStash(g, i, false), Tau)
    case NotGot => Effect(m', ShrinkLoad(g), Tau)
    case op' => Effect(m', ShrinkFree(g, op'), Tau)
  }

  function StepShrinkUsed<V>(cfg: Config, m: Memory<V>, g: Goal, op: Op, spurious: bool): Effect<V>
    requires Shaped(cfg, m)
  {
    var r := Step(cfg.max, m.used, op, spurious);
    var m' := m.(used := r.queue);
    match r.op
    case Got(i) => Effect(m', ShrinkSubSize(g, i), Dequeue)
    case NotGot => Effect(m', ShrinkFree(g, PopLoad), Tau)
    case op' => Effect(m', ShrinkUsed(g, op'), Tau)
  }

  /** After one more index was taken out of service: leave at capacity zero or when done,
      otherwise stay in the same inner loop. */
  function AfterShrink<V>(g: Goal, fromUsed: bool, before: nat): Thread<V> {
    var g' := g.(changed := g.changed + 1);
    if before == 1 || g'.changed >= g'.todo then CompareCapacity(g.target)
    else if fromUsed then ShrinkLoad(g')
    else ShrinkFree(g', PopLoad)
  }

  function StepResizeCall<V>(cfg: Config, m: Memory<V>, th: Thread<V>, spurious: bool): Effect<V>
    requires Ready(cfg, m, th)
    requires ResizeCall(th)
  {
    match th
    case TakeFlag(n) =>
      if m.resizing then Effect(m, Done(CapacitySet(false)), Tau)
      else Effect(m.(resizing := true), CompareCapacity(n), Tau)
    case CompareCapacity(n) =>
      if m.capacity == n then Effect(m, ClearFlag(n), Tau)
      else if m.capacity < n then Effect(m, Grow(Goal(n, n - m.capacity, 0)), Tau)
      else Effect(m, ShrinkFree(Goal(n, m.capacity - n, 0), PopLoad), Tau)
    case Grow(g) =>
      if g.changed >= g.todo || m.unused == [] then Effect(m, CompareCapacity(g.target), Tau)
      else
        var i := m.unused[|m.unused| - 1];
        Effect(m.(capacity := m.capacity + 1), GrowPush(g.(changed := g.changed + 1), i, PushLoad(i)), Tau)
    case GrowPush(g, i, op) => StepGrowPush(cfg, m, g, i, op, spurious)
    case GrowDrop(g, i) =>
      Effect(m.(unused := m.unused[..|m.unused| - 1]), Grow(g), Tau)
    case ShrinkFree(g, op) => StepShrinkFree(cfg, m, g, op, spurious)
    case ShrinkLoad(g) => Effect(m, ShrinkUsed(g, StartPopIfSizeIsAtLeast(m.capacity)), Tau)
    case ShrinkUsed(g, op) => StepShrinkUsed(cfg, m, g, op, spurious)
    case ShrinkSubSize(g, i) => Effect(m.(size := FetchSub(m.size)), ShrinkMove(g, i), Tau)
    case ShrinkMove(g, i) =>
      Effect(m.(buf := m.buf[i := None]), ShrinkStash(g, i, true), Deliver(m.buf[i]))
    case ShrinkStash(g, i, fromUsed) =>
      Effect(m.(unused := m.unused + [i]), ShrinkCapacity(g, fromUsed), Tau)
    case ShrinkCapacity(g, fromUsed) =>
      Effect(m.(capacity := FetchSub(m.capacity)), AfterShrink(g, fromUsed, m.capacity), Tau)
    case ClearFlag(_) => Effect(m.(resizing := false), Done(CapacitySet(true)), Tau)
  }

  predicate PushCall<V>(th: Thread<V>) {
    th.TakeFree? || th.LoadCapacity? || th.Evict? || th.EvictSubSize? || th.EvictMove?
    || th.WriteSlot? || th.AddSize? || th.PushUsed?
  }

  predicate PopCall<V>(th: Thread<V>) {
    th.TakeUsed? || th.PopSubSize? || th.PopMove? || th.PushFree?
  }

  predicate QueryCall<V>(th: Thread<V>) {
    th.ReadEmpty? || th.ReadSize?
  }

  predicate ResizeCall<V>(th: Thread<V>) {
    !th.Done? && !PushCall(th) && !PopCall(th) && !QueryCall(th)
  }

  function ThreadStep<V>(cfg: Config, m: Memory<V>, th: Thread<V>, spurious: bool): Effect<V>
    requires Ready(cfg, m, th)
  {
    if th.Done? then Effect(m, th, Tau)
    else if PushCall(th) then StepPushCall(cfg, m, th, spurious)
    else if PopCall(th) then StepPopCall(cfg, m, th, spurious)
    else if QueryCall(th) then StepQueryCall(cfg, m, th, spurious)
    else StepResizeCall(cfg, m, th, spurious)
  }
}
