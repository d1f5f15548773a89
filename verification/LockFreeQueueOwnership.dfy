/**
 Index conservation for the lock-free queues: in every reachable state each index 0..max-1 is
 in exactly one place. It is what makes IndexQueue.push safe, which never looks at the read
 position, and what makes the unsynchronized accesses to the value buffer race free.
*/
module LockFreeQueueOwnership {
  import opened Options
  import opened Indices
  import opened IndexQueueProtocol
  import opened LockFreeQueueProtocol

  // ---------------------------------------------------------------------------------------
  // Places

  datatype Place = InFree | InUsed | InUnused | HeldBy(t: nat)

  /** The index a thread owns: taken out of a queue or list and not yet handed on. */
  function Held<V>(th: Thread<V>): Option<nat> {
    match th
    case EvictSubSize(_, i) => Some(i)
    case EvictMove(_, i) => Some(i)
    case WriteSlot(_, i, _) => Some(i)
    case AddSize(_, i, _) => Some(i)
    case PushUsed(_, i, _, op) => if Publishing(op) then Some(i) else None
    case PopSubSize(i) => Some(i)
    case PopMove(i) => Some(i)
    case PushFree(i, _, op) => if Publishing(op) then Some(i) else None
    case GrowPush(_, i, op) => if Publishing(op) then Some(i) else None
    case ShrinkSubSize(_, i) => Some(i)
    case ShrinkMove(_, i) => Some(i)
    case ShrinkStash(_, i, _) => Some(i)
    case _ => None
  }

  /** Where a thread that is about to own an index takes it from. */
  function Source<V>(th: Thread<V>): Place {
    if th.TakeFree? || th.ShrinkFree? then InFree
    else if th.Grow? then InUnused
    else InUsed
  }

  /** Where a thread hands the index it owns to. */
  function Destination<V>(th: Thread<V>): Place {
    if th.PushUsed? then InUsed
    else if th.ShrinkStash? then InUnused
    else InFree
  }

  /** The sequence `s` holds, once each, exactly the indices at `place`. */
  ghost predicate Holds(own: seq<Place>, place: Place, s: seq<nat>) {
    && NoDuplicates(s)
    && (forall i :: i in s ==> i < |own| && own[i] == place)
    && (forall i :: 0 <= i < |own| && own[i] == place ==> i in s)
  }

  lemma HoldsAppend(own: seq<Place>, place: Place, s: seq<nat>, i: nat)
    requires Holds(own, place, s) && i < |own| && own[i] != place
    ensures Holds(own[i := place], place, s + [i])
  {
  }

  lemma HoldsDropHead(own: seq<Place>, place: Place, s: seq<nat>, i: nat, s': seq<nat>, to: Place)
    requires Holds(own, place, s) && s == [i] + s' && to != place
    ensures i < |own| && own[i] == place && Holds(own[i := to], place, s')
  {
    assert s[0] == i && s[1..] == s';
    assert i in s;
    assert forall k :: 0 <= k < |s'| ==> s'[k] == s[k + 1] && s[k + 1] != s[0];
    assert forall x :: x in s <==> x == i || x in s';
  }

  lemma HoldsDropLast(own: seq<Place>, place: Place, s: seq<nat>, i: nat, s': seq<nat>, to: Place)
    requires Holds(own, place, s) && s == s' + [i] && to != place
    ensures i < |own| && own[i] == place && Holds(own[i := to], place, s')
  {
    assert s[|s'|] == i && s[..|s'|] == s';
    assert i in s;
    assert forall k :: 0 <= k < |s'| ==> s'[k] == s[k] && s[k] != s[|s'|];
    assert forall x :: x in s <==> x == i || x in s';
  }

  lemma HoldsElsewhere(own: seq<Place>, place: Place, s: seq<nat>, i: nat, to: Place)
    requires Holds(own, place, s) && i < |own| && own[i] != place && to != place
    ensures Holds(own[i := to], place, s)
  {
  }

  // ---------------------------------------------------------------------------------------
  // Thread-local invariants

  ghost predicate MemoryInv<V>(cfg: Config, m: Memory<V>) {
    && QueueInv(cfg.max, m.free) && QueueInv(cfg.max, m.used)
    && |m.buf| == cfg.max
  }

  /** A push of the index `i` in progress on `q`. */
  ghost predicate PushInv(c: nat, q: Queue, op: Op, i: nat)
    requires Shape(c, q)
  {
    && (Publishing(op) || op.PushFinish?)
    && (Publishing(op) ==> op.idx == i)
    && OpInv(c, q, op)
  }

  predicate Live<V>(cfg: Config, m: Memory<V>, i: nat) {
    i < cfg.max && i < |m.buf| && m.buf[i].Some?
  }

  predicate Dead<V>(cfg: Config, m: Memory<V>, i: nat) {
    i < cfg.max && i < |m.buf| && m.buf[i].None?
  }

  predicate EndsWith(s: seq<nat>, i: nat) {
    s != [] && s[|s| - 1] == i
  }

  ghost predicate ThreadInv<V>(cfg: Config, m: Memory<V>, th: Thread<V>)
    requires Shaped(cfg, m)
  {
    var c := cfg.max;
    match th
    case TakeFree(_, _, op) => Popping(op) && OpInv(c, m.free, op)
    case Evict(_, op) =>
      && OpInv(c, m.used, op)
      && if cfg.resizeable then Popping(op) || PoppingIfSize(op) else PoppingIfFull(op)
    case LoadCapacity(_) => cfg.resizeable
    case EvictSubSize(_, i) => Live(cfg, m, i)
    case EvictMove(_, i) => Live(cfg, m, i)
    case WriteSlot(_, i, _) => Dead(cfg, m, i)
    case AddSize(v, i, _) => Live(cfg, m, i) && m.buf[i] == Some(v)
    case PushUsed(v, i, _, op) =>
      PushInv(c, m.used, op, i) && (Publishing(op) ==> Live(cfg, m, i) && m.buf[i] == Some(v))
    case TakeUsed(op) => Popping(op) && OpInv(c, m.used, op)
    case ReadEmpty(op) => AskingEmpty(op) && OpInv(c, m.used, op)
    case PopSubSize(i) => Live(cfg, m, i)
    case PopMove(i) => Live(cfg, m, i)
    case PushFree(i, _, op) => PushInv(c, m.free, op, i) && (Publishing(op) ==> Dead(cfg, m, i))
    case GrowPush(_, i, op) =>
      && PushInv(c, m.free, op, i) && (Publishing(op) ==> Dead(cfg, m, i))
      && EndsWith(m.unused, i)
    case GrowDrop(_, i) => EndsWith(m.unused, i)
    case ShrinkFree(_, op) => Popping(op) && OpInv(c, m.free, op)
    case ShrinkUsed(_, op) => (Popping(op) || PoppingIfSize(op)) && OpInv(c, m.used, op)
    case ShrinkSubSize(_, i) => Live(cfg, m, i)
    case ShrinkMove(_, i) => Live(cfg, m, i)
    case ShrinkStash(_, i, _) => Dead(cfg, m, i)
    case ShrinkCapacity(_, _) => m.unused != []
    case ClearFlag(n) => m.capacity == n
    case _ => true
  }

  /** The thread that holds the resize flag. */
  predicate Resizing<V>(th: Thread<V>) {
    ResizeCall(th) && !th.TakeFlag?
  }

  /** increaseCapacity pushes the last unused index before it drops it from the list. */
  predicate HandsOver<V>(th: Thread<V>) {
    th.GrowPush? || th.GrowDrop?
  }

  /** The unused indices, without one that is being handed over. */
  function Kept<V>(m: Memory<V>, th: Thread<V>): seq<nat> {
    if HandsOver(th) && m.unused != [] then m.unused[..|m.unused| - 1] else m.unused
  }

  /** The room an own push relies on. */
  ghost predicate ThreadRoom<V>(cfg: Config, m: Memory<V>, th: Thread<V>)
    requires MemoryInv(cfg, m)
  {
    && (th.PushUsed? ==> HasRoom(cfg.max, m.used, th.op))
    && (th.PushFree? || th.GrowPush? ==> HasRoom(cfg.max, m.free, th.op))
  }

  // ---------------------------------------------------------------------------------------
  // A step seen by the stepping thread

  /** What a step does to one of the index sequences. */
  ghost predicate Moves<V>(place: Place, th: Thread<V>, th': Thread<V>, s: seq<nat>, s': seq<nat>) {
    match (Held(th), Held(th'))
    case (None, Some(i)) =>
      if Source(th) == place then s == (if place == InUnused then s' + [i] else [i] + s') else s' == s
    case (Some(i), None) => if Destination(th) == place then s' == s + [i] else s' == s
    case (Some(i), Some(j)) => i == j && s' == s
    case (None, None) => s' == s
  }

  ghost predicate StepMoves<V>(cfg: Config, m: Memory<V>, th: Thread<V>, e: Effect<V>) {
    && MemoryInv(cfg, m) && MemoryInv(cfg, e.mem)
    && ThreadInv(cfg, e.mem, e.th)
    && Moves(InFree, th, e.th, Contents(cfg.max, m.free), Contents(cfg.max, e.mem.free))
    && Moves(InUsed, th, e.th, Contents(cfg.max, m.used), Contents(cfg.max, e.mem.used))
    && Moves(InUnused, th, e.th, Kept(m, th), Kept(e.mem, e.th))
  }

  /** What the stepping thread knows of the indices it does not own. */
  ghost predicate BufferInv<V>(cfg: Config, m: Memory<V>, th: Thread<V>)
    requires MemoryInv(cfg, m)
  {
    && (forall i :: i in Contents(cfg.max, m.free) ==> Dead(cfg, m, i))
    && (forall i :: i in Contents(cfg.max, m.used) ==> Live(cfg, m, i))
    && (Resizing(th) ==> forall i :: i in m.unused && !HandsOver(th) ==> Dead(cfg, m, i))
  }

  ghost predicate MayStep<V>(cfg: Config, m: Memory<V>, th: Thread<V>) {
    && MemoryInv(cfg, m) && ThreadInv(cfg, m, th) && ThreadRoom(cfg, m, th) && BufferInv(cfg, m, th)
  }

  /** A pop of the free queue moves its head to the thread, or moves nothing. */
  lemma PoppedFree<V>(cfg: Config, m: Memory<V>, th: Thread<V>, op: Op, spurious: bool, e: Effect<V>)
    requires MemoryInv(cfg, m) && OpInv(cfg.max, m.free, op)
    requires Popping(op) || PoppingIfFull(op) || PoppingIfSize(op)
    requires Held(th).None? && Source(th) == InFree
    requires var r := Step(cfg.max, m.free, op, spurious);
      && e.mem == m.(free := r.queue) && Kept(e.mem, e.th) == Kept(m, th)
      && Held(e.th) == if r.op.Got? then Some(r.op.got) else None
    requires Shaped(cfg, e.mem) && ThreadInv(cfg, e.mem, e.th)
    ensures StepMoves(cfg, m, th, e)
  {
    hide Step, QueueInv, OpInv, Contents, ThreadInv, Held, Source, Destination, Kept;
    PopOutcome(cfg.max, m.free, op, spurious);
  }

  /** A pop of the used queue moves its head to the thread, or moves nothing. */
  lemma PoppedUsed<V>(cfg: Config, m: Memory<V>, th: Thread<V>, op: Op, spurious: bool, e: Effect<V>)
    requires MemoryInv(cfg, m) && OpInv(cfg.max, m.used, op)
    requires Popping(op) || PoppingIfFull(op) || PoppingIfSize(op)
    requires Held(th).None? && Source(th) == InUsed
    requires var r := Step(cfg.max, m.used, op, spurious);
      && e.mem == m.(used := r.queue) && Kept(e.mem, e.th) == Kept(m, th)
      && Held(e.th) == if r.op.Got? then Some(r.op.got) else None
    requires Shaped(cfg, e.mem) && ThreadInv(cfg, e.mem, e.th)
    ensures StepMoves(cfg, m, th, e)
  {
    hide Step, QueueInv, OpInv, Contents, ThreadInv, Held, Source, Destination, Kept;
    PopOutcome(cfg.max, m.used, op, spurious);
  }

  /** The popped index names a destroyed slot, or a live one. */
  lemma PopOf<V>(cfg: Config, m: Memory<V>, th: Thread<V>, op: Op, spurious: bool)
    requires MayStep(cfg, m, th)
    requires Popping(op) || PoppingIfFull(op) || PoppingIfSize(op)
    ensures OpInv(cfg.max, m.free, op) ==>
      var r := Step(cfg.max, m.free, op, spurious);
      OpInv(cfg.max, r.queue, r.op) && PopStays(op, r.op) && (r.op.Got? ==> Dead(cfg, m, r.op.got))
    ensures OpInv(cfg.max, m.used, op) ==>
      var r := Step(cfg.max, m.used, op, spurious);
      OpInv(cfg.max, r.queue, r.op) && PopStays(op, r.op) && (r.op.Got? ==> Live(cfg, m, r.op.got))
  {
    hide Step, QueueInv, OpInv, Contents, ThreadInv;
    if OpInv(cfg.max, m.free, op) { PopOutcome(cfg.max, m.free, op, spurious); }
    if OpInv(cfg.max, m.used, op) { PopOutcome(cfg.max, m.used, op, spurious); }
  }

  /** A pop that goes on stays of its kind. */
  predicate PopStays(op: Op, op': Op) {
    || op'.Got? || op'.NotGot?
    || (Popping(op) && Popping(op')) || (PoppingIfFull(op) && PoppingIfFull(op')) || (PoppingIfSize(op) && PoppingIfSize(op'))
  }

  lemma TakeFreeMoves<V>(cfg: Config, m: Memory<V>, v: V, retry: bool, op: Op, spurious: bool)
    requires MayStep(cfg, m, TakeFree(v, retry, op))
    ensures StepMoves(cfg, m, TakeFree(v, retry, op), StepTakeFree(cfg, m, v, retry, op, spurious))
  {
    hide Step, QueueInv, OpInv, Contents, BufferInv, ThreadRoom, StepMoves;
    PopOf(cfg, m, TakeFree(v, retry, op), op, spurious);
    CallsStart(cfg.max, m.used, 0, m.capacity);
    PoppedFree(cfg, m, TakeFree(v, retry, op), op, spurious, StepTakeFree(cfg, m, v, retry, op, spurious));
  }

  lemma EvictMoves<V>(cfg: Config, m: Memory<V>, v: V, op: Op, spurious: bool)
    requires MayStep(cfg, m, Evict(v, op))
    ensures StepMoves(cfg, m, Evict(v, op), StepEvict(cfg, m, v, op, spurious))
  {
    hide Step, QueueInv, OpInv, Contents, BufferInv, ThreadRoom, StepMoves;
    PopOf(cfg, m, Evict(v, op), op, spurious);
    CallsStart(cfg.max, m.free, 0, m.capacity);
    PoppedUsed(cfg, m, Evict(v, op), op, spurious, StepEvict(cfg, m, v, op, spurious));
  }

  lemma TakeUsedMoves<V>(cfg: Config, m: Memory<V>, op: Op, spurious: bool)
    requires MayStep(cfg, m, TakeUsed(op))
    ensures StepMoves(cfg, m, TakeUsed(op), StepTakeUsed(cfg, m, op, spurious))
  {
    hide Step, QueueInv, OpInv, Contents, BufferInv, ThreadRoom, StepMoves;
    PopOf(cfg, m, TakeUsed(op), op, spurious);
    CallsStart(cfg.max, m.free, 0, m.capacity);
    PoppedUsed(cfg, m, TakeUsed(op), op, spurious, StepTakeUsed(cfg, m, op, spurious));
  }

  lemma PushUsedMoves<V>(cfg: Config, m: Memory<V>, v: V, i: nat, evicted: Option<V>, op: Op, spurious: bool)
    requires MayStep(cfg, m, PushUsed(v, i, evicted, op))
    ensures StepMoves(cfg, m, PushUsed(v, i, evicted, op), StepPushUsed(cfg, m, v, i, evicted, op, spurious))
  {
    hide Step, QueueInv, OpInv, Contents;
    PushOutcome(cfg.max, m.used, op, spurious);
  }

  lemma PushFreeMoves<V>(cfg: Config, m: Memory<V>, i: nat, out: Option<V>, op: Op, spurious: bool)
    requires MayStep(cfg, m, PushFree(i, out, op))
    ensures StepMoves(cfg, m, PushFree(i, out, op), StepPushFree(cfg, m, i, out, op, spurious))
  {
    hide Step, QueueInv, OpInv, Contents;
    PushOutcome(cfg.max, m.free, op, spurious);
  }

  lemma GrowPushMoves<V>(cfg: Config, m: Memory<V>, g: Goal, i: nat, op: Op, spurious: bool)
    requires MayStep(cfg, m, GrowPush(g, i, op))
    ensures StepMoves(cfg, m, GrowPush(g, i, op), StepGrowPush(cfg, m, g, i, op, spurious))
  {
    hide Step, QueueInv, OpInv, Contents;
    PushOutcome(cfg.max, m.free, op, spurious);
  }

  lemma ShrinkFreeMoves<V>(cfg: Config, m: Memory<V>, g: Goal, op: Op, spurious: bool)
    requires MayStep(cfg, m, ShrinkFree(g, op))
    ensures StepMoves(cfg, m, ShrinkFree(g, op), StepShrinkFree(cfg, m, g, op, spurious))
  {
    hide Step, QueueInv, OpInv, Contents, BufferInv, ThreadRoom, StepMoves;
    PopOf(cfg, m, ShrinkFree(g, op), op, spurious);
    CallsStart(cfg.max, m.used, 0, m.capacity);
    PoppedFree(cfg, m, ShrinkFree(g, op), op, spurious, StepShrinkFree(cfg, m, g, op, spurious));
  }

  lemma ShrinkUsedMoves<V>(cfg: Config, m: Memory<V>, g: Goal, op: Op, spurious: bool)
    requires MayStep(cfg, m, ShrinkUsed(g, op))
    ensures StepMoves(cfg, m, ShrinkUsed(g, op), StepShrinkUsed(cfg, m, g, op, spurious))
  {
    hide Step, QueueInv, OpInv, Contents, BufferInv, ThreadRoom, StepMoves;
    PopOf(cfg, m, ShrinkUsed(g, op), op, spurious);
    CallsStart(cfg.max, m.free, 0, m.capacity);
    PoppedUsed(cfg, m, ShrinkUsed(g, op), op, spurious, StepShrinkUsed(cfg, m, g, op, spurious));
  }

  predicate OnQueue<V>(th: Thread<V>) {
    || th.TakeFree? || th.ShrinkFree? || th.TakeUsed? || th.Evict? || th.ShrinkUsed?
    || th.PushUsed? || th.PushFree? || th.GrowPush?
  }

  lemma LocalCallMoves<V>(cfg: Config, m: Memory<V>, th: Thread<V>, spurious: bool)
    requires MayStep(cfg, m, th) && !OnQueue(th) && !ResizeCall(th) && !QueryCall(th)
    ensures StepMoves(cfg, m, th, ThreadStep(cfg, m, th, spurious))
  {
    hide QueueInv, Contents;
  }

  lemma QueryMoves<V>(cfg: Config, m: Memory<V>, th: Thread<V>, spurious: bool)
    requires MayStep(cfg, m, th) && QueryCall(th)
    ensures StepMoves(cfg, m, th, ThreadStep(cfg, m, th, spurious))
  {
    hide QueueInv, Contents, OpInv, Step;
    if th.ReadEmpty? {
      StepRefines(cfg.max, m.used, th.op, spurious);
      StepKinds(cfg.max, m.used, th.op, spurious);
      EmptyOnlyLoads(cfg.max, m.used, th.op, spurious);
    }
  }

  predicate OnUnused<V>(th: Thread<V>) {
    th.Grow? || th.GrowDrop? || th.ShrinkStash?
  }

  lemma GrowMoves<V>(cfg: Config, m: Memory<V>, g: Goal, spurious: bool)
    requires MayStep(cfg, m, Grow(g))
    ensures StepMoves(cfg, m, Grow(g), StepResizeCall(cfg, m, Grow(g), spurious))
  {
    hide QueueInv, Contents, OpInv;
    if m.unused != [] {
      var i := m.unused[|m.unused| - 1];
      assert i in m.unused;
      CallsStart(cfg.max, m.free, i, 0);
    }
  }

  lemma UnusedMoves<V>(cfg: Config, m: Memory<V>, th: Thread<V>, spurious: bool)
    requires MayStep(cfg, m, th) && OnUnused(th)
    ensures StepMoves(cfg, m, th, ThreadStep(cfg, m, th, spurious))
  {
    hide QueueInv, Contents, OpInv, BufferInv;
    if th.Grow? { GrowMoves(cfg, m, th.g, spurious); }
  }

  lemma RemovalMoves<V>(cfg: Config, m: Memory<V>, th: Thread<V>, spurious: bool)
    requires MayStep(cfg, m, th) && (th.ShrinkSubSize? || th.ShrinkMove?)
    ensures StepMoves(cfg, m, th, StepResizeCall(cfg, m, th, spurious))
  {
    hide QueueInv, Contents, OpInv, BufferInv;
  }

  lemma LoopMoves<V>(cfg: Config, m: Memory<V>, th: Thread<V>, spurious: bool)
    requires MayStep(cfg, m, th) && !OnQueue(th) && ResizeCall(th) && !OnUnused(th)
    requires !th.ShrinkSubSize? && !th.ShrinkMove?
    ensures StepMoves(cfg, m, th, StepResizeCall(cfg, m, th, spurious))
  {
    hide QueueInv, Contents, OpInv, BufferInv;
    CallsStart(cfg.max, m.free, 0, 0);
    CallsStart(cfg.max, m.used, 0, m.capacity);
  }

  lemma LocalResizeMoves<V>(cfg: Config, m: Memory<V>, th: Thread<V>, spurious: bool)
    requires MayStep(cfg, m, th) && !OnQueue(th) && ResizeCall(th) && !OnUnused(th)
    ensures StepMoves(cfg, m, th, ThreadStep(cfg, m, th, spurious))
  {
    hide MayStep, StepMoves, StepResizeCall;
    if th.ShrinkSubSize? || th.ShrinkMove? { RemovalMoves(cfg, m, th, spurious); } else { LoopMoves(cfg, m, th, spurious); }
  }

  lemma ThreadMoves<V>(cfg: Config, m: Memory<V>, th: Thread<V>, spurious: bool)
    requires MayStep(cfg, m, th)
    ensures StepMoves(cfg, m, th, ThreadStep(cfg, m, th, spurious))
  {
    hide MayStep, StepMoves, StepTakeFree, StepEvict, StepPushUsed, StepTakeUsed, StepPushFree;
    hide StepGrowPush, StepShrinkFree, StepShrinkUsed;
    match th {
      case TakeFree(v, retry, op) => TakeFreeMoves(cfg, m, v, retry, op, spurious);
      case Evict(v, op) => EvictMoves(cfg, m, v, op, spurious);
      case PushUsed(v, i, evicted, op) => PushUsedMoves(cfg, m, v, i, evicted, op, spurious);
      case TakeUsed(op) => TakeUsedMoves(cfg, m, op, spurious);
      case PushFree(i, out, op) => PushFreeMoves(cfg, m, i, out, op, spurious);
      case GrowPush(g, i, op) => GrowPushMoves(cfg, m, g, i, op, spurious);
      case ShrinkFree(g, op) => ShrinkFreeMoves(cfg, m, g, op, spurious);
      case ShrinkUsed(g, op) => ShrinkUsedMoves(cfg, m, g, op, spurious);
      case _ =>
        if OnUnused(th) { UnusedMoves(cfg, m, th, spurious); }
        else if ResizeCall(th) { LocalResizeMoves(cfg, m, th, spurious); }
        else if QueryCall(th) { QueryMoves(cfg, m, th, spurious); }
        else { LocalCallMoves(cfg, m, th, spurious); }
    }
  }

  // ---------------------------------------------------------------------------------------
  // A step seen by another thread

  /** A step leaves alone what it does not own: calls in flight on either queue, the buffer
      slots of other indices, and the list of unused indices unless it holds the flag. */
  ghost predicate Framed<V>(cfg: Config, m: Memory<V>, th: Thread<V>, m': Memory<V>, o: Op)
    requires Shaped(cfg, m) && Shaped(cfg, m')
  {
    && (OpInv(cfg.max, m.free, o) ==> OpInv(cfg.max, m'.free, o))
    && (OpInv(cfg.max, m.used, o) ==> OpInv(cfg.max, m'.used, o))
    && (forall i :: 0 <= i < cfg.max && Held(th) != Some(i) ==> m'.buf[i] == m.buf[i])
    && (!Resizing(th) ==> m'.unused == m.unused && m'.capacity == m.capacity)
  }

  predicate OnFree<V>(th: Thread<V>) {
    th.TakeFree? || th.PushFree? || th.GrowPush? || th.ShrinkFree?
  }

  predicate OnUsed<V>(th: Thread<V>) {
    th.Evict? || th.PushUsed? || th.TakeUsed? || th.ShrinkUsed?
  }

  ghost predicate OnQueues<V>(cfg: Config, m: Memory<V>, th: Thread<V>, m': Memory<V>, spurious: bool)
    requires Shaped(cfg, m)
  {
    && m'.free == (if OnFree(th) then Step(cfg.max, m.free, th.op, spurious).queue else m.free)
    && m'.used == (if OnUsed(th) then Step(cfg.max, m.used, th.op, spurious).queue else m.used)
  }

  lemma PushOnQueues<V>(cfg: Config, m: Memory<V>, th: Thread<V>, spurious: bool)
    requires Ready(cfg, m, th) && PushCall(th)
    ensures OnQueues(cfg, m, th, StepPushCall(cfg, m, th, spurious).mem, spurious)
  {
    hide Step;
  }

  lemma PopOnQueues<V>(cfg: Config, m: Memory<V>, th: Thread<V>, spurious: bool)
    requires Ready(cfg, m, th) && PopCall(th)
    ensures OnQueues(cfg, m, th, StepPopCall(cfg, m, th, spurious).mem, spurious)
  {
    hide Step;
  }

  lemma ResizeOnQueues<V>(cfg: Config, m: Memory<V>, th: Thread<V>, spurious: bool)
    requires Ready(cfg, m, th) && ResizeCall(th)
    ensures OnQueues(cfg, m, th, StepResizeCall(cfg, m, th, spurious).mem, spurious)
  {
    hide Step;
  }

  /** A step on a queue is a step of the call in progress on it, and nothing else moves. */
  lemma StepOnQueues<V>(cfg: Config, m: Memory<V>, th: Thread<V>, spurious: bool)
    requires Ready(cfg, m, th)
    ensures OnQueues(cfg, m, th, ThreadStep(cfg, m, th, spurious).mem, spurious)
  {
    hide Step, StepPushCall, StepPopCall, StepResizeCall;
    if PushCall(th) { PushOnQueues(cfg, m, th, spurious); }
    else if PopCall(th) { PopOnQueues(cfg, m, th, spurious); }
    else if ResizeCall(th) { ResizeOnQueues(cfg, m, th, spurious); }
  }

  ghost predicate Fixed<V>(m: Memory<V>, e: Effect<V>) {
    !ResizeCall(e.th) && e.mem.capacity == m.capacity && e.mem.unused == m.unused
  }

  lemma PushStays<V>(cfg: Config, m: Memory<V>, th: Thread<V>, spurious: bool)
    requires Ready(cfg, m, th) && PushCall(th)
    ensures Fixed(m, StepPushCall(cfg, m, th, spurious))
  {
    hide Step;
  }

  lemma PopStaysPop<V>(cfg: Config, m: Memory<V>, th: Thread<V>, spurious: bool)
    requires Ready(cfg, m, th) && PopCall(th)
    ensures Fixed(m, StepPopCall(cfg, m, th, spurious))
  {
    hide Step;
  }

  /** Only resizes touch the capacity and the unused indices. */
  lemma StaysInCall<V>(cfg: Config, m: Memory<V>, th: Thread<V>, spurious: bool)
    requires Ready(cfg, m, th) && !ResizeCall(th)
    ensures Fixed(m, ThreadStep(cfg, m, th, spurious))
  {
    hide Step, StepPushCall, StepPopCall;
    if PushCall(th) { PushStays(cfg, m, th, spurious); }
    else if PopCall(th) { PopStaysPop(cfg, m, th, spurious); }
  }

  /** A step changes at most the buffer slot of an index it owns, and the list of unused indices
      and the capacity only while it holds the resize flag. */
  ghost predicate OnBuffer<V>(cfg: Config, m: Memory<V>, th: Thread<V>, m': Memory<V>)
    requires |m.buf| == cfg.max
  {
    && |m'.buf| == cfg.max
    && (forall i :: 0 <= i < cfg.max && Held(th) != Some(i) ==> m'.buf[i] == m.buf[i])
    && (Touches(th).None? ==> m'.buf == m.buf)
    && (!Resizing(th) ==> m'.unused == m.unused && m'.capacity == m.capacity)
  }

  /** The resize flag changes hands only in test_and_set and clear. */
  ghost predicate OnFlag<V>(m: Memory<V>, th: Thread<V>, e: Effect<V>) {
    && (Resizing(th) == Resizing(e.th) ==> e.mem.resizing == m.resizing)
    && (!Resizing(th) && Resizing(e.th) ==> !m.resizing && e.mem.resizing && !HandsOver(e.th))
    && (Resizing(th) && !Resizing(e.th) ==> !e.mem.resizing)
  }

  lemma PushOnBufferAndFlag<V>(cfg: Config, m: Memory<V>, th: Thread<V>, spurious: bool)
    requires Ready(cfg, m, th) && PushCall(th)
    ensures var e := StepPushCall(cfg, m, th, spurious); OnBuffer(cfg, m, th, e.mem) && OnFlag(m, th, e)
  {
    hide Step;
  }

  lemma PopOnBufferAndFlag<V>(cfg: Config, m: Memory<V>, th: Thread<V>, spurious: bool)
    requires Ready(cfg, m, th) && PopCall(th)
    ensures var e := StepPopCall(cfg, m, th, spurious); OnBuffer(cfg, m, th, e.mem) && OnFlag(m, th, e)
  {
    hide Step;
  }

  lemma ResizeOnBufferAndFlag<V>(cfg: Config, m: Memory<V>, th: Thread<V>, spurious: bool)
    requires Ready(cfg, m, th) && ResizeCall(th)
    ensures var e := StepResizeCall(cfg, m, th, spurious); OnBuffer(cfg, m, th, e.mem) && OnFlag(m, th, e)
  {
    hide Step;
  }

  lemma StepOnBuffer<V>(cfg: Config, m: Memory<V>, th: Thread<V>, spurious: bool)
    requires Ready(cfg, m, th)
    ensures var e := ThreadStep(cfg, m, th, spurious); OnBuffer(cfg, m, th, e.mem) && OnFlag(m, th, e)
  {
    hide StepPushCall, StepPopCall, StepResizeCall;
    if PushCall(th) { PushOnBufferAndFlag(cfg, m, th, spurious); }
    else if PopCall(th) { PopOnBufferAndFlag(cfg, m, th, spurious); }
    else if ResizeCall(th) { ResizeOnBufferAndFlag(cfg, m, th, spurious); }
  }

  lemma QueuesFramed<V>(cfg: Config, m: Memory<V>, th: Thread<V>, spurious: bool, o: Op)
    requires MayStep(cfg, m, th)
    ensures var m' := ThreadStep(cfg, m, th, spurious).mem;
            && Shape(cfg.max, m'.free) && Shape(cfg.max, m'.used)
            && (OpInv(cfg.max, m.free, o) ==> OpInv(cfg.max, m'.free, o))
            && (OpInv(cfg.max, m.used, o) ==> OpInv(cfg.max, m'.used, o))
  {
    hide ThreadStep, Step, OpInv, QueueInv, Contents, BufferInv;
    StepOnQueues(cfg, m, th, spurious);
    if OnFree(th) && OpInv(cfg.max, m.free, o) { StepStable(cfg.max, m.free, th.op, spurious, o); }
    if OnUsed(th) && OpInv(cfg.max, m.used, o) { StepStable(cfg.max, m.used, th.op, spurious, o); }
  }

  lemma StepFramed<V>(cfg: Config, m: Memory<V>, th: Thread<V>, spurious: bool, o: Op)
    requires MayStep(cfg, m, th)
    ensures var m' := ThreadStep(cfg, m, th, spurious).mem;
            Shaped(cfg, m') && Framed(cfg, m, th, m', o)
  {
    hide ThreadStep, OpInv, QueueInv, Contents, BufferInv, OnFlag, ThreadRoom;
    QueuesFramed(cfg, m, th, spurious, o);
    StepOnBuffer(cfg, m, th, spurious);
  }

  /** What another thread relies on survives the step, unless both own the same index or both
      are resizing. */
  lemma OthersUndisturbed<V>(cfg: Config, m: Memory<V>, th: Thread<V>, spurious: bool, other: Thread<V>)
    requires MayStep(cfg, m, th) && ThreadInv(cfg, m, other)
    requires Held(th).Some? ==> Held(other) != Held(th)
    requires !(Resizing(th) && Resizing(other))
    ensures var m' := ThreadStep(cfg, m, th, spurious).mem;
            Shaped(cfg, m') && ThreadInv(cfg, m', other)
  {
    hide ThreadStep, Step, OpInv, MayStep;
    StepFramed(cfg, m, th, spurious, if OnQueue(other) || other.ReadEmpty? then other.op else PopLoad);
  }
}
