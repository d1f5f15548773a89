/**
 With a capacity of zero an overwriting push that runs alone pops from two empty queues for ever.
*/
module LockFreeQueueSolo {
  import opened CyclicIndex
  import opened Options
  import opened IndexQueueProtocol
  import opened LockFreeQueueProtocol
  import opened LockFreeQueueOwnership

  /** The thread runs alone; `choices` says which compare-exchanges fail for no reason. */
  function RunSolo<V>(cfg: Config, m: Memory<V>, th: Thread<V>, choices: seq<bool>): (Memory<V>, Thread<V>)
    decreases choices
  {
    if choices == [] || !Ready(cfg, m, th) then (m, th)
    else
      var e := ThreadStep(cfg, m, th, choices[0]);
      RunSolo(cfg, e.mem, e.th, choices[1..])
  }

  /** An evicting push that has not got an index, with none to get. */
  ghost predicate Spinning<V>(cfg: Config, m: Memory<V>, th: Thread<V>) {
    && cfg.resizeable && m.capacity == 0
    && MemoryInv(cfg, m) && ThreadInv(cfg, m, th)
    && Contents(cfg.max, m.free) == [] && Contents(cfg.max, m.used) == []
    && ((th.TakeFree? && th.retry) || th.LoadCapacity? || th.Evict?)
  }

  /** A pop from an empty queue gets nothing and changes nothing. */
  lemma PopOfNothing(c: nat, q: Queue, op: Op, spurious: bool)
    requires QueueInv(c, q) && OpInv(c, q, op) && Contents(c, q) == []
    requires Popping(op) || PoppingIfFull(op) || PoppingIfSize(op)
    ensures var r := Step(c, q, op, spurious);
      r.queue == q && OpInv(c, q, r.op) && !r.op.Got? && PopStays(op, r.op)
  {
    hide Step, QueueInv, OpInv, Contents;
    PopOutcome(c, q, op, spurious);
    PopLeaves(c, q, op, spurious);
  }

  lemma PopLeaves(c: nat, q: Queue, op: Op, spurious: bool)
    requires Shape(c, q) && (Popping(op) || PoppingIfFull(op) || PoppingIfSize(op))
    ensures var r := Step(c, q, op, spurious); r.op.Got? || r.queue == q
  {
    hide LoadValueAt, OneCycleBehind, CycleOf, IndexOf;
  }

  lemma SpinStep<V>(cfg: Config, m: Memory<V>, th: Thread<V>, spurious: bool)
    requires Spinning(cfg, m, th)
    ensures Ready(cfg, m, th)
    ensures var e := ThreadStep(cfg, m, th, spurious); e.mem == m && Spinning(cfg, m, e.th)
  {
    hide Step, QueueInv, OpInv, Contents;
    CallsStart(cfg.max, m.free, 0, 0);
    CallsStart(cfg.max, m.used, 0, 0);
    match th
    case TakeFree(_, _, op) => PopOfNothing(cfg.max, m.free, op, spurious);
    case Evict(_, op) => PopOfNothing(cfg.max, m.used, op, spurious);
    case LoadCapacity(_) =>
  }

  /** With a capacity of zero and nothing in either queue a push never returns, and never changes
      anything, however its compare-exchanges fare. */
  lemma {:induction false} SpinsForEver<V>(cfg: Config, m: Memory<V>, th: Thread<V>, choices: seq<bool>)
    requires Spinning(cfg, m, th)
    ensures RunSolo(cfg, m, th, choices).0 == m
    ensures Spinning(cfg, m, RunSolo(cfg, m, th, choices).1) && !RunSolo(cfg, m, th, choices).1.Done?
    decreases choices
  {
    hide ThreadStep, MemoryInv, ThreadInv, Contents, Ready;
    if choices != [] {
      SpinStep(cfg, m, th, choices[0]);
      SpinsForEver(cfg, m, ThreadStep(cfg, m, th, choices[0]).th, choices[1..]);
    }
  }
}
