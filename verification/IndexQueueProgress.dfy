/**
 Lock-freedom of the index queue.

 However many calls are in flight and however they are scheduled, one of them makes progress: it
 finishes, appends its index or takes one out. A compare-exchange only fails because another call
 has made progress, or because another push moved the write position, which it can do once.
*/
module IndexQueueProgress {
  import opened CyclicIndex
  import opened IndexQueueProtocol

  /** The queue and the calls in flight on it. */
  datatype State = State(queue: Queue, ops: seq<Op>)

  /** Call `i` takes one step; no compare-exchange fails spuriously. */
  function StepOf(c: nat, s: State, i: nat): (s': State)
    requires Shape(c, s.queue) && i < |s.ops|
    ensures Shape(c, s'.queue) && |s'.ops| == |s.ops|
  {
    var r := Step(c, s.queue, s.ops[i], false);
    State(r.queue, s.ops[i := r.op])
  }

  /** The step neither finishes the call nor changes what is in the queue. */
  predicate Quiet(c: nat, s: State, i: nat)
    requires Shape(c, s.queue) && i < |s.ops|
  {
    var r := Step(c, s.queue, s.ops[i], false);
    !Finished(r.op) && r.event == Silent
  }

  ghost predicate InOrder(c: nat, s: State) {
    && QueueInv(c, s.queue)
    && forall i :: 0 <= i < |s.ops| ==> OpInv(c, s.queue, s.ops[i]) && HasRoom(c, s.queue, s.ops[i])
  }

  // ---------------------------------------------------------------------------------------
  // A measure of all calls together

  function Total(c: nat, q: Queue, ops: seq<Op>): (n: nat)
    requires Shape(c, q)
    ensures n <= 9 * |ops|
  {
    if ops == [] then 0 else StepsLeft(c, q, ops[0]) + Total(c, q, ops[1..])
  }

  lemma {:induction false} TotalUpdate(c: nat, q: Queue, ops: seq<Op>, i: nat, op: Op)
    requires Shape(c, q) && i < |ops|
    ensures Total(c, q, ops[i := op]) + StepsLeft(c, q, ops[i]) == Total(c, q, ops) + StepsLeft(c, q, op)
  {
    hide StepsLeft;
    var ops' := ops[i := op];
    if i == 0 {
      assert ops'[1..] == ops[1..];
    } else {
      assert ops'[1..] == ops[1..][i - 1 := op];
      TotalUpdate(c, q, ops[1..], i - 1, op);
    }
  }

  /** The steps all calls may take before one of them makes progress. */
  function Potential(c: nat, s: State): (n: nat)
    requires Shape(c, s.queue)
    ensures n <= 18 * |s.ops| + 1
  {
    Total(c, s.queue, s.ops) + if s.queue.wr < Frontier(c, s.queue) then 9 * |s.ops| + 1 else 0
  }

  /** A quiet step changes nothing in memory, or moves a write position that lagged. */
  lemma QuietMemory(c: nat, q: Queue, op: Op)
    requires QueueInv(c, q) && OpInv(c, q, op) && Step(c, q, op, false).event == Silent
    ensures var q' := Step(c, q, op, false).queue;
      q' == q || (q.wr < Frontier(c, q) && q' == q.(wr := q.wr + 1))
  {
    hide Contents, Published, CycleOf, IndexOf, Pack;
    FrontierIsClose(c, q);
  }

  lemma QuietKeepsOrder(c: nat, s: State, i: nat)
    requires InOrder(c, s) && i < |s.ops| && Quiet(c, s, i)
    ensures InOrder(c, StepOf(c, s, i))
  {
    hide QueueInv, OpInv, Step, Contents;
    var r := Step(c, s.queue, s.ops[i], false);
    StepKeepsRoom(c, s.queue, s.ops[i], false);
    StepRefines(c, s.queue, s.ops[i], false);
    var s' := StepOf(c, s, i);
    forall j | 0 <= j < |s'.ops|
      ensures OpInv(c, s'.queue, s'.ops[j]) && HasRoom(c, s'.queue, s'.ops[j])
    {
      if j != i { StepStable(c, s.queue, s.ops[i], false, s.ops[j]); }
    }
  }

  lemma QuietComesCloser(c: nat, s: State, i: nat)
    requires InOrder(c, s) && i < |s.ops| && !Finished(s.ops[i]) && Quiet(c, s, i)
    ensures Potential(c, StepOf(c, s, i)) < Potential(c, s)
  {
    hide OpInv, Step, StepsLeft, Frontier, HasRoom, QueueInv;
    var q, op := s.queue, s.ops[i];
    var r := Step(c, q, op, false);
    SoloProgress(c, q, op);
    QuietMemory(c, q, op);
    if r.queue == q {
      TotalUpdate(c, q, s.ops, i, r.op);
    } else {
      MoveWritePosition(c, q);
    }
  }

  // ---------------------------------------------------------------------------------------
  // Runs

  /** The state after the calls have been scheduled in this order. */
  function Run(c: nat, s: State, schedule: seq<nat>): (s': State)
    requires Shape(c, s.queue)
    ensures Shape(c, s'.queue) && |s'.ops| == |s.ops|
    decreases schedule
  {
    if schedule == [] then s
    else if schedule[0] >= |s.ops| then Run(c, s, schedule[1..])
    else Run(c, StepOf(c, s, schedule[0]), schedule[1..])
  }

  /** Whenever a call is scheduled it is not finished. */
  predicate Runs(c: nat, s: State, schedule: seq<nat>)
    requires Shape(c, s.queue)
    decreases schedule
  {
    schedule == [] ||
    (schedule[0] < |s.ops| && !Finished(s.ops[schedule[0]]) && Runs(c, StepOf(c, s, schedule[0]), schedule[1..]))
  }

  lemma {:induction false} ProgressWithin(c: nat, s: State, schedule: seq<nat>) returns (k: nat)
    requires InOrder(c, s) && Runs(c, s, schedule) && |schedule| > Potential(c, s)
    ensures k < |schedule| && schedule[k] < |s.ops|
    ensures !Quiet(c, Run(c, s, schedule[..k]), schedule[k])
    decreases |schedule|
  {
    hide InOrder, Quiet, StepOf, Potential, Finished;
    var i := schedule[0];
    InOrderShape(c, s);
    if !Quiet(c, s, i) {
      k := 0;
    } else {
      QuietKeepsOrder(c, s, i);
      QuietComesCloser(c, s, i);
      k := ProgressWithin(c, StepOf(c, s, i), schedule[1..]);
      k := k + 1;
      assert schedule[..k][1..] == schedule[1..][..k - 1];
    }
  }

  lemma InOrderShape(c: nat, s: State)
    requires InOrder(c, s)
    ensures Shape(c, s.queue)
  {
  }

  /** In any run of `n` calls in flight some call finishes, appends or removes within 18 n + 2
      steps. */
  lemma LockFree(c: nat, s: State, schedule: seq<nat>) returns (k: nat)
    requires InOrder(c, s) && Runs(c, s, schedule) && |schedule| >= 18 * |s.ops| + 2
    ensures k < |schedule| && schedule[k] < |s.ops|
    ensures var before := Run(c, s, schedule[..k]);
      var r := Step(c, before.queue, before.ops[schedule[k]], false);
      Finished(r.op) || r.event.Appended? || r.event.Removed?
  {
    k := ProgressWithin(c, s, schedule);
    ProgressIsVisible(c, Run(c, s, schedule[..k]), schedule[k]);
  }

  lemma ProgressIsVisible(c: nat, s: State, i: nat)
    requires Shape(c, s.queue) && i < |s.ops| && !Quiet(c, s, i)
    ensures var r := Step(c, s.queue, s.ops[i], false);
      Finished(r.op) || r.event.Appended? || r.event.Removed?
  {
    hide IndexOf, CycleOf, Pack, LoadValueAt, OneCycleBehind;
  }
}
