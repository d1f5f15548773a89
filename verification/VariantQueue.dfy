/**
 VariantQueue: one interface over three queues. The kinds differ in who may call concurrently;
 in sequential use the two overflowing kinds cannot be told apart, nor can the two rejecting ones.
*/
module VariantQueues {
  import opened BoundedQueueSpec
  import opened FifoQueues
  import opened Options
  import opened ResizeableLockFreeQueues
  import opened SofiQueues

  datatype Kind =
    | FiFo_SingleProducerSingleConsumer
    | SoFi_SingleProducerSingleConsumer
    | FiFo_MultiProducerSingleConsumer
    | SoFi_MultiProducerSingleConsumer

  /** The kinds that make room for a new value by taking out the oldest. */
  predicate Overflows(kind: Kind) {
    kind.SoFi_SingleProducerSingleConsumer? || kind.SoFi_MultiProducerSingleConsumer?
  }

  datatype Underlying<!V(0)> =
    | AsFiFo(fifo: FiFo<V>)
    | AsSoFi(sofi: SoFi<V>)
    | AsLockFree(lockFree: ResizeableLockFreeQueue<V>)

  // ---------------------------------------------------------------------------------------
  // What a caller can observe

  datatype Call<V> = Push(value: V) | Pop | AskEmpty | AskSize

  datatype Answer<V> = Handed(value: Option<V>) | Empty(empty: bool) | Size(size: nat)

  /** A push answers with the value that had to go: the oldest one, or the rejected one. */
  function PushAnswer<V>(overflows: bool, n: nat, s: seq<V>, v: V): (r: (seq<V>, Option<V>))
    ensures r.1.None? <==> |s| < n
    ensures s + [v] == if overflows then Just(r.1) + r.0 else r.0 + Just(r.1)
  {
    if overflows then PushOver(n, s, v)
    else (TryPush(n, s, v).0, if TryPush(n, s, v).1 then None else Some(v))
  }

  /** No other answer, and no other contents, would do. */
  lemma PushIs<V>(overflows: bool, n: nat, s: seq<V>, v: V, s': seq<V>, out: Option<V>)
    requires out.None? <==> |s| < n
    requires out.None? ==> s' == s + [v]
    requires out.Some? && !overflows ==> out.value == v && s' == s
    requires out.Some? && overflows ==> s + [v] == [out.value] + s'
    ensures (s', out) == PushAnswer(overflows, n, s, v)
  {
    if out.Some? && overflows { assert ([out.value] + s')[0] == out.value && ([out.value] + s')[1..] == s'; }
  }

  lemma PopIs<V>(s: seq<V>, s': seq<V>, out: Option<V>)
    requires (out.None? <==> s == []) && s == Just(out) + s'
    ensures (s', out) == PopFront(s)
  {
    if out.Some? { assert s[0] == out.value && s[1..] == s'; }
  }

  /** The contents after a call, and its answer. */
  function AnswerTo<V>(overflows: bool, n: nat, s: seq<V>, call: Call<V>): (r: (seq<V>, Answer<V>))
    ensures call.Push? || call.Pop? ==> r.1.Handed?
    ensures call.AskEmpty? ==> r == (s, Empty(s == []))
    ensures call.AskSize? ==> r == (s, Size(|s|))
  {
    match call
    case Push(v) => (PushAnswer(overflows, n, s, v).0, Handed(PushAnswer(overflows, n, s, v).1))
    case Pop => (PopFront(s).0, Handed(PopFront(s).1))
    case AskEmpty => (s, Empty(|s| == 0))
    case AskSize => (s, Size(|s|))
  }

  /** The contents after a sequence of calls, and their answers. */
  function AnswersTo<V>(overflows: bool, n: nat, s: seq<V>, calls: seq<Call<V>>): (r: (seq<V>, seq<Answer<V>>))
    ensures |r.1| == |calls|
    decreases calls
  {
    if calls == [] then (s, [])
    else
      var (s', answer) := AnswerTo(overflows, n, s, calls[0]);
      var (s'', answers) := AnswersTo(overflows, n, s', calls[1..]);
      (s'', [answer] + answers)
  }

  /** The values that a call puts into the queue, and those it takes out, going by its answer. */
  function Entered<V>(overflows: bool, call: Call<V>, answer: Answer<V>): seq<V> {
    if call.Push? && (overflows || answer == Handed(None)) then [call.value] else []
  }

  function Left<V>(overflows: bool, call: Call<V>, answer: Answer<V>): seq<V> {
    if answer.Handed? && (call.Pop? || (call.Push? && overflows)) then Just(answer.value) else []
  }

  function AllEntered<V>(overflows: bool, calls: seq<Call<V>>, answers: seq<Answer<V>>): seq<V>
    requires |calls| == |answers|
  {
    if calls == [] then []
    else Entered(overflows, calls[0], answers[0]) + AllEntered(overflows, calls[1..], answers[1..])
  }

  function AllLeft<V>(overflows: bool, calls: seq<Call<V>>, answers: seq<Answer<V>>): seq<V>
    requires |calls| == |answers|
  {
    if calls == [] then []
    else Left(overflows, calls[0], answers[0]) + AllLeft(overflows, calls[1..], answers[1..])
  }

  lemma AnswerIsFifo<V>(overflows: bool, n: nat, s: seq<V>, call: Call<V>)
    requires |s| <= n
    ensures var (s', answer) := AnswerTo(overflows, n, s, call);
      |s'| <= n && s + Entered(overflows, call, answer) == Left(overflows, call, answer) + s'
  {
    hide PushOver, BoundedQueueSpec.TryPush, PopFront;
  }

  lemma Rearranged<V>(s: seq<V>, a: seq<V>, b: seq<V>, x: seq<V>, y: seq<V>, s': seq<V>, s'': seq<V>)
    requires s + a == x + s' && s' + b == y + s''
    ensures s + (a + b) == (x + y) + s''
  {
    assert s + (a + b) == (s + a) + b;
    assert (x + s') + b == x + (s' + b);
    assert x + (y + s'') == (x + y) + s'';
  }

  /** Over any sequence of calls: what was in the queue and what the calls put into it are, in this
      order, what they took out and what is left. */
  lemma {:induction false} AnswersAreFifo<V>(overflows: bool, n: nat, s: seq<V>, calls: seq<Call<V>>)
    requires |s| <= n
    ensures var (s', answers) := AnswersTo(overflows, n, s, calls);
      |s'| <= n && s + AllEntered(overflows, calls, answers) == AllLeft(overflows, calls, answers) + s'
    decreases calls
  {
    hide AnswerTo, Entered, Left;
    if calls == [] {
      assert s + [] == [] + s;
    } else {
      var (s', answer) := AnswerTo(overflows, n, s, calls[0]);
      var (s'', answers) := AnswersTo(overflows, n, s', calls[1..]);
      AnswerIsFifo(overflows, n, s, calls[0]);
      AnswersAreFifo(overflows, n, s', calls[1..]);
      assert ([answer] + answers)[1..] == answers;
      Rearranged(s, Entered(overflows, calls[0], answer), AllEntered(overflows, calls[1..], answers),
                 Left(overflows, calls[0], answer), AllLeft(overflows, calls[1..], answers), s', s'');
    }
  }

  // ---------------------------------------------------------------------------------------

  class VariantQueue<V(0)> {
    const kind: Kind
    const fifo: Underlying<V>

    ghost function Footprint(): set<object> {
      match fifo
      case AsFiFo(q) => {q, q.data}
      case AsSoFi(q) => {q, q.data}
      case AsLockFree(q) => q.Footprint()
    }

    ghost predicate Valid()
      reads Footprint()
    {
      match fifo
      case AsFiFo(q) => kind.FiFo_SingleProducerSingleConsumer? && q.Valid()
      case AsSoFi(q) => kind.SoFi_SingleProducerSingleConsumer? && q.Valid()
      case AsLockFree(q) =>
        (kind.FiFo_MultiProducerSingleConsumer? || kind.SoFi_MultiProducerSingleConsumer?) && q.Valid()
    }

    ghost function Elements(): seq<V>
      requires Valid()
      reads Footprint()
    {
      match fifo
      case AsFiFo(q) => q.Elements()
      case AsSoFi(q) => q.Elements()
      case AsLockFree(q) => q.Elements()
    }

    ghost function Capacity(): nat
      requires Valid()
      reads Footprint()
    {
      match fifo
      case AsFiFo(q) => q.data.Length
      case AsSoFi(q) => q.internalSize - 1
      case AsLockFree(q) => q.capacity
    }

    constructor (kind: Kind, fifo: Underlying<V>)
      requires match kind
               case FiFo_SingleProducerSingleConsumer => fifo.AsFiFo? && fifo.fifo.Valid()
               case SoFi_SingleProducerSingleConsumer => fifo.AsSoFi? && fifo.sofi.Valid()
               case _ => fifo.AsLockFree? && fifo.lockFree.Valid()
      ensures Valid() && this.kind == kind && this.fifo == fifo
    {
      this.kind, this.fifo := kind, fifo;
    }

    method Push(value: V) returns (out: Option<V>)
      requires Valid() && (kind.SoFi_MultiProducerSingleConsumer? ==> Capacity() >= 1)
      modifies Footprint()
      ensures Valid() && Capacity() == old(Capacity())
      ensures out.None? <==> |old(Elements())| < Capacity()
      ensures out.None? ==> Elements() == old(Elements()) + [value]
      ensures out.Some? && !Overflows(kind) ==> out.value == value && Elements() == old(Elements())
      ensures out.Some? && Overflows(kind) ==> old(Elements()) + [value] == [out.value] + Elements()
    {
      match fifo
      case AsFiFo(q) =>
        var hadSpace := q.Push(value);
        out := if hadSpace then None else Some(value);
      case AsSoFi(q) =>
        var hadSpace, overridden := q.Push(value);
        out := if hadSpace then None else overridden;
      case AsLockFree(q) =>
        if kind.FiFo_MultiProducerSingleConsumer? {
          var hadSpace := q.TryPush(value);
          out := if hadSpace then None else Some(value);
        } else {
          out := q.Push(value);
        }
    }

    method Pop() returns (out: Option<V>)
      requires Valid()
      modifies Footprint()
      ensures Valid() && Capacity() == old(Capacity())
      ensures out.None? <==> old(Elements()) == []
      ensures old(Elements()) == Just(out) + Elements()
    {
      match fifo
      case AsFiFo(q) => out := q.Pop();
      case AsSoFi(q) =>
        var hasValue, value := q.Pop();
        out := if hasValue then value else None;
      case AsLockFree(q) => out := q.Pop();
    }

    method IsEmpty() returns (empty: bool)
      requires Valid()
      ensures Valid() && Elements() == old(Elements()) && Capacity() == old(Capacity())
      ensures empty <==> |Elements()| == 0
    {
      match fifo
      case AsFiFo(q) => empty := q.IsEmpty();
      case AsSoFi(q) => empty := q.IsEmpty();
      case AsLockFree(q) => empty := q.IsEmpty();
    }

    method Size() returns (n: nat)
      requires Valid()
      ensures Valid() && Elements() == old(Elements()) && Capacity() == old(Capacity())
      ensures n == |Elements()|
    {
      match fifo
      case AsFiFo(q) => n := q.Size();
      case AsSoFi(q) => n := q.Size();
      case AsLockFree(q) => n := q.Size();
    }

    /** Not available for the kind on top of FiFo. On top of SoFi the call always reports success,
        also when SoFi has refused the capacity because it holds elements or has too few slots. */
    method SetCapacity(newCapacity: nat) returns (ok: bool)
      requires Valid() && !kind.FiFo_SingleProducerSingleConsumer?
      modifies Footprint()
      ensures Valid()
      ensures fifo.AsSoFi? ==> ok && Elements() == old(Elements())
      ensures fifo.AsSoFi? ==>
        Capacity() == if |old(Elements())| == 0 && newCapacity < fifo.sofi.data.Length then newCapacity
                      else old(Capacity())
      ensures fifo.AsLockFree? ==>
        && (ok <==> newCapacity <= fifo.lockFree.MaxCapacity() && !old(fifo.lockFree.resizeInProgress))
        && Capacity() == (if ok then newCapacity else old(Capacity()))
        && |Elements()| == (if ok && newCapacity < |old(Elements())| then newCapacity else |old(Elements())|)
        && Elements() == old(Elements())[|old(Elements())| - |Elements()|..]
    {
      hide ResizeableLockFreeQueue.Valid, ResizeableLockFreeQueue.Elements, ResizeableLockFreeQueue.Footprint,
        SoFi.Valid, SoFi.Elements, FiFo.Valid, FiFo.Elements, Excess;
      match fifo
      case AsFiFo(_) => assert false;
      case AsSoFi(q) =>
        var _ := q.SetCapacity(newCapacity);
        ok := true;
      case AsLockFree(q) =>
        ghost var before := q.Elements();
        var removed;
        ok, removed := q.SetCapacity(newCapacity);
        Newest(removed, q.Elements(), before);
    }

    method Perform(call: Call<V>) returns (answer: Answer<V>)
      requires Valid() && (kind.SoFi_MultiProducerSingleConsumer? ==> Capacity() >= 1)
      modifies Footprint()
      ensures Valid() && Capacity() == old(Capacity())
      ensures (Elements(), answer) == AnswerTo(Overflows(kind), Capacity(), old(Elements()), call)
    {
      hide VariantQueue.Valid, VariantQueue.Elements, VariantQueue.Capacity, VariantQueue.Footprint, PushAnswer, PopFront;
      match call
      case Push(v) =>
        ghost var s := Elements();
        var out := Push(v);
        PushIs(Overflows(kind), Capacity(), s, v, Elements(), out);
        answer := Handed(out);
      case Pop =>
        ghost var s := Elements();
        var out := Pop();
        PopIs(s, Elements(), out);
        answer := Handed(out);
      case AskEmpty =>
        var empty := IsEmpty();
        answer := Answer.Empty(empty);
      case AskSize =>
        var n := Size();
        answer := Answer.Size(n);
    }

    method PerformAll(calls: seq<Call<V>>) returns (answers: seq<Answer<V>>)
      requires Valid() && (kind.SoFi_MultiProducerSingleConsumer? ==> Capacity() >= 1)
      modifies Footprint()
      ensures Valid() && Capacity() == old(Capacity())
      ensures (Elements(), answers) == AnswersTo(Overflows(kind), Capacity(), old(Elements()), calls)
    {
      if calls == [] {
        return [];
      }
      var first := Perform(calls[0]);
      var others := PerformAll(calls[1..]);
      answers := [first] + others;
    }
  }

  lemma Newest<V>(removed: seq<V>, kept: seq<V>, all: seq<V>)
    requires removed + kept == all
    ensures |kept| <= |all| && kept == all[|all| - |kept|..]
  {
  }

  /** Two queues of the same overflow behaviour, capacity and contents answer every sequence of
      calls alike, whichever implementations are behind them. */
  method CompareQueues<V(0)>(a: VariantQueue<V>, b: VariantQueue<V>, calls: seq<Call<V>>)
    returns (answersOfA: seq<Answer<V>>, answersOfB: seq<Answer<V>>)
    requires a.Valid() && b.Valid() && a.Footprint() !! b.Footprint()
    requires Overflows(a.kind) == Overflows(b.kind) && a.Elements() == b.Elements()
    requires a.Capacity() == b.Capacity()
    requires a.kind.SoFi_MultiProducerSingleConsumer? || b.kind.SoFi_MultiProducerSingleConsumer? ==> a.Capacity() >= 1
    modifies a.Footprint(), b.Footprint()
    ensures answersOfA == answersOfB
    ensures answersOfA == AnswersTo(Overflows(a.kind), old(a.Capacity()), old(a.Elements()), calls).1
  {
    hide VariantQueue.Valid, VariantQueue.Elements, VariantQueue.Capacity, AnswersTo, AllEntered, AllLeft, PushAnswer,
      PushOver, PopFront, BoundedQueueSpec.TryPush, Overflows;
    answersOfA := a.PerformAll(calls);
    answersOfB := b.PerformAll(calls);
  }
}
