/**
 The lock-free queue and the resizeable one in place, as one thread runs them while no other
 does.

 Every index is in the free queue, in the used queue, or lent to a resizeable queue that has
 shrunk. A buffer slot holds an element exactly while its index is in the used queue; reading
 moves the element out.
*/
module LockFreeQueues {
  import opened BoundedQueueSpec
  import opened IndexQueues
  import opened Indices
  import opened Options
  import opened Slots

  /** Every index below `c` is in exactly one of the three places. */
  ghost predicate Conserved(c: nat, free: seq<nat>, used: seq<nat>, lent: seq<nat>) {
    multiset(free) + multiset(used) + multiset(lent) == multiset(Below(c))
  }

  ghost predicate QueueState<V>(data: seq<Option<V>>, free: seq<nat>, used: seq<nat>, lent: seq<nat>)
    ensures QueueState(data, free, used, lent) ==> Live(data, used) && |free| + |used| + |lent| == |data|
  {
    StateFacts(data, free, used, lent);
    Conserved(|data|, free, used, lent) && Occupied(data, used)
  }

  lemma StateFacts<V>(data: seq<Option<V>>, free: seq<nat>, used: seq<nat>, lent: seq<nat>)
    ensures Conserved(|data|, free, used, lent) && Occupied(data, used) ==>
      Live(data, used) && |free| + |used| + |lent| == |data|
  {
    if Conserved(|data|, free, used, lent) && Occupied(data, used) {
      var all := multiset(Below(|data|));
      assert |multiset(free) + multiset(used) + multiset(lent)| == |free| + |used| + |lent|;
      forall k | 0 <= k < |used| ensures used[k] < |data| && data[used[k]].Some? {
        assert used[k] in multiset(used);
        assert used[k] in all;
      }
      AllLive(data, used);
    }
  }

  // ---------------------------------------------------------------------------------------
  // Handing an index from one place to another

  lemma OneOfEach(c: nat, i: nat)
    ensures multiset(Below(c))[i] == if i < c then 1 else 0
  {
  }

  /** The index at the head of one place is in no other and not twice in its own. */
  lemma HeldOnce<V>(data: seq<Option<V>>, i: nat, rest: multiset<nat>)
    requires multiset{i} + rest == multiset(Below(|data|))
    ensures i < |data| && i !in rest
  {
    OneOfEach(|data|, i);
    assert (multiset{i} + rest)[i] == 1 + rest[i];
  }

  lemma OccupiedFill<V>(data: seq<Option<V>>, used: seq<nat>, i: nat, v: V)
    requires Occupied(data, used) && i < |data| && i !in used
    ensures Occupied(data[i := Some(v)], used + [i])
  {
  }

  lemma OccupiedEmpty<V>(data: seq<Option<V>>, used: seq<nat>, i: nat)
    requires Occupied(data, [i] + used) && i < |data| && i !in used
    ensures Occupied(data[i := None], used)
  {
    assert forall k :: k in [i] + used <==> k == i || k in used;
  }

  /** A free index filled with a value and pushed to the used queue. */
  lemma FillSlot<V>(data: seq<Option<V>>, free: seq<nat>, used: seq<nat>, lent: seq<nat>, i: nat, v: V)
    requires QueueState(data, [i] + free, used, lent)
    ensures i < |data| && data[i].None?
    ensures QueueState(data[i := Some(v)], free, used + [i], lent)
    ensures Stored(data[i := Some(v)], used + [i]) == Stored(data, used) + [v]
  {
    hide Occupied, Live, Stored;
    HeldOnce(data, i, multiset(free) + multiset(used) + multiset(lent));
    assert i !in used by { assert i !in multiset(used); }
    NotOccupied(data, used, i);
    OccupiedFill(data, used, i, v);
    StoredFrame(data, i, Some(v), used);
    StoredAppend(data[i := Some(v)], used, i);
  }

  lemma NotOccupied<V>(data: seq<Option<V>>, used: seq<nat>, i: nat)
    requires Occupied(data, used) && i < |data| && i !in used
    ensures data[i].None?
  {
  }

  /** A used index read out; it may go to any place but the used queue. */
  lemma EmptySlot<V>(data: seq<Option<V>>, free: seq<nat>, used: seq<nat>, lent: seq<nat>, i: nat)
    requires QueueState(data, free, [i] + used, lent)
    ensures i < |data| && data[i].Some?
    ensures QueueState(data[i := None], free + [i], used, lent)
    ensures QueueState(data[i := None], [i] + free, used, lent)
    ensures QueueState(data[i := None], free, used, lent + [i])
    ensures Stored(data, [i] + used) == [data[i].value] + Stored(data[i := None], used)
  {
    hide Occupied, Live, Stored;
    HeldOnce(data, i, multiset(free) + multiset(used) + multiset(lent));
    assert i !in used by { assert i !in multiset(used); }
    OccupiedEmpty(data, used, i);
    StoredHead(data, i, used);
    StoredFrame(data, i, None, used);
  }

  lemma Lend<V>(data: seq<Option<V>>, free: seq<nat>, used: seq<nat>, lent: seq<nat>, i: nat)
    requires QueueState(data, [i] + free, used, lent)
    ensures QueueState(data, free, used, lent + [i]) && i < |data|
  {
    hide Occupied, Live;
    HeldOnce(data, i, multiset(free) + multiset(used) + multiset(lent));
  }

  lemma Return<V>(data: seq<Option<V>>, free: seq<nat>, used: seq<nat>, lent: seq<nat>, i: nat)
    requires QueueState(data, free, used, lent + [i])
    ensures QueueState(data, free + [i], used, lent) && i < |data|
  {
    hide Occupied, Live;
    HeldOnce(data, i, multiset(free) + multiset(used) + multiset(lent));
  }

  lemma AllFree<V>(data: seq<Option<V>>, free: seq<nat>)
    requires free == seq(|data|, i => i) && forall i :: 0 <= i < |data| ==> data[i].None?
    ensures QueueState(data, free, [], [])
  {
    FreeIsBelow(|data|, free);
  }

  lemma {:induction false} FreeIsBelow(c: nat, free: seq<nat>)
    requires |free| == c && forall i :: 0 <= i < c ==> free[i] == i
    ensures multiset(free) == multiset(Below(c))
  {
    if c > 0 {
      FreeIsBelow(c - 1, free[..c - 1]);
      assert free == free[..c - 1] + [c - 1];
    }
  }

  // ---------------------------------------------------------------------------------------
  // The base queue

  class LockFreeQueue<V> {
    const freeIndices: IndexQueue
    const usedIndices: IndexQueue
    const buffer: array<Option<V>>
    var size: nat
    /** The indices a resizeable queue has taken out. */
    ghost var lent: seq<nat>

    ghost function Footprint(): set<object> {
      {this, freeIndices, usedIndices, freeIndices.cells, usedIndices.cells, buffer}
    }

    ghost predicate Parts()
      reads Footprint()
    {
      && freeIndices != usedIndices && freeIndices.cells != usedIndices.cells
      && freeIndices.cells.Length == usedIndices.cells.Length == buffer.Length
      && freeIndices.Valid() && usedIndices.Valid() && freeIndices.Settled() && usedIndices.Settled()
    }

    ghost predicate Valid()
      reads Footprint()
      ensures Valid() ==> Parts() && size == |usedIndices.Indices()|
    {
      && Parts()
      && QueueState(buffer[..], freeIndices.Indices(), usedIndices.Indices(), lent)
      && size == |usedIndices.Indices()|
    }

    /** The elements in the queue, the oldest first. */
    ghost function Elements(): (s: seq<V>)
      requires Valid()
      reads Footprint()
      ensures |s| == size
    {
      Stored(buffer[..], usedIndices.Indices())
    }

    /** The number of elements the queue can hold. */
    ghost function Capacity(): (n: nat)
      requires Valid()
      reads Footprint()
      ensures size <= n && n + |lent| == buffer.Length
      ensures n == size <==> freeIndices.Indices() == []
    {
      |freeIndices.Indices()| + |usedIndices.Indices()|
    }

    constructor (capacity: nat)
      requires capacity >= 1
      ensures Valid() && fresh(Footprint()) && buffer.Length == capacity
      ensures Elements() == [] && Capacity() == capacity && lent == []
    {
      freeIndices := new IndexQueue.Full(capacity);
      usedIndices := new IndexQueue.Empty(capacity);
      buffer := new Option<V>[capacity](_ => None);
      size, lent := 0, [];
      new;
      hide QueueState, Live, Stored;
      AllFree(buffer[..], freeIndices.Indices());
    }

    method WriteBufferAt(index: nat, value: V)
      requires index < buffer.Length && buffer[index].None?
      modifies this`size, buffer
      ensures buffer[..] == old(buffer[..])[index := Some(value)] && size == old(size) + 1
    {
      buffer[index] := Some(value);
      size := size + 1;
    }

    /** Moves the element out and destroys what is left of it. */
    method ReadBufferAt(index: nat) returns (result: V)
      requires index < buffer.Length && buffer[index].Some? && size >= 1
      modifies this`size, buffer
      ensures Some(result) == old(buffer[index])
      ensures buffer[..] == old(buffer[..])[index := None] && size == old(size) - 1
    {
      size := size - 1;
      result := buffer[index].value;
      buffer[index] := None;
    }

    /** Inserts a value unless the queue is full. */
    method TryPush(value: V) returns (ok: bool)
      requires Valid()
      modifies Footprint()
      ensures Valid() && lent == old(lent) && Capacity() == old(Capacity())
      ensures (Elements(), ok) == BoundedQueueSpec.TryPush(old(Capacity()), old(Elements()), value)
    {
      hide QueueState, Stored, Live;
      var index;
      ghost var data, used := buffer[..], usedIndices.Indices();
      ok, index := freeIndices.Pop();
      if !ok {
        return;
      }
      FillSlot(data, freeIndices.Indices(), used, lent, index, value);
      WriteBufferAt(index, value);
      usedIndices.Push(index);
    }

    /** Removes the oldest element unless the queue is empty. */
    method Pop() returns (result: Option<V>)
      requires Valid()
      modifies Footprint()
      ensures Valid() && lent == old(lent) && Capacity() == old(Capacity())
      ensures (Elements(), result) == PopFront(old(Elements()))
    {
      hide QueueState, Live, Stored;
      ghost var data, free := buffer[..], freeIndices.Indices();
      var ok, index := usedIndices.Pop();
      if !ok {
        return None;
      }
      EmptySlot(data, free, usedIndices.Indices(), lent, index);
      var element := ReadBufferAt(index);
      freeIndices.Push(index);
      result := Some(element);
    }

    /** An index is held by the call that is going to fill it. */
    ghost predicate Holding(index: nat)
      reads Footprint()
      ensures Holding(index) ==> Parts() && size == |usedIndices.Indices()| && Live(buffer[..], usedIndices.Indices())
    {
      && Parts() && size == |usedIndices.Indices()|
      && QueueState(buffer[..], [index] + freeIndices.Indices(), usedIndices.Indices(), lent)
    }

    ghost function Remaining(index: nat): seq<V>
      requires Holding(index)
      reads Footprint()
    {
      Stored(buffer[..], usedIndices.Indices())
    }

    /** Takes a free index, or the oldest used one, whose element is evicted. */
    method AcquireIndex() returns (index: nat, evicted: Option<V>)
      requires Valid() && lent == []
      modifies Footprint()
      ensures Holding(index) && lent == []
      ensures (Remaining(index), evicted) == MakeRoom(old(Capacity()), old(Elements()))
    {
      hide QueueState, Live, Stored;
      ghost var data, free, used := buffer[..], freeIndices.Indices(), usedIndices.Indices();
      var ok := false;
      index, evicted := 0, None;
      while !ok
        invariant lent == []
        invariant if ok then Holding(index) && (Remaining(index), evicted) == MakeRoom(old(Capacity()), old(Elements()))
                  else Valid() && evicted == None && buffer[..] == data
                       && freeIndices.Indices() == free && usedIndices.Indices() == used
        decreases !ok
      {
        ok, index := freeIndices.Pop();
        if !ok {
          ok, index := usedIndices.PopIfFull();
          if ok {
            EmptySlot(data, free, usedIndices.Indices(), lent, index);
            var element := ReadBufferAt(index);
            evicted := Some(element);
          }
        }
      }
    }

    /** Inserts a value, taking out the oldest element if the queue is full. */
    method Push(value: V) returns (evicted: Option<V>)
      requires Valid() && lent == []
      modifies Footprint()
      ensures Valid() && lent == [] && Capacity() == old(Capacity())
      ensures (Elements(), evicted) == PushOver(old(Capacity()), old(Elements()), value)
    {
      hide QueueState, Live, Stored;
      var index;
      RoomThenPush(Capacity(), Elements(), value);
      index, evicted := AcquireIndex();
      FillHeld(index, value);
    }

    /** Fills the held index and publishes it. */
    method FillHeld(index: nat, value: V)
      requires Holding(index)
      modifies Footprint()
      ensures Valid() && lent == old(lent) && Elements() == old(Remaining(index)) + [value]
    {
      hide QueueState, Live, Stored;
      FillSlot(buffer[..], freeIndices.Indices(), usedIndices.Indices(), lent, index, value);
      WriteBufferAt(index, value);
      usedIndices.Push(index);
    }

    // What the resizeable queue, which is derived from this one, does to its parts

    /** A free index leaves the queue. */
    method TakeFreeIndex() returns (ok: bool, index: nat)
      requires Valid()
      modifies Footprint()
      ensures Valid() && (ok <==> old(size) < old(Capacity()))
      ensures Elements() == old(Elements())
      ensures lent == if ok then old(lent) + [index] else old(lent)
    {
      hide QueueState, Live, Stored;
      ghost var data, used := buffer[..], usedIndices.Indices();
      ok, index := freeIndices.Pop();
      if ok {
        Lend(data, freeIndices.Indices(), used, lent, index);
        lent := lent + [index];
      }
    }

    /** A used index leaves the queue, if there are at least `minSize`, and its element with it. */
    method TakeUsedIndex(minSize: nat) returns (ok: bool, index: nat, element: Option<V>)
      requires Valid()
      modifies Footprint()
      ensures Valid() && (ok <==> old(size) >= minSize && old(size) >= 1)
      ensures (Elements(), element) == if ok then PopFront(old(Elements())) else (old(Elements()), None)
      ensures lent == if ok then old(lent) + [index] else old(lent)
    {
      hide QueueState, Live, Stored;
      ghost var data, free := buffer[..], freeIndices.Indices();
      element := None;
      ok, index := usedIndices.PopIfSizeIsAtLeast(minSize);
      if ok {
        EmptySlot(data, free, usedIndices.Indices(), lent, index);
        var result := ReadBufferAt(index);
        lent := lent + [index];
        element := Some(result);
      }
    }

    /** A lent index comes back and is free. */
    method GiveBackIndex(index: nat)
      requires Valid() && lent != [] && lent[|lent| - 1] == index
      modifies Footprint()
      ensures Valid() && Elements() == old(Elements())
      ensures lent == old(lent)[..|old(lent)| - 1]
    {
      hide QueueState, Live, Stored;
      assert lent == lent[..|lent| - 1] + [index];
      Return(buffer[..], freeIndices.Indices(), usedIndices.Indices(), lent[..|lent| - 1], index);
      freeIndices.Push(index);
      lent := lent[..|lent| - 1];
    }

    method IsEmpty() returns (empty: bool)
      requires Valid()
      ensures empty <==> |Elements()| == 0
    {
      hide QueueState, Live, Stored;
      empty := usedIndices.IsEmpty();
    }
  }
}
