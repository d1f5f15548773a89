/**
 The resizeable lock-free queue in place, as one thread runs it while no other does.

 Its capacity shrinks by keeping indices in `unusedIndices` and grows by giving them back.
*/
module ResizeableLockFreeQueues {
  import opened BoundedQueueSpec
  import opened LockFreeQueues
  import opened Options
  import opened Slots

  class ResizeableLockFreeQueue<V> {
    const queue: LockFreeQueue<V>
    var capacity: nat
    var resizeInProgress: bool
    var unusedIndices: seq<nat>

    ghost function Footprint(): set<object> {
      {this} + queue.Footprint()
    }

    ghost predicate Valid()
      reads Footprint()
      ensures Valid() ==> queue.Valid()
    {
      && this !in queue.Footprint() && queue.Valid()
      && unusedIndices == queue.lent && capacity == queue.Capacity()
    }

    /** The elements in the queue, the oldest first. */
    ghost function Elements(): (s: seq<V>)
      requires Valid()
      reads Footprint()
      ensures |s| <= capacity && capacity + |unusedIndices| == MaxCapacity()
    {
      queue.Elements()
    }

    function MaxCapacity(): nat {
      queue.buffer.Length
    }

    constructor (maxCapacity: nat)
      requires maxCapacity >= 1
      ensures Valid() && fresh(Footprint()) && MaxCapacity() == maxCapacity
      ensures Elements() == [] && capacity == maxCapacity && !resizeInProgress
    {
      hide LockFreeQueue.Valid, LockFreeQueue.Elements, LockFreeQueue.Capacity, LockFreeQueue.Parts;
      queue := new LockFreeQueue(maxCapacity);
      capacity, resizeInProgress, unusedIndices := maxCapacity, false, [];
    }

    /** The last unused index becomes a free one. */
    method ReturnIndex()
      requires Valid() && unusedIndices != []
      modifies Footprint()
      ensures Valid() && Elements() == old(Elements()) && resizeInProgress == old(resizeInProgress)
      ensures capacity == old(capacity) + 1 && |unusedIndices| == |old(unusedIndices)| - 1
    {
      hide LockFreeQueue.Valid, LockFreeQueue.Elements, LockFreeQueue.Capacity, LockFreeQueue.Parts;
      capacity := capacity + 1;
      queue.GiveBackIndex(unusedIndices[|unusedIndices| - 1]);
      unusedIndices := unusedIndices[..|unusedIndices| - 1];
    }

    /** A free index becomes an unused one. */
    method RetireFreeIndex() returns (ok: bool)
      requires Valid()
      modifies Footprint()
      ensures Valid() && Elements() == old(Elements()) && resizeInProgress == old(resizeInProgress)
      ensures ok <==> old(|Elements()|) < old(capacity)
      ensures capacity == if ok then old(capacity) - 1 else old(capacity)
    {
      hide LockFreeQueue.Valid, LockFreeQueue.Elements, LockFreeQueue.Capacity, LockFreeQueue.Parts;
      var index;
      ok, index := queue.TakeFreeIndex();
      if ok {
        unusedIndices := unusedIndices + [index];
        capacity := capacity - 1;
      }
    }

    /** Takes a used index, and its element out, if the queue is as full as it may be. */
    method TryGetUsedIndex() returns (ok: bool, index: nat, element: Option<V>)
      requires Valid()
      modifies queue.Footprint()
      ensures queue.Valid() && (ok <==> old(|Elements()|) == capacity >= 1)
      ensures (queue.Elements(), element) == if ok then PopFront(old(Elements())) else (old(Elements()), None)
      ensures queue.lent == if ok then old(unusedIndices) + [index] else old(unusedIndices)
    {
      ok, index, element := queue.TakeUsedIndex(capacity);
    }

    /** A used index becomes an unused one; its element goes to the remove handler. */
    method RetireUsedIndex() returns (ok: bool, element: Option<V>)
      requires Valid()
      modifies Footprint()
      ensures Valid() && resizeInProgress == old(resizeInProgress)
      ensures ok <==> old(|Elements()|) == old(capacity) >= 1
      ensures if ok then element.Some? && old(Elements()) == [element.value] + Elements()
              else element == None && Elements() == old(Elements())
      ensures capacity == if ok then old(capacity) - 1 else old(capacity)
    {
      hide LockFreeQueue.Valid, LockFreeQueue.Elements, LockFreeQueue.Capacity, LockFreeQueue.Parts;
      var index;
      ok, index, element := TryGetUsedIndex();
      if ok {
        unusedIndices := unusedIndices + [index];
        capacity := capacity - 1;
      }
    }

    /** Gives back unused indices, as many as asked for or as there are. */
    method IncreaseCapacity(toIncrease: nat) returns (increased: nat)
      requires Valid()
      modifies Footprint()
      ensures Valid() && Elements() == old(Elements()) && resizeInProgress == old(resizeInProgress)
      ensures increased == if toIncrease <= |old(unusedIndices)| then toIncrease else |old(unusedIndices)|
      ensures capacity == old(capacity) + increased
    {
      hide *;
      increased := 0;
      while increased < toIncrease
        invariant Valid() && Elements() == old(Elements()) && resizeInProgress == old(resizeInProgress)
        invariant increased <= toIncrease && |unusedIndices| + increased == |old(unusedIndices)|
        invariant capacity == old(capacity) + increased
      {
        if unusedIndices == [] {
          return;
        }
        increased := increased + 1;
        ReturnIndex();
      }
    }

    /** Retires indices, free ones as long as there are any and then the oldest used ones, whose
        elements go to the remove handler; stops at a capacity of zero. From a capacity of zero
        there is nothing to retire and the call would not return. */
    method DecreaseCapacity(toDecrease: nat) returns (decreased: nat, removed: seq<V>)
      requires Valid() && (capacity >= 1 || toDecrease == 0)
      modifies Footprint()
      ensures Valid() && resizeInProgress == old(resizeInProgress)
      ensures decreased == (if toDecrease <= old(capacity) then toDecrease else old(capacity))
      ensures capacity == old(capacity) - decreased
      ensures removed + Elements() == old(Elements())
      ensures |removed| == Excess(capacity, old(Elements()))
    {
      hide *;
      decreased, removed := 0, [];
      ghost var all := Elements();
      while decreased < toDecrease
        invariant Valid() && resizeInProgress == old(resizeInProgress)
        invariant decreased <= toDecrease && decreased + capacity == old(capacity)
        invariant decreased < toDecrease ==> capacity >= 1
        invariant removed + Elements() == all && (removed != [] ==> |Elements()| == capacity)
      {
        ghost var before := decreased;
        while decreased < toDecrease
          invariant Valid() && resizeInProgress == old(resizeInProgress)
          invariant before <= decreased <= toDecrease && decreased + capacity == old(capacity)
          invariant decreased < toDecrease ==> capacity >= 1
          invariant removed + Elements() == all && (removed != [] ==> |Elements()| == capacity)
        {
          var ok := RetireFreeIndex();
          if !ok {
            break;
          }
          decreased := decreased + 1;
          if capacity == 0 {
            RemovedAre(all, removed, Elements(), capacity);
            return;
          }
        }
        while decreased < toDecrease
          invariant Valid() && resizeInProgress == old(resizeInProgress)
          invariant before <= decreased <= toDecrease && decreased + capacity == old(capacity)
          invariant decreased < toDecrease ==> capacity >= 1
          invariant removed + Elements() == all && (decreased < toDecrease || removed != [] ==> |Elements()| == capacity)
        {
          var ok, element := RetireUsedIndex();
          if !ok {
            break;
          }
          assert removed + ([element.value] + Elements()) == (removed + [element.value]) + Elements();
          removed := removed + [element.value];
          decreased := decreased + 1;
          if capacity == 0 {
            RemovedAre(all, removed, Elements(), capacity);
            return;
          }
        }
      }
      RemovedAre(all, removed, Elements(), capacity);
    }
  
    /** Sets the capacity: keeps the newest elements, as many as fit, and hands the others, the
        oldest first, to the remove handler. */
    method SetCapacity(newCapacity: nat) returns (ok: bool, removed: seq<V>)
      requires Valid()
      modifies Footprint()
      ensures Valid() && resizeInProgress == old(resizeInProgress)
      ensures ok <==> newCapacity <= MaxCapacity() && !old(resizeInProgress)
      ensures removed + Elements() == old(Elements())
      ensures ok ==> capacity == newCapacity && |removed| == Excess(newCapacity, old(Elements()))
      ensures !ok ==> capacity == old(capacity) && removed == []
    {
      hide LockFreeQueue.Valid, LockFreeQueue.Elements, LockFreeQueue.Capacity, LockFreeQueue.Parts, Excess;
      ok, removed := false, [];
      NothingRemoved(newCapacity, Elements());
      if newCapacity > MaxCapacity() {
        return;
      }
      if resizeInProgress {
        return;
      }
      resizeInProgress := true;
      removed := Resize(newCapacity);
      resizeInProgress := false;
      ok := true;
    }

    /** The resize itself, under the flag. */
    method Resize(newCapacity: nat) returns (removed: seq<V>)
      requires Valid() && newCapacity <= MaxCapacity()
      modifies Footprint()
      ensures Valid() && resizeInProgress == old(resizeInProgress)
      ensures removed + Elements() == old(Elements())
      ensures capacity == newCapacity && |removed| == Excess(newCapacity, old(Elements()))
    {
      hide *;
      removed := [];
      ghost var all := Elements();
      var cap := capacity;
      NothingRemoved(newCapacity, all);
      while cap != newCapacity
        invariant Valid() && cap == capacity && resizeInProgress == old(resizeInProgress)
        invariant removed + Elements() == all
        invariant cap == newCapacity ==> |removed| == Excess(newCapacity, all)
        invariant cap != newCapacity ==> removed == [] && Elements() == all
        decreases cap != newCapacity
      {
        if cap < newCapacity {
          var _ := IncreaseCapacity(newCapacity - cap);
        } else {
          var _, more := DecreaseCapacity(cap - newCapacity);
          removed := removed + more;
        }
        cap := capacity;
      }
    }

    /** Takes a free index, or the oldest used one, whose element is evicted. */
    method AcquireIndex() returns (index: nat, evicted: Option<V>)
      requires Valid() && capacity >= 1
      modifies queue.Footprint()
      ensures queue.Holding(index) && queue.lent == old(queue.lent)
      ensures (queue.Remaining(index), evicted) == MakeRoom(capacity, old(Elements()))
    {
      hide QueueState, Live, Stored;
      ghost var data, free, used := queue.buffer[..], queue.freeIndices.Indices(), queue.usedIndices.Indices();
      var ok := false;
      index, evicted := 0, None;
      while !ok
        invariant queue.lent == old(queue.lent)
        invariant if ok then queue.Holding(index)
                       && (queue.Remaining(index), evicted) == MakeRoom(capacity, old(Elements()))
                  else queue.Valid() && evicted == None && queue.buffer[..] == data
                       && queue.freeIndices.Indices() == free && queue.usedIndices.Indices() == used
        decreases !ok
      {
        ok, index := queue.freeIndices.Pop();
        if !ok {
          ok, index := queue.usedIndices.PopIfSizeIsAtLeast(capacity);
          if ok {
            EmptySlot(data, free, queue.usedIndices.Indices(), queue.lent, index);
            var element := queue.ReadBufferAt(index);
            evicted := Some(element);
          }
        }
      }
    }

    /** Inserts a value, taking out the oldest element if the queue is full. With a capacity of
        zero the call would not return. */
    method Push(value: V) returns (evicted: Option<V>)
      requires Valid() && capacity >= 1
      modifies Footprint()
      ensures Valid() && capacity == old(capacity) && resizeInProgress == old(resizeInProgress)
      ensures (Elements(), evicted) == PushOver(old(capacity), old(Elements()), value)
    {
      hide QueueState, Live, Stored, LockFreeQueue.Parts, LockFreeQueue.Holding, LockFreeQueue.Remaining;
      var index;
      RoomThenPush(capacity, Elements(), value);
      index, evicted := AcquireIndex();
      queue.FillHeld(index, value);
    }

    method TryPush(value: V) returns (ok: bool)
      requires Valid()
      modifies Footprint()
      ensures Valid() && capacity == old(capacity) && resizeInProgress == old(resizeInProgress)
      ensures (Elements(), ok) == BoundedQueueSpec.TryPush(old(capacity), old(Elements()), value)
    {
      hide LockFreeQueue.Valid, LockFreeQueue.Elements, LockFreeQueue.Capacity, LockFreeQueue.Parts;
      ok := queue.TryPush(value);
    }

    method Pop() returns (result: Option<V>)
      requires Valid()
      modifies Footprint()
      ensures Valid() && capacity == old(capacity) && resizeInProgress == old(resizeInProgress)
      ensures (Elements(), result) == PopFront(old(Elements()))
    {
      hide LockFreeQueue.Valid, LockFreeQueue.Elements, LockFreeQueue.Capacity, LockFreeQueue.Parts;
      result := queue.Pop();
    }

    method IsEmpty() returns (empty: bool)
      requires Valid()
      ensures empty <==> |Elements()| == 0
    {
      empty := queue.IsEmpty();
    }

    method Size() returns (n: nat)
      requires Valid()
      ensures n == |Elements()|
    {
      n := queue.size;
    }
  }

  lemma NothingRemoved<V>(n: nat, all: seq<V>)
    ensures [] + all == all && (|all| <= n ==> Excess(n, all) == 0)
  {
  }

  lemma RemovedAre<V>(all: seq<V>, removed: seq<V>, kept: seq<V>, n: nat)
    requires removed + kept == all && |kept| <= n && (removed != [] ==> |kept| == n)
    ensures |removed| == Excess(n, all)
  {
  }
}
