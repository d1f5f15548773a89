/**
 FiFo in place, as one thread runs it while no other does: the ring that rejects a value when it
 is full.
*/
module FifoQueues {
  import opened BoundedQueueSpec
  import opened CyclicIndex
  import opened Options
  import opened Rings

  class FiFo<V(0)> {
    const data: array<V>
    var writePos: nat
    var readPos: nat

    ghost predicate Valid()
      reads this
    {
      data.Length >= 1 && readPos <= writePos <= readPos + data.Length
    }

    /** The elements in the queue, the oldest first. */
    ghost function Elements(): (s: seq<V>)
      requires Valid()
      reads this, data
      ensures |s| == writePos - readPos <= data.Length
    {
      Window(data[..], data.Length, readPos, writePos)
    }

    constructor (capacity: nat)
      requires capacity >= 1
      ensures Valid() && fresh(data) && data.Length == capacity && Elements() == []
    {
      data := new V[capacity];
      writePos, readPos := 0, 0;
    }

    predicate IsFull()
      reads this
    {
      writePos == readPos + data.Length
    }

    method Push(value: V) returns (ok: bool)
      requires Valid()
      modifies this`writePos, data
      ensures Valid()
      ensures (Elements(), ok) == TryPush(data.Length, old(Elements()), value)
    {
      if IsFull() {
        return false;
      }
      var currentWritePos := writePos;
      WindowAppend(data[..], data.Length, readPos, writePos, value);
      ghost var after := data[..][IndexOf(data.Length, currentWritePos) := value];
      data[IndexOf(data.Length, currentWritePos)] := value;
      assert data[..] == after;
      writePos := currentWritePos + 1;
      return true;
    }

    method Pop() returns (result: Option<V>)
      requires Valid()
      modifies this`readPos
      ensures Valid()
      ensures (Elements(), result) == PopFront(old(Elements()))
    {
      var currentReadPos := readPos;
      if currentReadPos == writePos {
        return None;
      }
      var out := data[IndexOf(data.Length, currentReadPos)];
      readPos := currentReadPos + 1;
      return Some(out);
    }

    method IsEmpty() returns (empty: bool)
      requires Valid()
      ensures empty <==> |Elements()| == 0
    {
      empty := readPos == writePos;
    }

    method Size() returns (n: nat)
      requires Valid()
      ensures n == |Elements()|
    {
      n := writePos - readPos;
    }
  }
}
