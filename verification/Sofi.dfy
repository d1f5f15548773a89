/**
 SoFi in place, as one thread runs it while no other does: the ring that overwrites its oldest
 element. One slot more than the capacity tells a full ring from an empty one.
*/
module SofiQueues {
  import opened BoundedQueueSpec
  import opened CyclicIndex
  import opened Options
  import opened Rings

  const INTERNAL_SIZE_ADD_ON: nat := 1

  class SoFi<V(0)> {
    const data: array<V>
    /** The slots in use. */
    var internalSize: nat
    var readPosition: nat
    var writePosition: nat

    ghost predicate Valid()
      reads this
    {
      && 1 <= internalSize <= data.Length
      && readPosition <= writePosition < readPosition + internalSize
    }

    /** The elements in the queue, the oldest first. */
    ghost function Elements(): (s: seq<V>)
      requires Valid()
      reads this, data
      ensures |s| == writePosition - readPosition <= internalSize - 1
    {
      Window(data[..], internalSize, readPosition, writePosition)
    }

    constructor (capacity: nat)
      ensures Valid() && fresh(data) && Elements() == []
      ensures internalSize == capacity + INTERNAL_SIZE_ADD_ON == data.Length
    {
      data := new V[capacity + INTERNAL_SIZE_ADD_ON];
      internalSize, readPosition, writePosition := capacity + INTERNAL_SIZE_ADD_ON, 0, 0;
    }

    function Capacity(): int
      reads this
    {
      internalSize - INTERNAL_SIZE_ADD_ON
    }

    /** Stores a value; if that fills the ring's last slot, takes the oldest element out. */
    method Push(valueIn: V) returns (hadSpace: bool, valueOut: Option<V>)
      requires Valid()
      modifies this`readPosition, this`writePosition, data
      ensures Valid()
      ensures (Elements(), valueOut) == PushOver(internalSize - 1, old(Elements()), valueIn)
      ensures hadSpace <==> valueOut == None
    {
      var currentWritePosition := writePosition;
      var nextWritePosition := currentWritePosition + 1;
      WindowAppend(data[..], internalSize, readPosition, writePosition, valueIn);
      ghost var after := data[..][IndexOf(internalSize, currentWritePosition) := valueIn];
      data[IndexOf(internalSize, currentWritePosition)] := valueIn;
      assert data[..] == after;
      writePosition := nextWritePosition;
      var currentReadPosition := readPosition;
      if nextWritePosition < currentReadPosition + internalSize {
        return true, None;
      }
      var nextReadPosition := currentReadPosition + 1;
      readPosition := nextReadPosition;
      return false, Some(data[IndexOf(internalSize, currentReadPosition)]);
    }

    /** Takes the oldest element out if there is one and the verificator accepts it. */
    method PopIf(verificator: V -> bool) returns (popped: bool, valueOut: Option<V>)
      requires Valid()
      modifies this`readPosition
      ensures Valid()
      ensures popped <==> |old(Elements())| > 0 && verificator(old(Elements())[0])
      ensures if popped then valueOut.Some? && old(Elements()) == [valueOut.value] + Elements()
              else Elements() == old(Elements())
    {
      var spurious: nat := *;
      var currentReadPosition := readPosition;
      var nextReadPosition := 0;
      valueOut := None;
      while true
        invariant readPosition == old(readPosition) == currentReadPosition
        decreases spurious
      {
        if currentReadPosition == writePosition {
          nextReadPosition := currentReadPosition;
          popped := false;
        } else {
          var value := data[IndexOf(internalSize, currentReadPosition)];
          valueOut := Some(value);
          if readPosition == currentReadPosition && !verificator(value) {
            popped := false;
            nextReadPosition := currentReadPosition;
          } else {
            nextReadPosition := currentReadPosition + 1;
            popped := true;
          }
        }
        if spurious == 0 {
          readPosition := nextReadPosition;
          break;
        }
        spurious := spurious - 1;
      }
    }

    method Pop() returns (popped: bool, valueOut: Option<V>)
      requires Valid()
      modifies this`readPosition
      ensures Valid()
      ensures popped <==> |old(Elements())| > 0
      ensures (Elements(), if popped then valueOut else None) == PopFront(old(Elements()))
    {
      popped, valueOut := PopIf(_ => true);
    }

    method IsEmpty() returns (empty: bool)
      requires Valid()
      ensures empty <==> |Elements()| == 0
    {
      var currentReadPosition := readPosition;
      var currentWritePosition := writePosition;
      empty := currentWritePosition == currentReadPosition;
    }

    method Size() returns (n: nat)
      requires Valid()
      ensures n == |Elements()|
    {
      n := writePosition - readPosition;
    }

    /** Only an empty ring can be resized, up to the slots it was built with. */
    method SetCapacity(newSize: nat) returns (ok: bool)
      requires Valid()
      modifies this
      ensures Valid() && Elements() == old(Elements())
      ensures ok <==> |old(Elements())| == 0 && newSize + INTERNAL_SIZE_ADD_ON <= data.Length
      ensures internalSize == if ok then newSize + INTERNAL_SIZE_ADD_ON else old(internalSize)
    {
      var newInternalSize := newSize + INTERNAL_SIZE_ADD_ON;
      var isEmpty := IsEmpty();
      if isEmpty && newInternalSize <= data.Length {
        internalSize := newInternalSize;
        readPosition, writePosition := 0, 0;
        return true;
      }
      return false;
    }
  }
}
