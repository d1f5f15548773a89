/**
 The index queue in place, as one thread runs it while no other does.

 The calls are those of the C++ class, loops included. A weak compare-exchange may fail any
 finite number of times for no reason, and a push of a thread that died may have published
 without moving the write position. The invariant and the contents are those of the concurrent
 protocol.
*/
module IndexQueues {
  import opened CyclicIndex
  import opened IndexQueueProtocol

  class IndexQueue {
    const cells: array<nat>
    var readPosition: nat
    var writePosition: nat

    ghost function Memory(): Queue
      reads this, cells
    {
      Queue(cells[..], readPosition, writePosition)
    }

    ghost predicate Valid()
      reads this, cells
      ensures Valid() ==> Shape(cells.Length, Memory()) && readPosition <= Frontier(cells.Length, Memory())
    {
      QueueInv(cells.Length, Memory())
    }

    /** The indices in the queue, oldest first. */
    ghost function Indices(): (s: seq<nat>)
      requires Valid()
      reads this, cells
    {
      Contents(cells.Length, Memory())
    }

    /** Every push has moved the write position. */
    ghost predicate Settled()
      requires Valid()
      reads this, cells
    {
      writePosition == Frontier(cells.Length, Memory())
    }

    constructor Empty(capacity: nat)
      requires capacity >= 1
      ensures Valid() && fresh(cells) && cells.Length == capacity
      ensures Indices() == [] && Settled()
    {
      cells := new nat[capacity](_ => 0);
      readPosition, writePosition := capacity, capacity;
      new;
      EmptyQueue(capacity);
      EmptyIsSettled(capacity);
      assert Memory() == ConstructEmpty(capacity);
    }

    constructor Full(capacity: nat)
      requires capacity >= 1
      ensures Valid() && fresh(cells) && cells.Length == capacity
      ensures Indices() == seq(capacity, i => i) && Settled()
    {
      cells := new nat[capacity](i => i);
      readPosition, writePosition := 0, capacity;
      new;
      FullQueue(capacity);
      FullIsSettled(capacity);
      assert Memory() == ConstructFull(capacity);
    }

    method LoadCell(position: nat) returns (value: nat)
      requires Valid()
      ensures value == LoadValueAt(cells.Length, Memory(), position)
    {
      value := cells[IndexOf(cells.Length, position)];
    }

    /** Appends an index; the caller owns it, so there is room. A stalled push of another thread
        is finished on the way. */
    method Push(index: nat)
      requires Valid() && index < cells.Length && |Indices()| < cells.Length
      modifies this, cells
      ensures Valid() && Settled()
      ensures Indices() == old(Indices()) + [index]
    {
      hide QueueInv, Contents, Frontier, CycleOf, IndexOf, Published;
      var c := cells.Length;
      var spurious: nat := *;
      var position := writePosition;
      while true
        invariant Valid() && Indices() == old(Indices())
        invariant position == writePosition || (position + 1 == writePosition && Settled())
        decreases spurious, !Settled(), writePosition - position
      {
        var oldValue := LoadCell(position);
        AtPosition(c, Memory(), position);
        var cellIsFree := OneCycleBehind(c, oldValue, position);
        if cellIsFree {
          var newValue := Pack(c, index, CycleOf(c, position));
          if spurious == 0 {
            Publish(c, Memory(), index, position);
            ghost var after := Memory().(cells := cells[..][IndexOf(c, position) := newValue]);
            cells[IndexOf(c, position)] := newValue;
            assert Memory() == after;
            break;
          }
          spurious := spurious - 1;
        }
        var writePositionRequiresUpdate := CycleOf(c, oldValue) == CycleOf(c, position);
        if writePositionRequiresUpdate {
          if writePosition == position {
            MoveWritePosition(c, Memory());
            writePosition := position + 1;
          } else {
            position := writePosition;
          }
        } else {
          position := writePosition;
        }
      }
      MoveWritePosition(c, Memory());
      writePosition := position + 1;
    }

    /** Takes the oldest index unless the queue is empty. */
    method Pop() returns (ok: bool, index: nat)
      requires Valid()
      modifies this`readPosition
      ensures Valid() && (old(Settled()) ==> Settled())
      ensures ok <==> old(Indices()) != []
      ensures if ok then old(Indices()) == [index] + Indices() else Indices() == old(Indices())
    {
      hide QueueInv, Frontier, CycleOf, IndexOf, Published;
      var c := cells.Length;
      var spurious: nat := *;
      var position, value := readPosition, 0;
      var ownershipGained := false;
      while !ownershipGained
        invariant Valid() && (old(Settled()) ==> Settled())
        invariant if ownershipGained then old(Indices()) == [IndexOf(c, value)] + Indices()
                  else Memory() == old(Memory()) && position == readPosition
        decreases spurious, !ownershipGained
      {
        value := LoadCell(position);
        AtReadPosition(c, Memory());
        var cellIsValidToRead := CycleOf(c, position) == CycleOf(c, value);
        if cellIsValidToRead {
          if spurious == 0 {
            TakeHead(c, Memory(), value);
            readPosition := position + 1;
            ownershipGained := true;
          } else {
            spurious := spurious - 1;
          }
        } else {
          var isEmpty := OneCycleBehind(c, value, position);
          if isEmpty {
            return false, 0;
          }
          position := readPosition;
        }
      }
      ok := true;
      index := IndexOf(c, value);
    }

    /** Takes the oldest index if the queue is full. */
    method PopIfFull() returns (ok: bool, index: nat)
      requires Valid()
      modifies this`readPosition
      ensures Valid() && (old(Settled()) ==> Settled())
      ensures ok ==> |old(Indices())| == cells.Length
      ensures old(Settled()) && |old(Indices())| == cells.Length ==> ok
      ensures if ok then old(Indices()) == [index] + Indices() else Indices() == old(Indices())
    {
      hide QueueInv, Published, CycleOf, IndexOf;
      var c := cells.Length;
      var value := LoadCell(readPosition);
      var isFull := IndexOf(c, writePosition) == IndexOf(c, readPosition) && OneCycleBehind(c, readPosition, writePosition);
      FullMeansOneLap(c, readPosition, writePosition);
      FrontierIsClose(c, Memory());
      if !isFull {
        return false, 0;
      }
      TakeHead(c, Memory(), value);
      readPosition := readPosition + 1;
      ok, index := true, IndexOf(c, value);
    }

    /** Takes the oldest index if the queue holds at least `minSize` indices. */
    method PopIfSizeIsAtLeast(minSize: nat) returns (ok: bool, index: nat)
      requires Valid()
      modifies this`readPosition
      ensures Valid() && (old(Settled()) ==> Settled())
      ensures ok ==> |old(Indices())| >= minSize && |old(Indices())| >= 1
      ensures old(Settled()) && |old(Indices())| >= minSize && |old(Indices())| >= 1 ==> ok
      ensures if ok then old(Indices()) == [index] + Indices() else Indices() == old(Indices())
    {
      hide QueueInv, Published, CycleOf, IndexOf;
      if minSize == 0 {
        ok, index := Pop();
        return;
      }
      var c := cells.Length;
      FrontierIsClose(c, Memory());
      var delta: int := writePosition - readPosition;
      if delta < 0 {
        return false, 0;
      }
      if delta < minSize {
        return false, 0;
      }
      var value := LoadCell(readPosition);
      TakeHead(c, Memory(), value);
      readPosition := readPosition + 1;
      ok, index := true, IndexOf(c, value);
    }

    method IsEmpty() returns (empty: bool)
      requires Valid()
      ensures empty <==> Indices() == []
    {
      hide QueueInv, Published, CycleOf, IndexOf;
      var value := LoadCell(readPosition);
      AtReadPosition(cells.Length, Memory());
      empty := OneCycleBehind(cells.Length, value, readPosition);
    }
  }

  lemma EmptyIsSettled(c: nat)
    requires c >= 1
    ensures Frontier(c, ConstructEmpty(c)) == c
  {
    assert CycleOf(c, c) == 1 + CycleOf(c, 0);
  }

  lemma FullIsSettled(c: nat)
    requires c >= 1
    ensures Frontier(c, ConstructFull(c)) == c
  {
    assert CycleOf(c, c) == 1 + CycleOf(c, 0);
  }

  /** The cell at the write position is free, or published by a push that stalled; the cell
      before the frontier is published. */
  lemma AtPosition(c: nat, q: Queue, p: nat)
    requires QueueInv(c, q) && (p == q.wr || p + 1 == q.wr == Frontier(c, q))
    ensures q.wr <= Frontier(c, q)
    ensures OneCycleBehind(c, LoadValueAt(c, q, p), p) <==> p == Frontier(c, q)
    ensures CycleOf(c, LoadValueAt(c, q, p)) == CycleOf(c, p) <==> p < Frontier(c, q)
  {
    CellCycle(c, q, p);
  }

  /** The cell at the read position holds the oldest index, or is one cycle behind. */
  lemma AtReadPosition(c: nat, q: Queue)
    requires QueueInv(c, q)
    ensures q.rd <= Frontier(c, q) <= q.rd + c
    ensures OneCycleBehind(c, LoadValueAt(c, q, q.rd), q.rd) <==> q.rd == Frontier(c, q)
    ensures CycleOf(c, q.rd) == CycleOf(c, LoadValueAt(c, q, q.rd)) <==> q.rd < Frontier(c, q)
    ensures |Contents(c, q)| == Frontier(c, q) - q.rd
  {
    CellCycle(c, q, q.rd);
  }
}
