/**
 UsedChunkList: two singly linked lists threaded through one index array, plus a data array.

 The list lives in shared memory. When its owner dies, at any instruction, another process runs
 `cleanup` to get back every chunk the owner still holds. The model therefore knows, besides
 the state before and after `insert` and `remove`, the memory after each single assignment.
*/
module UsedChunkList {
  import opened Options
  import opened Indices
  import opened Slots

  /** The memory of a list: the two heads, the index array and the data array. The number of
      entries is also the invalid index. */
  datatype Image<C> = Image(usedHead: nat, freeHead: nat, next: seq<nat>, data: seq<Option<C>>)

  /** One assignment of the C++ code. */
  datatype Write<C> =
    | SetUsedHead(head: nat)
    | SetFreeHead(head: nat)
    | SetNext(i: nat, link: nat)
    | SetData(i: nat, chunk: Option<C>)

  function ApplyWrite<C>(m: Image<C>, w: Write<C>): Image<C> {
    match w
    case SetUsedHead(head) => m.(usedHead := head)
    case SetFreeHead(head) => m.(freeHead := head)
    case SetNext(i, link) => if i < |m.next| then m.(next := m.next[i := link]) else m
    case SetData(i, chunk) => if i < |m.data| then m.(data := m.data[i := chunk]) else m
  }

  function ApplyWrites<C>(m: Image<C>, ws: seq<Write<C>>): Image<C> {
    if ws == [] then m else ApplyWrite(ApplyWrites(m, ws[..|ws| - 1]), ws[|ws| - 1])
  }

  /** The chunks a cleanup finds: those in the non-null entries of the data array. */
  function Recorded<C(==)>(data: seq<Option<C>>): multiset<C> {
    if data == [] then multiset{}
    else Recorded(data[..|data| - 1]) + One(data[|data| - 1])
  }

  function One<C(==)>(entry: Option<C>): multiset<C> {
    if entry.Some? then multiset{entry.value} else multiset{}
  }

  // ---------------------------------------------------------------------------------------
  // The shape of a list between calls

  /** Following `next` from `head` visits exactly `list` and ends at the invalid index. */
  ghost predicate Chain(next: seq<nat>, head: nat, list: seq<nat>)
    decreases list
  {
    if list == [] then head == |next|
    else head == list[0] < |next| && Chain(next, next[head], list[1..])
  }

  /** The two lists are without repetition, disjoint, and cover the `n` entries. */
  ghost predicate Partition(n: nat, used: seq<nat>, free: seq<nat>) {
    && NoDuplicates(used) && NoDuplicates(free)
    && (forall k :: 0 <= k < |used| ==> used[k] < n)
    && (forall k :: 0 <= k < |free| ==> free[k] < n)
    && (forall i :: i in used ==> i !in free)
    && (forall i: nat :: i < n ==> i in used || i in free)
  }

  ghost predicate ListInv<C>(m: Image<C>, used: seq<nat>, free: seq<nat>) {
    && |m.next| == |m.data| >= 1
    && Chain(m.next, m.usedHead, used) && Chain(m.next, m.freeHead, free)
    && Partition(|m.next|, used, free)
    && Occupied(m.data, used)
  }

  // ---------------------------------------------------------------------------------------
  // insert and remove as lists of assignments

  function InsertWrites<C>(m: Image<C>, chunk: C): seq<Write<C>>
    requires |m.next| == |m.data|
  {
    if m.freeHead >= |m.next| then []
    else [SetNext(m.freeHead, m.usedHead),
          SetUsedHead(m.freeHead),
          SetData(m.freeHead, Some(chunk)),
          SetFreeHead(m.next[m.freeHead])]
  }

  /** The assignments of a remove that found its chunk in entry `current`, after `previous`. */
  function RemoveWrites<C>(m: Image<C>, previous: nat, current: nat): (ws: seq<Write<C>>)
    requires current < |m.next|
    ensures |ws| == 4
  {
    [SetData(current, None),
     if current == m.usedHead then SetUsedHead(m.next[current]) else SetNext(previous, m.next[current]),
     SetNext(current, m.freeHead),
     SetFreeHead(current)]
  }

  /** The memory before the first of the assignments and after each of them. */
  ghost function Points<C>(m: Image<C>, ws: seq<Write<C>>): (points: seq<Image<C>>)
    ensures |points| == |ws| + 1
    ensures forall k :: 0 <= k <= |ws| ==> points[k] == ApplyWrites(m, ws[..k])
  {
    seq(|ws| + 1, k requires 0 <= k <= |ws| => ApplyWrites(m, ws[..k]))
  }

  /** The position of the first entry of `used`, the most recently inserted one, that holds
      `chunk`, or |used|. */
  function FindFirst<C(==)>(data: seq<Option<C>>, used: seq<nat>, chunk: C): (p: nat)
    requires Live(data, used)
    ensures p <= |used|
  {
    if used == [] then 0
    else if data[used[0]].value == chunk then 0
    else 1 + FindFirst(data, used[1..], chunk)
  }

  /** The assignments of a whole remove. */
  function RemovalOf<C(==)>(m: Image<C>, used: seq<nat>, chunk: C): seq<Write<C>>
    requires |m.next| == |m.data| && Live(m.data, used)
  {
    var p := FindFirst(m.data, used, chunk);
    if p == |used| then []
    else LiveAt(m.data, used, p); RemoveWrites(m, if p == 0 then |m.next| else used[p - 1], used[p])
  }

  lemma ApplyFour<C>(m: Image<C>, ws: seq<Write<C>>)
    requires |ws| == 4
    ensures ApplyWrites(m, ws[..0]) == m
    ensures ApplyWrites(m, ws[..1]) == ApplyWrite(m, ws[0])
    ensures ApplyWrites(m, ws[..2]) == ApplyWrite(ApplyWrite(m, ws[0]), ws[1])
    ensures ApplyWrites(m, ws[..3]) == ApplyWrite(ApplyWrite(ApplyWrite(m, ws[0]), ws[1]), ws[2])
    ensures ApplyWrites(m, ws[..4]) == ApplyWrite(ApplyWrite(ApplyWrite(ApplyWrite(m, ws[0]), ws[1]), ws[2]), ws[3])
    ensures ApplyWrites(m, ws) == ApplyWrites(m, ws[..4])
  {
    hide ApplyWrite;
    assert ws[..1][..0] == ws[..0] && ws[..2][..1] == ws[..1] && ws[..3][..2] == ws[..2];
    assert ws[..4][..3] == ws[..3] && ws[..4] == ws;
  }

  // ---------------------------------------------------------------------------------------
  // Between calls

  lemma {:induction false} ChainFrame(next: seq<nat>, next': seq<nat>, head: nat, list: seq<nat>)
    requires Chain(next, head, list) && |next'| == |next|
    requires forall i :: i in list && i < |next| ==> next'[i] == next[i]
    ensures Chain(next', head, list)
    decreases list
  {
    if list != [] {
      assert list[0] in list;
      ChainFrame(next, next', next[head], list[1..]);
    }
  }

  /** Linking the predecessor to the successor takes one entry out of a chain. */
  lemma {:induction false} ChainSkip(next: seq<nat>, head: nat, list: seq<nat>, p: nat)
    requires Chain(next, head, list) && NoDuplicates(list) && 1 <= p < |list|
    ensures list[p - 1] < |next| && list[p] < |next|
    ensures Chain(next[list[p - 1] := next[list[p]]], head, list[..p] + list[p + 1..])
    decreases p
  {
    var rest := list[1..];
    var out := list[..p] + list[p + 1..];
    if p == 1 {
      var next' := next[list[0] := next[list[1]]];
      assert rest[1..] == list[2..] && out[1..] == list[2..];
      ChainFrame(next, next', next[list[1]], list[2..]);
    } else {
      ChainSkip(next, next[head], rest, p - 1);
      assert out[1..] == rest[..p - 1] + rest[p..];
    }
  }

  lemma PartitionInsert(n: nat, used: seq<nat>, free: seq<nat>)
    requires Partition(n, used, free) && free != []
    ensures Partition(n, [free[0]] + used, free[1..])
  {
    assert forall k :: 0 <= k < |used| ==> used[k] in used;
    assert forall i :: i in free <==> i == free[0] || i in free[1..];
  }

  lemma PartitionRemove(n: nat, used: seq<nat>, free: seq<nat>, p: nat)
    requires Partition(n, used, free) && p < |used|
    ensures Partition(n, used[..p] + used[p + 1..], [used[p]] + free)
  {
    var rest := used[..p] + used[p + 1..];
    assert forall k :: 0 <= k < |free| ==> free[k] in free;
    assert used[p] in used;
    assert forall k :: 0 <= k < |rest| ==> rest[k] == used[if k < p then k else k + 1];
    assert used == used[..p] + [used[p]] + used[p + 1..];
    assert forall i :: i in used <==> i == used[p] || i in rest;
  }

  /** A whole insert turns the head of the free list into the head of the used list. */
  lemma InsertKeepsInv<C>(m: Image<C>, used: seq<nat>, free: seq<nat>, chunk: C)
    requires ListInv(m, used, free) && free != []
    ensures ListInv(ApplyWrites(m, InsertWrites(m, chunk)), [free[0]] + used, free[1..])
  {
    hide Partition;
    ApplyFour(m, InsertWrites(m, chunk));
    PartitionInsert(|m.next|, used, free);
    PartitionFacts(|m.next|, used, free);
    var i := free[0];
    var next' := m.next[i := m.usedHead];
    assert ApplyWrites(m, InsertWrites(m, chunk))
        == Image(i, m.next[i], next', m.data[i := Some(chunk)]);
    ChainFrame(m.next, next', m.usedHead, used);
    ChainFrame(m.next, next', m.next[i], free[1..]);
    assert ([i] + used)[1..] == used;
  }

  lemma PartitionFacts(n: nat, used: seq<nat>, free: seq<nat>)
    requires Partition(n, used, free)
    ensures free != [] ==> free[0] < n && free[0] !in free[1..] && free[0] !in used
    ensures forall k :: 0 <= k < |used| ==> used[k] < n && used[k] in used && used[k] !in free
  {
    if free != [] { assert free[0] in free; }
    assert forall k :: 0 <= k < |used| ==> used[k] in used;
  }

  lemma RemoveResult<C>(m: Image<C>, previous: nat, current: nat)
    requires |m.next| == |m.data| && current < |m.next|
    requires current != m.usedHead ==> previous < |m.next|
    ensures ApplyWrites(m, RemoveWrites(m, previous, current)) ==
      if current == m.usedHead then
        Image(m.next[current], current, m.next[current := m.freeHead], m.data[current := None])
      else
        Image(m.usedHead, current, m.next[previous := m.next[current]][current := m.freeHead], m.data[current := None])
  {
    hide ApplyWrites;
    ApplyFour(m, RemoveWrites(m, previous, current));
  }

  /** A whole remove of the entry at position `p` turns it into the head of the free list. */
  lemma RemoveKeepsInv<C>(m: Image<C>, used: seq<nat>, free: seq<nat>, p: nat)
    requires ListInv(m, used, free) && p < |used|
    ensures used[p] < |m.next|
    ensures ListInv(ApplyWrites(m, RemoveWrites(m, if p == 0 then |m.next| else used[p - 1], used[p])),
                    used[..p] + used[p + 1..], [used[p]] + free)
  {
    hide Partition, ApplyWrites, RemoveWrites, Occupied;
    PartitionFacts(|m.next|, used, free);
    RemoveChains(m, used, free, p);
    RemoveResult(m, if p == 0 then |m.next| else used[p - 1], used[p]);
    PartitionRemove(|m.next|, used, free, p);
    RemoveOccupied(m.data, used, p, |m.next|, free);
    assert p == 0 ==> used[..p] + used[p + 1..] == used[1..];
  }

  lemma RemoveOccupied<C>(data: seq<Option<C>>, used: seq<nat>, p: nat, n: nat, free: seq<nat>)
    requires Partition(n, used, free) && Occupied(data, used) && p < |used| && |data| == n
    ensures Occupied(data[used[p] := None], used[..p] + used[p + 1..])
  {
    var rest := used[..p] + used[p + 1..];
    assert used == used[..p] + [used[p]] + used[p + 1..];
    assert forall i :: i in used <==> i == used[p] || i in rest;
    assert used[p] in used;
    assert used[p] !in rest;
  }

  lemma RemoveChains<C>(m: Image<C>, used: seq<nat>, free: seq<nat>, p: nat)
    requires ListInv(m, used, free) && p < |used|
    ensures used[p] < |m.next|
    ensures p == 0 ==> m.usedHead == used[0] && Chain(m.next[used[0] := m.freeHead], m.next[used[0]], used[1..])
    ensures p > 0 ==> m.usedHead != used[p] && used[p - 1] < |m.next|
    ensures p > 0 ==>
      Chain(m.next[used[p - 1] := m.next[used[p]]][used[p] := m.freeHead], m.usedHead, used[..p] + used[p + 1..])
    ensures p == 0 ==> Chain(m.next[used[0] := m.freeHead], used[0], [used[0]] + free)
    ensures p > 0 ==>
      Chain(m.next[used[p - 1] := m.next[used[p]]][used[p] := m.freeHead], used[p], [used[p]] + free)
  {
    PartitionFacts(|m.next|, used, free);
    var rest := used[..p] + used[p + 1..];
    var mid := if p == 0 then m.next else m.next[used[p - 1] := m.next[used[p]]];
    var next' := mid[used[p] := m.freeHead];
    if p > 0 { ChainSkip(m.next, m.usedHead, used, p); } else { assert rest == used[1..]; }
    assert forall k :: 0 <= k < |rest| ==> rest[k] == used[if k < p then k else k + 1];
    assert used[p] !in rest;
    ChainFrame(mid, next', if p == 0 then m.next[used[0]] else m.usedHead, rest);
    ChainFrame(m.next, next', m.freeHead, free);
    assert ([used[p]] + free)[1..] == free;
  }

  // ---------------------------------------------------------------------------------------
  // At every crash point

  lemma {:induction false} RecordedUpdate<C>(data: seq<Option<C>>, i: nat, chunk: Option<C>)
    requires i < |data|
    ensures Recorded(data[i := chunk]) + One(data[i]) == Recorded(data) + One(chunk)
  {
    hide One;
    var last := |data| - 1;
    if i < last {
      RecordedUpdate(data[..last], i, chunk);
      assert data[i := chunk][..last] == data[..last][i := chunk];
      assert data[..last][i] == data[i];
      var rest, rest' := Recorded(data[..last]), Recorded(data[..last][i := chunk]);
      assert (rest' + One(data[last])) + One(data[i]) == (rest' + One(data[i])) + One(data[last]);
      assert (rest + One(data[last])) + One(chunk) == (rest + One(chunk)) + One(data[last]);
    } else {
      assert data[i := chunk][..last] == data[..last];
    }
  }

  /** Wherever an insert stops, the recorded chunks are the old ones, or those and the new one. */
  lemma InsertCrash<C>(m: Image<C>, used: seq<nat>, free: seq<nat>, chunk: C, k: nat)
    requires ListInv(m, used, free) && k <= |InsertWrites(m, chunk)|
    ensures Recorded(ApplyWrites(m, InsertWrites(m, chunk)[..k]).data)
         == Recorded(m.data) + (if k >= 3 then multiset{chunk} else multiset{})
  {
    hide Recorded;
    if free != [] {
      ApplyFour(m, InsertWrites(m, chunk));
      PartitionFacts(|m.next|, used, free);
      RecordedUpdate(m.data, free[0], Some(chunk));
    }
  }

  /** Wherever a remove stops, the recorded chunks are the old ones, or those without the chunk
      that is handed to the caller. */
  lemma RemoveCrash<C>(m: Image<C>, used: seq<nat>, free: seq<nat>, previous: nat, p: nat, k: nat)
    requires ListInv(m, used, free) && p < |used| && k <= 4
    ensures used[p] < |m.data| && m.data[used[p]].Some?
    ensures Recorded(ApplyWrites(m, RemoveWrites(m, previous, used[p])[..k]).data)
         == Recorded(m.data) - (if k >= 1 then multiset{m.data[used[p]].value} else multiset{})
  {
    hide Recorded, Chain, Partition, ApplyWrites;
    PartitionFacts(|m.next|, used, free);
    var ws := RemoveWrites(m, previous, used[p]);
    ApplyFour(m, ws);
    RecordedUpdate(m.data, used[p], None);
    RemoveData(m, previous, used[p], k);
    var now, was := Recorded(m.data[used[p] := None]), Recorded(m.data);
    var one := multiset{m.data[used[p]].value};
    assert now + one == was + multiset{} == was;
    assert (now + one) - one == now;
  }

  lemma RemoveData<C>(m: Image<C>, previous: nat, current: nat, k: nat)
    requires |m.next| == |m.data| && current < |m.next| && k <= 4
    ensures ApplyWrites(m, RemoveWrites(m, previous, current)[..k]).data
         == (if k >= 1 then m.data[current := None] else m.data)
  {
    hide ApplyWrites;
    ApplyFour(m, RemoveWrites(m, previous, current));
  }

  // ---------------------------------------------------------------------------------------
  // The chunks of a list

  /** `s` without the first occurrence of `chunk`. */
  function WithoutFirst<C(==)>(s: seq<C>, chunk: C): seq<C> {
    if s == [] then []
    else if s[0] == chunk then s[1..]
    else [s[0]] + WithoutFirst(s[1..], chunk)
  }

  lemma {:induction false} WithoutFirstBag<C>(s: seq<C>, chunk: C)
    ensures chunk !in s ==> WithoutFirst(s, chunk) == s
    ensures chunk in s ==> multiset(WithoutFirst(s, chunk)) + multiset{chunk} == multiset(s)
  {
    if s != [] {
      assert s == [s[0]] + s[1..];
      if s[0] != chunk { WithoutFirstBag(s[1..], chunk); }
    }
  }

  /** Searching the entries finds the chunk exactly if it is stored, and unlinking the entry
      found drops its first occurrence. */
  lemma {:induction false} FoundIsStored<C>(data: seq<Option<C>>, used: seq<nat>, chunk: C)
    requires Live(data, used)
    ensures FindFirst(data, used, chunk) < |used| <==> chunk in Stored(data, used)
    ensures var p := FindFirst(data, used, chunk);
      p < |used| ==> used[p] < |data| && data[used[p]] == Some(chunk)
  {
    if used != [] {
      var s := Stored(data, used);
      assert s == [s[0]] + s[1..];
      FoundIsStored(data, used[1..], chunk);
    }
  }

  lemma {:induction false} RemoveStores<C>(data: seq<Option<C>>, used: seq<nat>, chunk: C)
    requires Live(data, used) && NoDuplicates(used)
    requires FindFirst(data, used, chunk) < |used|
    ensures var p := FindFirst(data, used, chunk);
      && used[p] < |data|
      && Live(data[used[p] := None], used[..p] + used[p + 1..])
      && Stored(data[used[p] := None], used[..p] + used[p + 1..]) == WithoutFirst(Stored(data, used), chunk)
  {
    var p, s := FindFirst(data, used, chunk), Stored(data, used);
    assert s[1..] == Stored(data, used[1..]);
    if p == 0 {
      assert used[..0] + used[1..] == used[1..];
      StoredFrame(data, used[0], None, used[1..]);
    } else {
      RemoveStores(data, used[1..], chunk);
      LiveAt(data, used, p);
      var out := used[..p] + used[p + 1..];
      assert out[1..] == used[1..][..p - 1] + used[1..][p..];
    }
  }

  /** The two lists together have as many entries as there are. */
  lemma PartitionSize(n: nat, used: seq<nat>, free: seq<nat>)
    requires Partition(n, used, free)
    ensures |used| + |free| == n
  {
    DistinctConcat(used, free);
    DistinctIndicesFit(n, used + free);
    CardinalityOfSubset(Below(n), Elements(used + free));
  }

  lemma RecordedNext<C>(data: seq<Option<C>>, i: nat)
    requires i < |data|
    ensures Recorded(data[..i + 1]) == Recorded(data[..i]) + One(data[i])
  {
    assert data[..i + 1][..i] == data[..i];
  }

  lemma {:induction false} NothingRecorded<C>(data: seq<Option<C>>)
    requires forall i :: 0 <= i < |data| ==> data[i].None?
    ensures Recorded(data) == multiset{}
  {
    if data != [] { NothingRecorded(data[..|data| - 1]); }
  }

  lemma OccupiedRest<C>(data: seq<Option<C>>, used: seq<nat>)
    requires NoDuplicates(used) && Occupied(data, used) && used != [] && used[0] < |data|
    ensures Occupied(data[used[0] := None], used[1..]) && NoDuplicates(used[1..])
    ensures used[0] !in used[1..]
  {
    assert used == [used[0]] + used[1..];
  }

  /** Between calls the chunks a cleanup would release are exactly the stored ones. */
  lemma {:induction false} RecordedIsStored<C>(data: seq<Option<C>>, used: seq<nat>)
    requires NoDuplicates(used) && Occupied(data, used) && Live(data, used)
    ensures Recorded(data) == multiset(Stored(data, used))
    decreases used
  {
    hide Recorded, Occupied, NoDuplicates;
    if used == [] {
      NothingOccupied(data);
      NothingRecorded(data);
    } else {
      OccupiedRest(data, used);
      StoredFrame(data, used[0], None, used[1..]);
      RecordedIsStored(data[used[0] := None], used[1..]);
      StoredMore(data, used);
    }
  }

  lemma StoredMore<C>(data: seq<Option<C>>, used: seq<nat>)
    requires used != [] && Live(data, used)
    requires Recorded(data[used[0] := None]) == multiset(Stored(data, used[1..]))
    ensures Recorded(data) == multiset(Stored(data, used))
  {
    hide Recorded;
    var c, rest := data[used[0]].value, Stored(data, used[1..]);
    RecordedUpdate(data, used[0], None);
    assert Recorded(data) == multiset(rest) + multiset{c};
    assert Stored(data, used) == [c] + rest;
  }

  lemma NothingOccupied<C>(data: seq<Option<C>>)
    requires Occupied(data, [])
    ensures forall i :: 0 <= i < |data| ==> data[i].None?
  {
  }

  // ---------------------------------------------------------------------------------------
  // The contents before and after, on values

  lemma ListIsLive<C>(m: Image<C>, used: seq<nat>, free: seq<nat>)
    requires ListInv(m, used, free)
    ensures Live(m.data, used)
  {
    PartitionFacts(|m.next|, used, free);
    AllLive(m.data, used);
  }

  lemma ListFacts<C>(m: Image<C>, used: seq<nat>, free: seq<nat>)
    requires ListInv(m, used, free)
    ensures Live(m.data, used) && Recorded(m.data) == multiset(Stored(m.data, used))
    ensures |used| + |free| == |m.next| == |m.data| >= 1
    ensures Chain(m.next, m.usedHead, used)
    ensures free == [] <==> m.freeHead == |m.next|
    ensures free != [] ==> m.freeHead == free[0] < |m.next|
    ensures NoDuplicates(used)
  {
    ListIsLive(m, used, free);
    PartitionFacts(|m.next|, used, free);
    PartitionSize(|m.next|, used, free);
    RecordedIsStored(m.data, used);
  }

  lemma InsertStores<C>(m: Image<C>, used: seq<nat>, free: seq<nat>, chunk: C)
    requires ListInv(m, used, free) && free != [] && Live(m.data, used)
    ensures var ws := InsertWrites(m, chunk);
      && ListInv(ApplyWrites(m, ws), [free[0]] + used, free[1..])
      && Live(ApplyWrites(m, ws).data, [free[0]] + used)
      && Stored(ApplyWrites(m, ws).data, [free[0]] + used) == [chunk] + Stored(m.data, used)
  {
    hide ApplyWrites, InsertWrites, Occupied, ListInv, Partition;
    InsertData(m, used, free, chunk);
    InsertKeepsInv(m, used, free, chunk);
    StoredFrame(m.data, free[0], Some(chunk), used);
    assert ([free[0]] + used)[1..] == used;
  }

  lemma InsertData<C>(m: Image<C>, used: seq<nat>, free: seq<nat>, chunk: C)
    requires ListInv(m, used, free) && free != []
    ensures |m.next| == |m.data| && free[0] < |m.data| && free[0] == m.freeHead && free[0] !in used
    ensures ApplyWrites(m, InsertWrites(m, chunk)).data == m.data[free[0] := Some(chunk)]
  {
    hide ApplyWrites, Partition, Occupied;
    PartitionFacts(|m.next|, used, free);
    ApplyFour(m, InsertWrites(m, chunk));
  }

  /** Wherever an insert stops, a cleanup releases the chunks stored before or those stored
      after it. */
  lemma InsertCrashes<C>(m: Image<C>, used: seq<nat>, free: seq<nat>, chunk: C, k: nat)
    requires ListInv(m, used, free) && Live(m.data, used)
    requires k <= |InsertWrites(m, chunk)|
    ensures Recorded(ApplyWrites(m, InsertWrites(m, chunk)[..k]).data)
      == multiset(if k >= 3 then [chunk] + Stored(m.data, used) else Stored(m.data, used))
  {
    hide ApplyWrites, InsertWrites, Recorded, ListInv;
    ListFacts(m, used, free);
    InsertCrash(m, used, free, chunk, k);
  }

  /** Wherever a remove stops, a cleanup releases the chunks stored before or those stored
      after it. */
  lemma RemoveCrashes<C>(m: Image<C>, used: seq<nat>, free: seq<nat>, chunk: C, k: nat)
    requires ListInv(m, used, free) && Live(m.data, used)
    requires k <= |RemovalOf(m, used, chunk)|
    ensures Recorded(ApplyWrites(m, RemovalOf(m, used, chunk)[..k]).data)
      == multiset(if k >= 1 then WithoutFirst(Stored(m.data, used), chunk) else Stored(m.data, used))
  {
    hide Recorded, ListInv, RemoveWrites, Live, FindFirst, Stored, WithoutFirst, ApplyWrite;
    ListFacts(m, used, free);
    WithoutFirstBag(Stored(m.data, used), chunk);
    FoundIsStored(m.data, used, chunk);
    var p := FindFirst(m.data, used, chunk);
    if p < |used| {
      RemovalCrash(m, used, free, p, chunk, k);
    } else {
      assert RemovalOf(m, used, chunk) == [];
    }
  }

  lemma RemoveEnds<C>(m: Image<C>, previous: nat, current: nat)
    requires |m.next| == |m.data| && current < |m.next|
    ensures ApplyWrites(m, RemoveWrites(m, previous, current)).data == m.data[current := None]
  {
    hide ApplyWrites, RemoveWrites;
    var ws := RemoveWrites(m, previous, current);
    RemoveData(m, previous, current, 4);
    assert ws[..4] == ws;
  }

  lemma RemovalCrash<C>(m: Image<C>, used: seq<nat>, free: seq<nat>, p: nat, chunk: C, k: nat)
    requires ListInv(m, used, free) && p < |used| && k <= 4 && Live(m.data, used)
    requires used[p] < |m.data| && m.data[used[p]] == Some(chunk)
    requires chunk in Stored(m.data, used)
    ensures var previous := if p == 0 then |m.next| else used[p - 1];
      Recorded(ApplyWrites(m, RemoveWrites(m, previous, used[p])[..k]).data)
        == multiset(if k >= 1 then WithoutFirst(Stored(m.data, used), chunk) else Stored(m.data, used))
  {
    hide Recorded, ListInv, RemoveWrites, Live, ApplyWrites, WithoutFirst, Stored;
    var s := Stored(m.data, used);
    ListFacts(m, used, free);
    WithoutFirstBag(s, chunk);
    RemoveCrash(m, used, free, if p == 0 then |m.next| else used[p - 1], p, k);
    assert (multiset(WithoutFirst(s, chunk)) + multiset{chunk}) - multiset{chunk} == multiset(WithoutFirst(s, chunk));
  }

  lemma {:induction false} UpChain(next: seq<nat>, i: nat)
    requires i <= |next| && forall k :: 0 <= k < |next| ==> next[k] == k + 1
    ensures Chain(next, i, UpFrom(i, |next|))
    decreases |next| - i
  {
    if i < |next| { UpChain(next, i + 1); }
  }

  function UpFrom(i: nat, n: nat): (s: seq<nat>)
    requires i <= n
    ensures |s| == n - i && forall k :: 0 <= k < |s| ==> s[k] == i + k
    decreases n - i
  {
    if i == n then [] else [i] + UpFrom(i + 1, n)
  }

  lemma FreshList<C>(m: Image<C>)
    requires |m.next| == |m.data| >= 1 && m.usedHead == |m.next| && m.freeHead == 0
    requires forall k :: 0 <= k < |m.next| ==> m.next[k] == k + 1
    requires forall k :: 0 <= k < |m.data| ==> m.data[k].None?
    ensures ListInv(m, [], UpFrom(0, |m.next|))
  {
    var free := UpFrom(0, |m.next|);
    UpChain(m.next, 0);
    forall i: nat | i < |free| ensures i in free { assert free[i] == i; }
  }

  lemma NoWrites<C>(m: Image<C>)
    ensures Points(m, []) == [m]
  {
  }

  // ---------------------------------------------------------------------------------------
  // The list in place

  class List<C(==)> {
    const next: array<nat>
    const data: array<Option<C>>
    var usedHead: nat
    var freeHead: nat
    ghost var used: seq<nat>
    ghost var free: seq<nat>

    ghost predicate Shape() {
      next.Length == data.Length >= 1
    }

    ghost function Memory(): Image<C>
      reads this, next, data
    {
      Image(usedHead, freeHead, next[..], data[..])
    }

    ghost predicate Valid()
      reads this, next, data
      ensures Valid() ==> Shape()
    {
      ListInv(Memory(), used, free)
    }

    /** The stored chunks, the most recently inserted one first. */
    ghost function Contents(): (s: seq<C>)
      reads this, next, data
      requires Valid()
      ensures |s| + |free| == next.Length
      ensures Recorded(data[..]) == multiset(s)
    {
      ListFacts(Memory(), used, free);
      Stored(Memory().data, used)
    }

    constructor (capacity: nat)
      requires capacity >= 1
      ensures Valid() && fresh(next) && fresh(data)
      ensures next.Length == capacity && Contents() == []
    {
      next := new nat[capacity];
      data := new Option<C>[capacity](_ => None);
      usedHead, freeHead := capacity, 0;
      new;
      Init();
    }

    method Init()
      requires Shape() && forall i :: 0 <= i < data.Length ==> data[i].None?
      modifies this, next, data
      ensures Valid() && Contents() == []
    {
      for i := 0 to next.Length
        invariant forall k :: 0 <= k < i ==> next[k] == k + 1
        invariant forall k :: 0 <= k < data.Length ==> data[k].None?
      {
        next[i] := i + 1;
      }
      next[next.Length - 1] := next.Length;
      usedHead, freeHead := next.Length, 0;
      for i := 0 to data.Length
        invariant forall k :: 0 <= k < next.Length ==> next[k] == k + 1
        invariant usedHead == next.Length && freeHead == 0
        invariant forall k :: 0 <= k < data.Length ==> data[k].None?
      {
        data[i] := None;
      }
      used, free := [], UpFrom(0, next.Length);
      FreshList(Memory());
    }

    /** Stores a chunk unless every entry is taken. `points` is the memory before the first
        assignment and after each one: whichever of them the owner dies at, the recorded chunks
        are those stored before or, once the entry is written, those stored after. */
    method Insert(chunk: C) returns (ok: bool, ghost points: seq<Image<C>>)
      requires Valid()
      modifies this, next, data
      ensures Valid()
      ensures ok <==> |old(Contents())| < next.Length
      ensures Contents() == if ok then [chunk] + old(Contents()) else old(Contents())
      ensures points == Points(old(Memory()), InsertWrites(old(Memory()), chunk))
      ensures forall k :: 0 <= k < |points| ==>
        Recorded(points[k].data) == if k >= 3 then multiset(Contents()) else multiset(old(Contents()))
    {
      hide ListInv, Live, ApplyWrites, Recorded, Stored, Chain;
      ghost var m := Memory();
      ListFacts(m, used, free);
      ok := freeHead != next.Length;
      if ok {
        InsertStores(m, used, free, chunk);
        points := Link(chunk);
        used, free := [free[0]] + used, free[1..];
      } else {
        points := [m];
        NoWrites(m);
      }
      forall k | 0 <= k < |points|
        ensures Recorded(points[k].data)
             == if k >= 3 then multiset(Contents()) else multiset(old(Contents()))
      {
        InsertCrashes(m, old(used), old(free), chunk, k);
      }
    }

    /** The assignments of an insert. */
    method Link(chunk: C) returns (ghost points: seq<Image<C>>)
      requires Shape() && freeHead < next.Length
      modifies this`usedHead, this`freeHead, next, data
      ensures Memory() == ApplyWrites(old(Memory()), InsertWrites(old(Memory()), chunk))
      ensures points == Points(old(Memory()), InsertWrites(old(Memory()), chunk))
    {
      ghost var m := Memory();
      ghost var ws := InsertWrites(m, chunk);
      ApplyFour(m, ws);
      var nextFree := next[freeHead];
      next[freeHead] := usedHead;
      ghost var m1 := Memory();
      assert m1 == ApplyWrite(m, ws[0]);
      usedHead := freeHead;
      ghost var m2 := Memory();
      assert m2 == ApplyWrite(m1, ws[1]);
      data[usedHead] := Some(chunk);
      ghost var m3 := Memory();
      assert m3 == ApplyWrite(m2, ws[2]);
      freeHead := nextFree;
      assert Memory() == ApplyWrite(m3, ws[3]);
      points := [m, m1, m2, m3, Memory()];
    }

    /** Takes out the most recently inserted match and hands it to the caller. Whichever point
        the owner dies at, the recorded chunks are those stored before or, once the chunk is
        handed over, those stored after. */
    method Remove(chunk: C) returns (removed: Option<C>, ghost points: seq<Image<C>>)
      requires Valid()
      modifies this, next, data
      ensures Valid()
      ensures removed == if chunk in old(Contents()) then Some(chunk) else None
      ensures Contents() == WithoutFirst(old(Contents()), chunk)
      ensures points == Points(old(Memory()), old(Removal(chunk)))
      ensures forall k :: 0 <= k < |points| ==>
        Recorded(points[k].data) == if k >= 1 then multiset(Contents()) else multiset(old(Contents()))
    {
      hide ListInv, ApplyWrites, Recorded, Stored, RemoveWrites, NoDuplicates;
      ghost var m := Memory();
      ListFacts(m, used, free);
      var previous, current := next.Length, usedHead;
      ghost var p := 0;
      while current != next.Length
        invariant p <= |used| && used == old(used) && free == old(free) && Memory() == m
        invariant Chain(m.next, current, used[p..]) && Live(m.data, used[p..])
        invariant previous == if p == 0 then next.Length else used[p - 1]
        invariant if p == 0 then current == usedHead else previous < next.Length
        invariant FindFirst(m.data, used, chunk) == p + FindFirst(m.data, used[p..], chunk)
        decreases |used| - p
      {
        assert used[p..][1..] == used[p + 1..];
        if data[current].Some? {
          if data[current].value == chunk {
            removed, points := TakeOut(previous, current, chunk);
            return;
          }
        }
        previous := current;
        current := next[current];
        p := p + 1;
      }
      removed, points := None, [m];
      NoWrites(m);
      FoundIsStored(m.data, used, chunk);
      WithoutFirstBag(Contents(), chunk);
    }

    ghost function Removal(chunk: C): seq<Write<C>>
      reads this, next, data
      requires Valid()
    {
      ListFacts(Memory(), used, free);
      RemovalOf(Memory(), used, chunk)
    }

    ghost function Place(chunk: C): (p: nat)
      reads this, next, data
      requires Valid()
      ensures p <= |used|
    {
      ListFacts(Memory(), used, free);
      FindFirst(Memory().data, used, chunk)
    }

    /** A remove that has found its chunk. */
    method TakeOut(previous: nat, current: nat, chunk: C)
      returns (removed: Option<C>, ghost points: seq<Image<C>>)
      requires Valid() && Place(chunk) < |used| && current == used[Place(chunk)] < next.Length
      requires previous == if Place(chunk) == 0 then next.Length else used[Place(chunk) - 1]
      requires previous < next.Length || current == usedHead
      modifies this, next, data
      ensures Valid()
      ensures chunk in old(Contents()) && removed == Some(chunk)
      ensures Contents() == WithoutFirst(old(Contents()), chunk)
      ensures points == Points(old(Memory()), old(Removal(chunk)))
      ensures forall k :: 0 <= k < |points| ==>
        Recorded(points[k].data) == if k >= 1 then multiset(Contents()) else multiset(old(Contents()))
    {
      hide ListInv, Live, ApplyWrites, Recorded, Stored, Chain, RemoveWrites, NoDuplicates, FindFirst;
      ghost var m := Memory();
      ghost var p := Place(chunk);
      ListFacts(m, used, free);
      FoundIsStored(m.data, used, chunk);
      RemoveStores(m.data, used, chunk);
      RemoveKeepsInv(m, used, free, p);
      RemoveEnds(m, previous, current);
      removed, points := Unlink(previous, current);
      used, free := used[..p] + used[p + 1..], [used[p]] + free;
      forall k | 0 <= k < |points|
        ensures Recorded(points[k].data)
             == if k >= 1 then multiset(Contents()) else multiset(old(Contents()))
      {
        RemoveCrashes(m, old(used), old(free), chunk, k);
      }
    }

    /** The assignments of a remove. */
    method Unlink(previous: nat, current: nat) returns (removed: Option<C>, ghost points: seq<Image<C>>)
      requires Shape() && current < next.Length && (current != usedHead ==> previous < next.Length)
      modifies this`usedHead, this`freeHead, next, data
      ensures removed == old(data[current])
      ensures Memory() == ApplyWrites(old(Memory()), RemoveWrites(old(Memory()), previous, current))
      ensures points == Points(old(Memory()), RemoveWrites(old(Memory()), previous, current))
    {
      ghost var m := Memory();
      ghost var ws := RemoveWrites(m, previous, current);
      ApplyFour(m, ws);
      removed := data[current];
      data[current] := None;
      ghost var m1 := Memory();
      assert m1 == ApplyWrite(m, ws[0]);
      if current == usedHead {
        usedHead := next[current];
      } else {
        next[previous] := next[current];
      }
      ghost var m2 := Memory();
      assert m2 == ApplyWrite(m1, ws[1]);
      next[current] := freeHead;
      ghost var m3 := Memory();
      assert m3 == ApplyWrite(m2, ws[2]);
      freeHead := current;
      assert Memory() == ApplyWrite(m3, ws[3]);
      points := [m, m1, m2, m3, Memory()];
    }

    /** Releases every recorded chunk once, whatever state the owner left the memory in, and
        makes the list a valid empty one. */
    method Cleanup() returns (released: seq<C>)
      requires Shape()
      modifies this, next, data
      ensures multiset(released) == Recorded(old(data[..]))
      ensures Valid() && Contents() == []
    {
      hide ListInv, Stored, Recorded;
      released := [];
      ghost var before := data[..];
      NothingRecorded(before[..0]);
      for i := 0 to data.Length
        invariant multiset(released) == Recorded(before[..i])
        invariant data[i..] == before[i..]
        invariant forall k :: 0 <= k < i ==> data[k].None?
      {
        RecordedNext(before, i);
        assert data[i] == before[i];
        if data[i].Some? {
          released := released + [data[i].value];
          data[i] := None;
        }
      }
      assert before[..data.Length] == before;
      Init();
    }
  }
}
