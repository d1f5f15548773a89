/**
 The size computed before writing, against the bytes written.
*/
module SerializerSize {
  import opened WireFormat
  import opened Schemas
  import opened SerializerFormat

  /** The strings in a value. */
  function Strings(s: Schema, v: Value): nat
    decreases s, 0
  {
    match s
    case Scalar(_) => 0
    case Text => 1
    case Array(_, element) => EachStrings(element, ItemsOf(v))
    case Container(_, element) => EachStrings(element, ItemsOf(v))
    case Group(_, parts) => PartsStrings(parts, ItemsOf(v))
    case Variant(alternatives) => AlternativeStrings(alternatives, IndexOf(v), ItemOf(v))
    case Pointer(target) => Strings(target, ItemOf(v))
  }

  function EachStrings(e: Schema, vs: seq<Value>): nat
    decreases e, |vs| + 1
  {
    if vs == [] then 0 else Strings(e, vs[0]) + EachStrings(e, vs[1..])
  }

  function PartsStrings(parts: Schemas, vs: seq<Value>): nat
    decreases parts, 0
  {
    if parts.Nil? || vs == [] then 0 else Strings(parts.head, vs[0]) + PartsStrings(parts.tail, vs[1..])
  }

  function AlternativeStrings(alternatives: Schemas, index: nat, v: Value): nat
    decreases alternatives, 0
  {
    if alternatives.Nil? then 0
    else if index == 0 then Strings(alternatives.head, v)
    else AlternativeStrings(alternatives.tail, index - 1, v)
  }

  function Sum(info: SizeInfo): nat {
    info.total + info.lengthField
  }

  /** Where nothing is swapped, every trivially serializable sequence is written as the block its
      size was computed from. */
  predicate AllBlocks(conf: Config) {
    conf.little && conf.hostLittle
  }

  /** Written and computed sizes: equal but for one byte per string, or bounded by it. */
  predicate Agrees(conf: Config, written: nat, strings: nat, info: SizeInfo) {
    && written + strings <= Sum(info)
    && (AllBlocks(conf) ==> written + strings == Sum(info))
  }

  // ---------------------------------------------------------------------------------------
  // Trivially serializable objects, member by member

  lemma {:induction false} TrivialHasNoStrings(s: Schema, v: Value)
    requires Trivial(s)
    ensures Strings(s, v) == 0
    decreases s, 0
  {
    match s
    case Scalar(_) =>
    case Array(_, element) => EachHasNoStrings(element, ItemsOf(v));
    case Group(_, parts) => PartsHaveNoStrings(parts, ItemsOf(v));
  }

  lemma {:induction false} EachHasNoStrings(e: Schema, vs: seq<Value>)
    requires Trivial(e)
    ensures EachStrings(e, vs) == 0
    decreases e, |vs| + 1
  {
    if vs != [] {
      TrivialHasNoStrings(e, vs[0]);
      EachHasNoStrings(e, vs[1..]);
    }
  }

  lemma {:induction false} PartsHaveNoStrings(parts: Schemas, vs: seq<Value>)
    requires AllTrivial(parts)
    ensures PartsStrings(parts, vs) == 0
    decreases parts, 0
  {
    if parts.Cons? && vs != [] {
      TrivialHasNoStrings(parts.head, vs[0]);
      PartsHaveNoStrings(parts.tail, vs[1..]);
    }
  }

  /** Written member by member, an object takes no more bytes than in memory, as long as structs
      carry no length field. */
  lemma {:induction false} TrivialIsNoLonger(conf: Config, s: Schema, v: Value)
    requires Trivial(s) && HasType(s, v) && conf.structField == 0
    ensures |Encode(conf, s, v)| <= SizeOf(s)
    decreases s, 0
  {
    hide RuntimeInfo;
    match s
    case Scalar(_) =>
    case Array(_, element) =>
      if Blocks(conf, element) { LayoutEachSize(conf, element, v.items); } else { EachIsNoLonger(conf, element, v.items); }
    case Group(_, parts) => PartsAreNoLonger(conf, parts, v.items, 0);
  }

  lemma {:induction false} EachIsNoLonger(conf: Config, e: Schema, vs: seq<Value>)
    requires Trivial(e) && EachHasType(e, vs) && conf.structField == 0
    ensures |EncodeEach(conf, e, vs)| <= Times(|vs|, SizeOf(e))
    decreases e, |vs| + 1
  {
    hide Trivial, HasType, SizeOf, Encode;
    if vs != [] {
      TrivialIsNoLonger(conf, e, vs[0]);
      EachIsNoLonger(conf, e, vs[1..]);
    }
  }

  lemma {:induction false} PartsAreNoLonger(conf: Config, parts: Schemas, vs: seq<Value>, offset: nat)
    requires AllTrivial(parts) && PartsHaveType(parts, vs) && conf.structField == 0
    ensures offset + |EncodeParts(conf, parts, vs)| <= EndOf(parts, offset)
    decreases parts, 0
  {
    hide Trivial, HasType, SizeOf, Encode, PadTo;
    if parts.Cons? {
      TrivialIsNoLonger(conf, parts.head, vs[0]);
      var next := offset + PadTo(AlignOf(parts.head), offset) + SizeOf(parts.head);
      PartsAreNoLonger(conf, parts.tail, vs[1..], next);
    }
  }

  // ---------------------------------------------------------------------------------------
  // Any object

  lemma NothingAgrees(conf: Config)
    ensures Agrees(conf, 0, 0, SizeInfo(0, 0))
  {
  }

  lemma SumAgrees(conf: Config, w: nat, s: nat, info: SizeInfo, w': nat, s': nat, info': SizeInfo)
    requires Agrees(conf, w, s, info) && Agrees(conf, w', s', info')
    ensures Agrees(conf, w + w', s + s', Plus(info, info'))
  {
  }

  lemma {:induction false} EachSizeAgrees(conf: Config, e: Schema, vs: seq<Value>)
    requires EachHasType(e, vs) && (AllBlocks(conf) || conf.structField == 0)
    ensures Agrees(conf, |EncodeEach(conf, e, vs)|, EachStrings(e, vs), EachSizeInfo(conf, e, vs))
    decreases e, |vs| + 1
  {
    hide HasType, Encode, Strings, SizeInfoOf, Agrees, AllBlocks, Plus;
    if vs == [] {
      NothingAgrees(conf);
    } else {
      SizeAgrees(conf, e, vs[0]);
      EachSizeAgrees(conf, e, vs[1..]);
      SumAgrees(conf, |Encode(conf, e, vs[0])|, Strings(e, vs[0]), SizeInfoOf(conf, e, vs[0]),
                |EncodeEach(conf, e, vs[1..])|, EachStrings(e, vs[1..]), EachSizeInfo(conf, e, vs[1..]));
    }
  }

  lemma {:induction false} PartsSizeAgrees(conf: Config, parts: Schemas, vs: seq<Value>)
    requires PartsHaveType(parts, vs) && (AllBlocks(conf) || conf.structField == 0)
    ensures Agrees(conf, |EncodeParts(conf, parts, vs)|, PartsStrings(parts, vs), PartsSizeInfo(conf, parts, vs))
    decreases parts, 0
  {
    hide HasType, Encode, Strings, SizeInfoOf, Agrees, AllBlocks, Plus;
    if parts.Nil? {
      NothingAgrees(conf);
    } else {
      SizeAgrees(conf, parts.head, vs[0]);
      PartsSizeAgrees(conf, parts.tail, vs[1..]);
      SumAgrees(conf, |Encode(conf, parts.head, vs[0])|, Strings(parts.head, vs[0]), SizeInfoOf(conf, parts.head, vs[0]),
                |EncodeParts(conf, parts.tail, vs[1..])|, PartsStrings(parts.tail, vs[1..]),
                PartsSizeInfo(conf, parts.tail, vs[1..]));
    }
  }

  lemma {:induction false} AlternativeSizeAgrees(conf: Config, alternatives: Schemas, index: nat, v: Value)
    requires AlternativeHasType(alternatives, index, v) && (AllBlocks(conf) || conf.structField == 0)
    ensures Agrees(conf, |EncodeAlternative(conf, alternatives, index, v)|,
                   AlternativeStrings(alternatives, index, v), AlternativeSizeInfo(conf, alternatives, index, v))
    decreases alternatives, 0
  {
    hide HasType, Encode, Strings, SizeInfoOf;
    if index == 0 {
      SizeAgrees(conf, alternatives.head, v);
    } else {
      AlternativeSizeAgrees(conf, alternatives.tail, index - 1, v);
    }
  }

  /** Items whose size was computed as that of a block of memory. */
  lemma {:induction false} BlockSizeAgrees(conf: Config, e: Schema, vs: seq<Value>)
    requires Trivial(e) && EachHasType(e, vs) && (AllBlocks(conf) || conf.structField == 0)
    ensures Agrees(conf, |EncodeItems(conf, e, vs, Blocks(conf, e))|, EachStrings(e, vs),
                   SizeInfo(Times(|vs|, SizeOf(e)), 0))
    decreases e, |vs| + 2
  {
    hide HasType, SizeOf, Encode, Strings, Trivial;
    EachHasNoStrings(e, vs);
    if Blocks(conf, e) { LayoutEachSize(conf, e, vs); } else { EachIsNoLonger(conf, e, vs); }
  }

  /** `get_serialize_runtime_info` is never less than the bytes written, and with the
      little-endian configuration on a little-endian host it is exactly those and one byte for
      every string. */
  lemma {:induction false} SizeAgrees(conf: Config, s: Schema, v: Value)
    requires HasType(s, v) && (AllBlocks(conf) || conf.structField == 0)
    ensures Agrees(conf, |Encode(conf, s, v)|, Strings(s, v), SizeInfoOf(conf, s, v))
    decreases s, 0
  {
    hide EncodeItems, EncodeEach, EncodeParts, EncodeAlternative, Wire, RuntimeInfo, Blocks, SizeOf, Trivial,
      EachHasType, PartsHaveType, AlternativeHasType;
    match s
    case Scalar(_) =>
    case Text =>
    case Array(_, e) => ArraySizeAgrees(conf, s, v);
    case Container(_, e) => ContainerSizeAgrees(conf, s, v);
    case Group(_, parts) => PartsSizeAgrees(conf, parts, v.items);
    case Variant(alternatives) => AlternativeSizeAgrees(conf, alternatives, v.index, v.item);
    case Pointer(target) => SizeAgrees(conf, target, v.pointee);
  }

  lemma {:induction false} ArraySizeAgrees(conf: Config, s: Schema, v: Value)
    requires s.Array? && HasType(s, v) && (AllBlocks(conf) || conf.structField == 0)
    ensures Agrees(conf, |Encode(conf, s, v)|, Strings(s, v), SizeInfoOf(conf, s, v))
    decreases s.element, |v.items| + 3
  {
    hide EncodeEach, EachSizeInfo, EachStrings, Wire, Trivial, EachHasType, LayoutEach;
    if Trivial(s.element) { BlockSizeAgrees(conf, s.element, v.items); } else { EachSizeAgrees(conf, s.element, v.items); }
  }

  lemma {:induction false} ContainerSizeAgrees(conf: Config, s: Schema, v: Value)
    requires s.Container? && HasType(s, v) && (AllBlocks(conf) || conf.structField == 0)
    ensures Agrees(conf, |Encode(conf, s, v)|, Strings(s, v), SizeInfoOf(conf, s, v))
    decreases s.element, |v.items| + 3
  {
    hide EncodeEach, EachSizeInfo, EachStrings, Wire, Trivial, EachHasType, LayoutEach;
    if s.kind == Vector && Trivial(s.element) {
      BlockSizeAgrees(conf, s.element, v.items);
    } else {
      EachSizeAgrees(conf, s.element, v.items);
    }
  }

  /** The buffer is resized to the computed size: behind the bytes written remain as many zero
      bytes as the value has strings. */
  lemma BufferIsFilled(conf: Config, s: Schema, v: Value)
    requires HasType(s, v) && AllBlocks(conf)
    ensures RuntimeInfo(conf, s, v) == |Encode(conf, s, v)| + Strings(s, v)
  {
    hide Encode, Strings, SizeInfoOf;
    SizeAgrees(conf, s, v);
  }

  // ---------------------------------------------------------------------------------------
  // Every configuration

  /** The same length fields where nothing is swapped. */
  function Unswapped(conf: Config): Config {
    conf.(little := true, hostLittle := true)
  }

  lemma {:induction false} EachSizeIgnoresOrder(conf: Config, e: Schema, vs: seq<Value>)
    ensures EachSizeInfo(conf, e, vs) == EachSizeInfo(Unswapped(conf), e, vs)
    decreases e, |vs| + 1
  {
    hide SizeInfoOf;
    if vs != [] {
      SizeIgnoresOrder(conf, e, vs[0]);
      EachSizeIgnoresOrder(conf, e, vs[1..]);
    }
  }

  lemma {:induction false} PartsSizeIgnoresOrder(conf: Config, parts: Schemas, vs: seq<Value>)
    ensures PartsSizeInfo(conf, parts, vs) == PartsSizeInfo(Unswapped(conf), parts, vs)
    decreases parts, 0
  {
    hide SizeInfoOf;
    if parts.Cons? && vs != [] {
      SizeIgnoresOrder(conf, parts.head, vs[0]);
      PartsSizeIgnoresOrder(conf, parts.tail, vs[1..]);
    }
  }

  lemma {:induction false} AlternativeSizeIgnoresOrder(conf: Config, alternatives: Schemas, index: nat, v: Value)
    ensures AlternativeSizeInfo(conf, alternatives, index, v)
         == AlternativeSizeInfo(Unswapped(conf), alternatives, index, v)
    decreases alternatives, 0
  {
    hide SizeInfoOf;
    if alternatives.Cons? {
      if index == 0 {
        SizeIgnoresOrder(conf, alternatives.head, v);
      } else {
        AlternativeSizeIgnoresOrder(conf, alternatives.tail, index - 1, v);
      }
    }
  }

  lemma {:induction false} SizeIgnoresOrder(conf: Config, s: Schema, v: Value)
    ensures SizeInfoOf(conf, s, v) == SizeInfoOf(Unswapped(conf), s, v)
    decreases s, 0
  {
    hide EachSizeInfo, PartsSizeInfo, AlternativeSizeInfo, Trivial, SizeOf, Times;
    match s
    case Array(_, element) => EachSizeIgnoresOrder(conf, element, ItemsOf(v));
    case Container(_, element) => EachSizeIgnoresOrder(conf, element, ItemsOf(v));
    case Group(_, parts) => PartsSizeIgnoresOrder(conf, parts, ItemsOf(v));
    case Variant(alternatives) => AlternativeSizeIgnoresOrder(conf, alternatives, IndexOf(v), ItemOf(v));
    case Pointer(target) => SizeIgnoresOrder(conf, target, ItemOf(v));
    case _ =>
  }

  /** Whatever the byte orders, the size computed is exactly that of the encoding where nothing is
      swapped, and one byte for every string. */
  lemma SizeIsThatOfUnswapped(conf: Config, s: Schema, v: Value)
    requires HasType(s, v)
    ensures RuntimeInfo(conf, s, v) == |Encode(Unswapped(conf), s, v)| + Strings(s, v)
  {
    hide Encode, Strings, SizeInfoOf;
    SizeIgnoresOrder(conf, s, v);
    BufferIsFilled(Unswapped(conf), s, v);
  }

  function OneMember(): Schema { Group(Struct, Cons(Scalar(2), Nil)) }

  lemma OneMemberWritten(conf: Config)
    ensures |Encode(conf, OneMember(), Many([Num(7)]))| == conf.structField + 2
  {
    hide Wire, RuntimeInfo;
    var vs, parts := [Num(7)], OneMember().parts;
    assert EncodeParts(conf, parts, vs) == Encode(conf, Scalar(2), Num(7)) + EncodeParts(conf, Nil, vs[1..]);
    assert |Encode(conf, Scalar(2), Num(7))| == 2;
  }

  lemma OneMemberLayout()
    ensures Trivial(OneMember()) && SizeOf(OneMember()) == 2
  {
    var parts := OneMember().parts;
    assert Trivial(Scalar(2)) && AllTrivial(Nil);
    assert EndOf(parts, 0) == EndOf(Nil, 0 + 0 + SizeOf(Scalar(2))) == 2;
    assert AlignOfParts(parts) == 2;
  }

  /** The condition is exact: any other configuration computes too small a size for an array of
      one struct, whose elements it writes one by one, length fields included. */
  lemma StructFieldsAreNotCounted(conf: Config)
    requires !AllBlocks(conf) && conf.structField > 0
    ensures var s, v := Array(1, OneMember()), Many([Many([Num(7)])]);
      |Encode(conf, s, v)| == Sum(SizeInfoOf(conf, s, v)) + conf.structField
  {
    hide Wire, RuntimeInfo, Trivial, SizeOf;
    var s, items := Array(1, OneMember()), [Many([Num(7)])];
    OneMemberLayout();
    OneMemberWritten(conf);
    ArraySize(1, OneMember());
    assert EncodeEach(conf, OneMember(), items)
        == Encode(conf, OneMember(), items[0]) + EncodeEach(conf, OneMember(), items[1..]);
  }

  lemma ArraySize(n: nat, e: Schema)
    ensures SizeOf(Array(n, e)) == Times(n, SizeOf(e))
    ensures Times(1, SizeOf(e)) == SizeOf(e)
    ensures Trivial(Array(n, e)) == Trivial(e)
  {
  }
}
