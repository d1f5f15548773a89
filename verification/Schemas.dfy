/**
 The types the serializer knows, the values of those types, and how a trivially serializable
 value lies in memory.
*/
module Schemas {
  import opened WireFormat

  /** `Vector` is the contiguous container, `List` any other sequence. */
  datatype ContainerKind = Vector | List | Set | Map

  datatype GroupKind = Pair | Tuple | Struct

  datatype Schema =
    | Scalar(width: nat)
    | Text
    | Array(size: nat, element: Schema)
    | Container(kind: ContainerKind, element: Schema)
    | Group(group: GroupKind, parts: Schemas)
    | Variant(alternatives: Schemas)
    | Pointer(target: Schema)

  datatype Schemas = Nil | Cons(head: Schema, tail: Schemas)

  /** A scalar is its bit pattern, a map entry a group of key and mapped value. The items of a
      set or map are listed in iteration order. */
  datatype Value =
    | Num(bits: nat)
    | Str(chars: seq<byte>)
    | Many(items: seq<Value>)
    | Choice(index: nat, item: Value)
    | Ref(pointee: Value)
    | Null

  function Count(parts: Schemas): nat {
    if parts.Nil? then 0 else 1 + Count(parts.tail)
  }

  ghost predicate WellFormed(s: Schema) {
    match s
    case Scalar(width) => WordWidth(width)
    case Text => true
    case Array(size, element) => size >= 1 && WellFormed(element)
    case Container(kind, element) =>
      WellFormed(element) && (kind == Map ==> element.Group? && element.group == Pair)
    case Group(group, parts) => AllWellFormed(parts) && (group == Pair ==> Count(parts) == 2)
    case Variant(alternatives) => AllWellFormed(alternatives) && Count(alternatives) >= 1
    case Pointer(target) => WellFormed(target)
  }

  ghost predicate AllWellFormed(parts: Schemas) {
    parts.Nil? || (WellFormed(parts.head) && AllWellFormed(parts.tail))
  }

  // ---------------------------------------------------------------------------------------
  // Values of a type

  /** What a set compares its elements by, and a map its entries. */
  function KeyOf(kind: ContainerKind, v: Value): Value {
    if kind == Map && v.Many? && v.items != [] then v.items[0] else v
  }

  predicate HoldsKey(kind: ContainerKind, items: seq<Value>, v: Value) {
    items != [] && (KeyOf(kind, items[0]) == KeyOf(kind, v) || HoldsKey(kind, items[1..], v))
  }

  /** No two elements of a set, and no two keys of a map, are equal. */
  predicate Distinct(kind: ContainerKind, items: seq<Value>) {
    items == [] || (!HoldsKey(kind, items[1..], items[0]) && Distinct(kind, items[1..]))
  }

  ghost predicate HasType(s: Schema, v: Value)
    decreases s, 0
  {
    match s
    case Scalar(width) => v.Num? && v.bits < Power(width)
    case Text => v.Str?
    case Array(size, element) => v.Many? && |v.items| == size && EachHasType(element, v.items)
    case Container(kind, element) =>
      && v.Many? && EachHasType(element, v.items)
      && (kind.Set? || kind.Map? ==> Distinct(kind, v.items))
    case Group(_, parts) => v.Many? && PartsHaveType(parts, v.items)
    case Variant(alternatives) => v.Choice? && AlternativeHasType(alternatives, v.index, v.item)
    case Pointer(target) => v.Ref? && HasType(target, v.pointee)
  }

  ghost predicate EachHasType(e: Schema, vs: seq<Value>)
    decreases e, |vs| + 1
  {
    vs == [] || (HasType(e, vs[0]) && EachHasType(e, vs[1..]))
  }

  ghost predicate PartsHaveType(parts: Schemas, vs: seq<Value>) {
    if parts.Nil? then vs == []
    else vs != [] && HasType(parts.head, vs[0]) && PartsHaveType(parts.tail, vs[1..])
  }

  ghost predicate AlternativeHasType(alternatives: Schemas, index: nat, v: Value) {
    alternatives.Cons? &&
    if index == 0 then HasType(alternatives.head, v) else AlternativeHasType(alternatives.tail, index - 1, v)
  }

  /** The value of a freshly constructed object. */
  function Default(s: Schema): Value {
    match s
    case Scalar(_) => Num(0)
    case Text => Str([])
    case Array(size, element) => Many(Repeat(size, Default(element)))
    case Container(_, _) => Many([])
    case Group(_, parts) => Many(DefaultParts(parts))
    case Variant(alternatives) => if alternatives.Nil? then Null else Choice(0, Default(alternatives.head))
    case Pointer(_) => Null
  }

  function DefaultParts(parts: Schemas): seq<Value> {
    if parts.Nil? then [] else [Default(parts.head)] + DefaultParts(parts.tail)
  }

  function Repeat<T>(n: nat, v: T): (vs: seq<T>)
    ensures |vs| == n
  {
    if n == 0 then [] else [v] + Repeat(n - 1, v)
  }

  // ---------------------------------------------------------------------------------------
  // Trivially serializable types and their layout

  predicate Trivial(s: Schema) {
    match s
    case Scalar(_) => true
    case Array(_, element) => Trivial(element)
    case Group(group, parts) => group != Tuple && AllTrivial(parts)
    case _ => false
  }

  predicate AllTrivial(parts: Schemas) {
    parts.Nil? || (Trivial(parts.head) && AllTrivial(parts.tail))
  }

  /** The padding in front of an object of the given alignment. */
  function PadTo(alignment: nat, offset: nat): (pad: nat)
  {
    if alignment == 0 || offset % alignment == 0 then 0 else alignment - offset % alignment
  }

  function AlignOf(s: Schema): nat {
    match s
    case Scalar(width) => width
    case Array(_, element) => AlignOf(element)
    case Group(_, parts) => AlignOfParts(parts)
    case _ => 1
  }

  function AlignOfParts(parts: Schemas): nat {
    if parts.Nil? then 1
    else if AlignOf(parts.head) >= AlignOfParts(parts.tail) then AlignOf(parts.head)
    else AlignOfParts(parts.tail)
  }

  function SizeOf(s: Schema): nat {
    match s
    case Scalar(width) => width
    case Array(size, element) => Times(size, SizeOf(element))
    case Group(_, parts) => EndOf(parts, 0) + TailPad(parts)
    case _ => 0
  }

  function Times(n: nat, size: nat): nat {
    if n == 0 then 0 else size + Times(n - 1, size)
  }

  /** The offset behind the last of the parts laid out from `offset` on. */
  function EndOf(parts: Schemas, offset: nat): (end: nat)
    ensures end >= offset
  {
    if parts.Nil? then offset
    else EndOf(parts.tail, offset + PadTo(AlignOf(parts.head), offset) + SizeOf(parts.head))
  }

  /** The padding at the end of a group; an object without members occupies a byte. */
  function TailPad(parts: Schemas): nat {
    if EndOf(parts, 0) == 0 then 1 else PadTo(AlignOfParts(parts), EndOf(parts, 0))
  }

  /** The bytes an object occupies in memory. */
  function Layout(conf: Config, s: Schema, v: Value): seq<byte>
    decreases s, 0
  {
    match s
    case Scalar(width) => Image(conf, width, if v.Num? then v.bits else 0)
    case Array(_, element) => LayoutEach(conf, element, if v.Many? then v.items else [])
    case Group(_, parts) =>
      LayoutParts(conf, parts, if v.Many? then v.items else [], 0) + Repeat<byte>(TailPad(parts), conf.padding)
    case _ => []
  }

  function LayoutEach(conf: Config, e: Schema, vs: seq<Value>): seq<byte>
    decreases e, |vs| + 1
  {
    if vs == [] then [] else Layout(conf, e, vs[0]) + LayoutEach(conf, e, vs[1..])
  }

  function LayoutParts(conf: Config, parts: Schemas, vs: seq<Value>, offset: nat): seq<byte>
    decreases parts, 0
  {
    if parts.Nil? || vs == [] then []
    else
      var pad := PadTo(AlignOf(parts.head), offset);
      Repeat<byte>(pad, conf.padding) + Layout(conf, parts.head, vs[0])
        + LayoutParts(conf, parts.tail, vs[1..], offset + pad + SizeOf(parts.head))
  }

  /** The value that bytes in memory stand for. */
  function OfLayout(conf: Config, s: Schema, bs: seq<byte>): Value
    decreases s, 0
  {
    match s
    case Scalar(_) => Num(OfImage(conf, bs))
    case Array(size, element) => Many(OfLayoutEach(conf, element, size, bs))
    case Group(_, parts) => Many(OfLayoutParts(conf, parts, bs, 0))
    case _ => Null
  }

  function OfLayoutEach(conf: Config, e: Schema, n: nat, bs: seq<byte>): (vs: seq<Value>)
    ensures |vs| == n
    decreases e, n + 1
  {
    if n == 0 then []
    else
      var size := if SizeOf(e) <= |bs| then SizeOf(e) else |bs|;
      [OfLayout(conf, e, bs[..size])] + OfLayoutEach(conf, e, n - 1, bs[size..])
  }

  /** `bs` starts at `offset` of the enclosing object. */
  function OfLayoutParts(conf: Config, parts: Schemas, bs: seq<byte>, offset: nat): seq<Value>
    decreases parts, 0
  {
    if parts.Nil? then []
    else
      var pad := PadTo(AlignOf(parts.head), offset);
      var from := if pad <= |bs| then pad else |bs|;
      var to := if from + SizeOf(parts.head) <= |bs| then from + SizeOf(parts.head) else |bs|;
      [OfLayout(conf, parts.head, bs[from..to])]
        + OfLayoutParts(conf, parts.tail, bs[to..], offset + pad + SizeOf(parts.head))
  }

  // ---------------------------------------------------------------------------------------
  // Memory images read back

  lemma {:induction false} LayoutSize(conf: Config, s: Schema, v: Value)
    requires Trivial(s) && HasType(s, v)
    ensures |Layout(conf, s, v)| == SizeOf(s)
    decreases s, 0
  {
    match s
    case Scalar(_) =>
    case Array(size, element) => LayoutEachSize(conf, element, v.items);
    case Group(_, parts) => LayoutPartsSize(conf, parts, v.items, 0);
  }

  lemma {:induction false} LayoutEachSize(conf: Config, e: Schema, vs: seq<Value>)
    requires Trivial(e) && EachHasType(e, vs)
    ensures |LayoutEach(conf, e, vs)| == Times(|vs|, SizeOf(e))
    decreases e, |vs| + 1
  {
    if vs != [] {
      LayoutSize(conf, e, vs[0]);
      LayoutEachSize(conf, e, vs[1..]);
    }
  }

  lemma {:induction false} LayoutPartsSize(conf: Config, parts: Schemas, vs: seq<Value>, offset: nat)
    requires AllTrivial(parts) && PartsHaveType(parts, vs)
    ensures offset + |LayoutParts(conf, parts, vs, offset)| == EndOf(parts, offset)
    decreases parts, 0
  {
    if parts.Cons? {
      LayoutSize(conf, parts.head, vs[0]);
      LayoutPartsSize(conf, parts.tail, vs[1..], offset + PadTo(AlignOf(parts.head), offset) + SizeOf(parts.head));
    }
  }

  /** Copying the memory of a trivially serializable object copies its value. */
  lemma {:induction false} LayoutReadsBack(conf: Config, s: Schema, v: Value)
    requires Trivial(s) && HasType(s, v)
    ensures OfLayout(conf, s, Layout(conf, s, v)) == v
    decreases s, 0
  {
    match s
    case Scalar(width) => ImageReadsBack(conf, width, v.bits);
    case Array(size, element) => EachReadsBack(conf, element, v.items);
    case Group(_, parts) =>
      PartsReadBack(conf, parts, v.items, 0, Repeat<byte>(TailPad(parts), conf.padding));
  }

  lemma {:induction false} EachReadsBack(conf: Config, e: Schema, vs: seq<Value>)
    requires Trivial(e) && EachHasType(e, vs)
    ensures OfLayoutEach(conf, e, |vs|, LayoutEach(conf, e, vs)) == vs
    decreases e, |vs| + 1
  {
    if vs != [] {
      LayoutSize(conf, e, vs[0]);
      LayoutReadsBack(conf, e, vs[0]);
      EachReadsBack(conf, e, vs[1..]);
      var bs := LayoutEach(conf, e, vs);
      assert bs[..SizeOf(e)] == Layout(conf, e, vs[0]);
      assert bs[SizeOf(e)..] == LayoutEach(conf, e, vs[1..]);
      assert vs == [vs[0]] + vs[1..];
    }
  }

  lemma {:induction false} PartsReadBack(conf: Config, parts: Schemas, vs: seq<Value>, offset: nat, rest: seq<byte>)
    requires AllTrivial(parts) && PartsHaveType(parts, vs)
    ensures OfLayoutParts(conf, parts, LayoutParts(conf, parts, vs, offset) + rest, offset) == vs
    decreases parts, 0
  {
    if parts.Cons? {
      var pad := PadTo(AlignOf(parts.head), offset);
      var next := offset + pad + SizeOf(parts.head);
      LayoutSize(conf, parts.head, vs[0]);
      LayoutReadsBack(conf, parts.head, vs[0]);
      PartsReadBack(conf, parts.tail, vs[1..], next, rest);
      var tail := LayoutParts(conf, parts.tail, vs[1..], next);
      var bs := LayoutParts(conf, parts, vs, offset) + rest;
      assert bs == Repeat<byte>(pad, conf.padding) + Layout(conf, parts.head, vs[0]) + (tail + rest);
      assert bs[pad..pad + SizeOf(parts.head)] == Layout(conf, parts.head, vs[0]);
      assert bs[pad + SizeOf(parts.head)..] == tail + rest;
      assert vs == [vs[0]] + vs[1..];
    }
  }
}
