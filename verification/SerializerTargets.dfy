/**
 What the target of a read holds when the buffer has been cut off, and which bytes stay unread:
 everything in front of the cut has its value, the piece that is cut has been prepared but not
 filled, and what comes behind it is as constructed. A struct goes on reading behind the piece that
 was cut, and takes the unread bytes for its next members.
*/
module SerializerTargets {
  import opened WireFormat
  import opened Schemas
  import opened SerializerFormat
  import opened SerializerRoundTrip
  import opened SerializerErrors

  datatype Cut<T> = Cut(target: T, unread: seq<byte>)

  /** Reading the first `k` bytes of the encoding of `v`, which has more. */
  function CutAt(conf: Config, s: Schema, v: Value, k: nat): Cut<Value>
    requires k < |Encode(conf, s, v)|
    decreases s, 0
  {
    match s
    case Text =>
      if k < conf.stringField then Cut(Str([]), Encode(conf, s, v)[..k])
      else Cut(Str(Repeat<byte>(|CharsOf(v)|, 0)), Encode(conf, s, v)[conf.stringField..k])
    case Array(size, e) =>
      var c := CutItems(conf, e, ItemsOf(v), Blocks(conf, e), k);
      Cut(Many(c.target), c.unread)
    case Container(kind, e) =>
      if k < conf.arrayField then Cut(Many([]), Encode(conf, s, v)[..k])
      else if kind.Set? || kind.Map? then
        NotBlock(conf, e, ItemsOf(v));
        var c := CutInto(conf, e, ItemsOf(v), k - conf.arrayField);
        Cut(Many(c.target), c.unread)
      else
        var c := CutItems(conf, e, ItemsOf(v), kind == Vector && Blocks(conf, e), k - conf.arrayField);
        Cut(Many(c.target), c.unread)
    case Group(group, parts) =>
      if group == Struct then Cut(Default(s), Encode(conf, s, v)[..k])
      else
        var c := CutParts(conf, parts, ItemsOf(v), k);
        Cut(Many(c.target), c.unread)
    case _ => Cut(Default(s), Encode(conf, s, v)[..k])
  }

  /** Elements of a container that has been resized. A block is read as a whole or not at all. */
  function CutItems(conf: Config, e: Schema, vs: seq<Value>, block: bool, k: nat): Cut<seq<Value>>
    requires k < |EncodeItems(conf, e, vs, block)|
    decreases e, |vs| + 2
  {
    if block then Cut(Repeat(|vs|, Default(e)), LayoutEach(conf, e, vs)[..k])
    else CutEach(conf, e, vs, k)
  }

  function CutEach(conf: Config, e: Schema, vs: seq<Value>, k: nat): Cut<seq<Value>>
    requires k < |EncodeEach(conf, e, vs)|
    decreases e, |vs| + 1
  {
    var size := |Encode(conf, e, vs[0])|;
    if k < size then
      var c := CutAt(conf, e, vs[0], k);
      Cut([c.target] + Repeat(|vs| - 1, Default(e)), c.unread)
    else
      var c := CutEach(conf, e, vs[1..], k - size);
      Cut([vs[0]] + c.target, c.unread)
  }

  /** Elements put into a set or map: only those read completely. */
  function CutInto(conf: Config, e: Schema, vs: seq<Value>, k: nat): Cut<seq<Value>>
    requires k < |EncodeEach(conf, e, vs)|
    decreases e, |vs| + 1
  {
    var size := |Encode(conf, e, vs[0])|;
    if k < size then Cut([], CutAt(conf, e, vs[0], k).unread)
    else
      var c := CutInto(conf, e, vs[1..], k - size);
      Cut([vs[0]] + c.target, c.unread)
  }

  function CutParts(conf: Config, parts: Schemas, vs: seq<Value>, k: nat): Cut<seq<Value>>
    requires k < |EncodeParts(conf, parts, vs)|
    decreases parts, 0
  {
    var size := |Encode(conf, parts.head, vs[0])|;
    if k < size then
      var c := CutAt(conf, parts.head, vs[0], k);
      Cut([c.target] + DefaultParts(parts.tail), c.unread)
    else
      var c := CutParts(conf, parts.tail, vs[1..], k - size);
      Cut([vs[0]] + c.target, c.unread)
  }

  // ---------------------------------------------------------------------------------------

  lemma TextTarget(conf: Config, chars: seq<byte>, k: nat)
    requires FieldFits(conf.stringField, |chars| + 1) && k < |Encode(conf, Text, Str(chars))|
    ensures var c, d := CutAt(conf, Text, Str(chars), k), Decode(conf, Text, Encode(conf, Text, Str(chars))[..k]);
      d == Decoded(NoBufferSpace, c.target, c.unread)
  {
    hide Wire, OfWire, Power, Repeat;
    var w := conf.stringField;
    Prefix(Wire(conf, w, |chars| + 1), chars, k);
    if k >= w {
      FieldReadsBack(conf, w, |chars| + 1, chars[..k - w]);
      Fits(w, |chars| + 1);
      assert Encode(conf, Text, Str(chars))[w..k] == chars[..k - w];
    }
  }

  lemma {:induction false} EachTarget(conf: Config, e: Schema, vs: seq<Value>, k: nat)
    requires ValidConfig(conf) && WellFormed(e) && Plain(e) && EachHasType(e, vs) && EachClean(conf, e, vs)
    requires k < |EncodeEach(conf, e, vs)|
    ensures var c, d := CutEach(conf, e, vs, k), DecodeEach(conf, e, |vs|, EncodeEach(conf, e, vs)[..k]);
      d == Decoded(NoBufferSpace, c.target, c.unread)
    decreases e, |vs| + 3
  {
    hide Decode, Encode, HasType, Clean, WellFormed, Plain, CutAt, Default, Repeat;
    var head, tail := Encode(conf, e, vs[0]), EncodeEach(conf, e, vs[1..]);
    Prefix(head, tail, k);
    if k < |head| {
      TruncatedTarget(conf, e, vs[0], k);
    } else {
      RoundTrip(conf, e, vs[0], tail[..k - |head|]);
      EachTarget(conf, e, vs[1..], k - |head|);
    }
  }

  lemma {:induction false} IntoTarget(conf: Config, kind: ContainerKind, e: Schema, vs: seq<Value>,
                                      items: seq<Value>, k: nat)
    requires ValidConfig(conf) && WellFormed(e) && Plain(e) && EachHasType(e, vs) && EachClean(conf, e, vs)
    requires Distinct(kind, vs) && Separate(kind, items, vs)
    requires k < |EncodeEach(conf, e, vs)|
    ensures var c, d := CutInto(conf, e, vs, k), DecodeInto(conf, kind, e, |vs|, EncodeEach(conf, e, vs)[..k], items);
      d == Decoded(NoBufferSpace, items + c.target, c.unread)
    decreases e, |vs| + 3
  {
    hide Decode, Encode, HasType, Clean, WellFormed, Plain, CutAt, HoldsKey;
    var head, tail := Encode(conf, e, vs[0]), EncodeEach(conf, e, vs[1..]);
    Prefix(head, tail, k);
    if k < |head| {
      TruncatedTarget(conf, e, vs[0], k);
      assert items + [] == items;
    } else {
      RoundTrip(conf, e, vs[0], tail[..k - |head|]);
      SeparateAppend(kind, items, vs[0], vs[1..]);
      IntoTarget(conf, kind, e, vs[1..], items + [vs[0]], k - |head|);
      var c := CutInto(conf, e, vs[1..], k - |head|);
      assert items + [vs[0]] + c.target == items + ([vs[0]] + c.target);
    }
  }

  lemma {:induction false} PartsTarget(conf: Config, parts: Schemas, vs: seq<Value>, k: nat)
    requires ValidConfig(conf) && AllWellFormed(parts) && AllPlain(parts)
    requires PartsHaveType(parts, vs) && PartsClean(conf, parts, vs)
    requires k < |EncodeParts(conf, parts, vs)|
    ensures var c, d := CutParts(conf, parts, vs, k), DecodeParts(conf, parts, EncodeParts(conf, parts, vs)[..k]);
      d == Decoded(NoBufferSpace, c.target, c.unread)
    decreases parts, 0
  {
    hide Decode, Encode, HasType, Clean, WellFormed, Plain, CutAt, DefaultParts;
    var head, tail := Encode(conf, parts.head, vs[0]), EncodeParts(conf, parts.tail, vs[1..]);
    Prefix(head, tail, k);
    if k < |head| {
      TruncatedTarget(conf, parts.head, vs[0], k);
    } else {
      RoundTrip(conf, parts.head, vs[0], tail[..k - |head|]);
      PartsTarget(conf, parts.tail, vs[1..], k - |head|);
    }
  }

  lemma {:induction false} ItemsTarget(conf: Config, e: Schema, vs: seq<Value>, block: bool, k: nat)
    requires ValidConfig(conf) && WellFormed(e) && Plain(e) && EachHasType(e, vs)
    requires if block then Trivial(e) else EachClean(conf, e, vs)
    requires k < |EncodeItems(conf, e, vs, block)|
    ensures var c := CutItems(conf, e, vs, block, k);
      DecodeItems(conf, e, |vs|, EncodeItems(conf, e, vs, block)[..k], block) == Decoded(NoBufferSpace, c.target, c.unread)
    decreases e, |vs| + 4
  {
    hide HasType, WellFormed, Plain, Clean, Trivial, DecodeEach, EncodeEach, CutEach, Default, Repeat;
    if block { LayoutEachSize(conf, e, vs); } else { EachTarget(conf, e, vs, k); }
  }

  lemma {:induction false} ContainerTarget(conf: Config, kind: ContainerKind, e: Schema, vs: seq<Value>, k: nat)
    requires ValidConfig(conf) && WellFormed(e) && Plain(e) && EachHasType(e, vs) && FieldFits(conf.arrayField, |vs|)
    requires (kind == Vector && Blocks(conf, e)) || EachClean(conf, e, vs)
    requires kind.Set? || kind.Map? ==> Distinct(kind, vs)
    requires k < |Encode(conf, Container(kind, e), Many(vs))|
    ensures var s, v := Container(kind, e), Many(vs);
      var c := CutAt(conf, s, v, k);
      Decode(conf, s, Encode(conf, s, v)[..k]) == Decoded(NoBufferSpace, c.target, c.unread)
    decreases e, |vs| + 5
  {
    hide HasType, WellFormed, Plain, Clean, Trivial, DecodeEach, EncodeEach, EncodeItems, DecodeItems, DecodeInto,
      Wire, Power, OfWire, CutItems, CutInto;
    var w, block := conf.arrayField, kind == Vector && Blocks(conf, e);
    var field, body := Wire(conf, w, |vs|), EncodeItems(conf, e, vs, block);
    Prefix(field, body, k);
    if k >= w {
      FieldReadsBack(conf, w, |vs|, body[..k - w]);
      Fits(w, |vs|);
      if kind.Set? || kind.Map? {
        NotBlock(conf, e, vs);
        SeparateEmpty(kind, vs);
        IntoTarget(conf, kind, e, vs, [], k - w);
        Nothing(CutInto(conf, e, vs, k - w).target);
      } else {
        ItemsTarget(conf, e, vs, block, k - w);
      }
    }
  }

  lemma Nothing(vs: seq<Value>)
    ensures [] + vs == vs
  {
  }

  /** Whatever the cut, reading a truncated encoding of a plain value stops with no_buffer_space, and
      leaves exactly this target and these bytes. */
  lemma {:induction false} TruncatedTarget(conf: Config, s: Schema, v: Value, k: nat)
    requires ValidConfig(conf) && WellFormed(s) && Plain(s) && HasType(s, v) && Clean(conf, s, v)
    requires k < |Encode(conf, s, v)|
    ensures Decode(conf, s, Encode(conf, s, v)[..k])
         == Decoded(NoBufferSpace, CutAt(conf, s, v, k).target, CutAt(conf, s, v, k).unread)
    decreases s, 2
  {
    hide DecodeText, DecodeItems, DecodeInto, DecodeParts, DecodeMembers, DecodeAlternative, DecodeField,
      EncodeItems, EncodeEach, EncodeParts, EncodeAlternative, Wire, OfWire, Power, RuntimeInfo, Blocks,
      CutItems, CutInto, CutParts, DefaultParts, Repeat;
    match s
    case Scalar(_) =>
    case Text => TextTarget(conf, v.chars, k);
    case Array(_, e) => ItemsTarget(conf, e, v.items, Blocks(conf, e), k) by { BlocksAreTrivial(conf, e); }
    case Container(kind, e) => ContainerTarget(conf, kind, e, v.items, k);
    case Group(_, parts) =>
      assert Encode(conf, s, v) == EncodeParts(conf, parts, v.items);
      PartsTarget(conf, parts, v.items, k);
  }

  // ---------------------------------------------------------------------------------------
  // Structs

  /** Members in front of the cut have their values, the member that is cut what was prepared for it,
      and the members behind it whatever the unread bytes are taken for. */
  function CutMembers(conf: Config, parts: Schemas, vs: seq<Value>, k: nat): seq<Value>
    requires k < |EncodeParts(conf, parts, vs)|
  {
    var size := |Encode(conf, parts.head, vs[0])|;
    if k < size then
      var c := CutAt(conf, parts.head, vs[0], k);
      [c.target] + DecodeMembers(conf, parts.tail, c.unread).value
    else [vs[0]] + CutMembers(conf, parts.tail, vs[1..], k - size)
  }

  lemma {:induction false} MembersTarget(conf: Config, parts: Schemas, vs: seq<Value>, k: nat)
    requires ValidConfig(conf) && AllWellFormed(parts) && AllPlain(parts)
    requires PartsHaveType(parts, vs) && PartsClean(conf, parts, vs)
    requires k < |EncodeParts(conf, parts, vs)|
    ensures DecodeMembers(conf, parts, EncodeParts(conf, parts, vs)[..k]).value == CutMembers(conf, parts, vs, k)
    decreases parts, 0
  {
    hide Decode, Encode, HasType, Clean, WellFormed, Plain, CutAt;
    var head, tail := Encode(conf, parts.head, vs[0]), EncodeParts(conf, parts.tail, vs[1..]);
    Prefix(head, tail, k);
    if k < |head| {
      TruncatedTarget(conf, parts.head, vs[0], k);
    } else {
      RoundTrip(conf, parts.head, vs[0], tail[..k - |head|]);
      MembersTarget(conf, parts.tail, vs[1..], k - |head|);
    }
  }

  /** What each member of a truncated struct of plain members holds: nothing is read if the length
      field is cut, and otherwise the struct is accepted with these members. */
  lemma TruncatedStructTarget(conf: Config, parts: Schemas, vs: seq<Value>, k: nat)
    requires ValidConfig(conf) && AllWellFormed(parts) && AllPlain(parts)
    requires PartsHaveType(parts, vs) && PartsClean(conf, parts, vs)
    requires OwnFieldFits(conf, Group(Struct, parts), Many(vs))
    requires k < |Encode(conf, Group(Struct, parts), Many(vs))|
    ensures k >= conf.structField ==> k - conf.structField < |EncodeParts(conf, parts, vs)|
    ensures var d := Decode(conf, Group(Struct, parts), Encode(conf, Group(Struct, parts), Many(vs))[..k]);
      if k < conf.structField then d.code == NoBufferSpace && d.value == Many(DefaultParts(parts))
      else d.code == Ok && d.value == Many(CutMembers(conf, parts, vs, k - conf.structField))
  {
    hide DecodeMembers, EncodeParts, Wire, RuntimeInfo, CutMembers, Power, OfWire;
    var w, n, body := conf.structField, RuntimeInfo(conf, Group(Struct, parts), Many(vs)), EncodeParts(conf, parts, vs);
    Prefix(Wire(conf, w, n), body, k);
    if k >= w {
      FieldReadsBack(conf, w, n, body[..k - w]);
      MembersTarget(conf, parts, vs, k - w);
    }
  }
}
