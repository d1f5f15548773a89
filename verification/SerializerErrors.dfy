/**
 When reading fails: empty containers and truncated buffers.

 The results are about plain types, those without struct, variant or smart pointer: these three
 drop the return codes of their parts, so a failure inside them is not reported.
*/
module SerializerErrors {
  import opened Divisions
  import opened WireFormat
  import opened Schemas
  import opened SerializerFormat
  import opened SerializerRoundTrip

  predicate Plain(s: Schema) {
    match s
    case Scalar(_) => true
    case Text => true
    case Array(_, element) => Plain(element)
    case Container(_, element) => Plain(element)
    case Group(group, parts) => group != Struct && AllPlain(parts)
    case _ => false
  }

  predicate AllPlain(parts: Schemas) {
    parts.Nil? || (Plain(parts.head) && AllPlain(parts.tail))
  }

  /** Every length fits its field. */
  ghost predicate Fitting(conf: Config, s: Schema, v: Value)
    decreases s, 0
  {
    match s
    case Text => |CharsOf(v)| + 1 < Power(conf.stringField)
    case Array(_, element) => EachFitting(conf, element, ItemsOf(v))
    case Container(_, element) => |ItemsOf(v)| < Power(conf.arrayField) && EachFitting(conf, element, ItemsOf(v))
    case Group(_, parts) => PartsFitting(conf, parts, ItemsOf(v))
    case _ => true
  }

  ghost predicate EachFitting(conf: Config, e: Schema, vs: seq<Value>)
    decreases e, |vs| + 1
  {
    vs == [] || (Fitting(conf, e, vs[0]) && EachFitting(conf, e, vs[1..]))
  }

  ghost predicate PartsFitting(conf: Config, parts: Schemas, vs: seq<Value>)
    decreases parts, 0
  {
    parts.Nil? || vs == [] || (Fitting(conf, parts.head, vs[0]) && PartsFitting(conf, parts.tail, vs[1..]))
  }

  /** No container in the value is empty. */
  ghost predicate Nonempty(s: Schema, v: Value)
    decreases s, 0
  {
    match s
    case Array(_, element) => EachNonempty(element, ItemsOf(v))
    case Container(_, element) => ItemsOf(v) != [] && EachNonempty(element, ItemsOf(v))
    case Group(_, parts) => PartsNonempty(parts, ItemsOf(v))
    case _ => true
  }

  ghost predicate EachNonempty(e: Schema, vs: seq<Value>)
    decreases e, |vs| + 1
  {
    vs == [] || (Nonempty(e, vs[0]) && EachNonempty(e, vs[1..]))
  }

  ghost predicate PartsNonempty(parts: Schemas, vs: seq<Value>)
    decreases parts, 0
  {
    parts.Nil? || vs == [] || (Nonempty(parts.head, vs[0]) && PartsNonempty(parts.tail, vs[1..]))
  }

  // ---------------------------------------------------------------------------------------
  // Values without empty containers

  lemma {:induction false} NonemptyIsClean(conf: Config, s: Schema, v: Value)
    requires Plain(s) && Fitting(conf, s, v) && Nonempty(s, v)
    ensures Clean(conf, s, v)
    decreases s, 0
  {
    hide Blocks, Power;
    match s
    case Array(_, element) => EachNonemptyIsClean(conf, element, ItemsOf(v));
    case Container(_, element) => EachNonemptyIsClean(conf, element, ItemsOf(v));
    case Group(_, parts) => PartsNonemptyIsClean(conf, parts, ItemsOf(v));
    case _ =>
  }

  lemma {:induction false} EachNonemptyIsClean(conf: Config, e: Schema, vs: seq<Value>)
    requires Plain(e) && EachFitting(conf, e, vs) && EachNonempty(e, vs)
    ensures EachClean(conf, e, vs)
    decreases e, |vs| + 1
  {
    hide Plain, Clean, Fitting, Nonempty;
    if vs != [] {
      NonemptyIsClean(conf, e, vs[0]);
      EachNonemptyIsClean(conf, e, vs[1..]);
    }
  }

  lemma {:induction false} PartsNonemptyIsClean(conf: Config, parts: Schemas, vs: seq<Value>)
    requires AllPlain(parts) && PartsFitting(conf, parts, vs) && PartsNonempty(parts, vs)
    ensures PartsClean(conf, parts, vs)
    decreases parts, 0
  {
    hide Plain, Clean, Fitting, Nonempty;
    if parts.Cons? && vs != [] {
      NonemptyIsClean(conf, parts.head, vs[0]);
      PartsNonemptyIsClean(conf, parts.tail, vs[1..]);
    }
  }

  lemma {:induction false} TrivialIsNonempty(s: Schema, v: Value)
    requires Trivial(s)
    ensures Nonempty(s, v)
    decreases s, 0
  {
    match s
    case Scalar(_) =>
    case Array(_, element) => EachTrivialIsNonempty(element, ItemsOf(v));
    case Group(_, parts) => PartsTrivialIsNonempty(parts, ItemsOf(v));
  }

  lemma {:induction false} EachTrivialIsNonempty(e: Schema, vs: seq<Value>)
    requires Trivial(e)
    ensures EachNonempty(e, vs)
    decreases e, |vs| + 1
  {
    if vs != [] {
      TrivialIsNonempty(e, vs[0]);
      EachTrivialIsNonempty(e, vs[1..]);
    }
  }

  lemma {:induction false} PartsTrivialIsNonempty(parts: Schemas, vs: seq<Value>)
    requires AllTrivial(parts)
    ensures PartsNonempty(parts, vs)
    decreases parts, 0
  {
    if parts.Cons? && vs != [] {
      TrivialIsNonempty(parts.head, vs[0]);
      PartsTrivialIsNonempty(parts.tail, vs[1..]);
    }
  }

  // ---------------------------------------------------------------------------------------
  // The first empty container stops the reader

  lemma {:induction false} EachStops(conf: Config, e: Schema, vs: seq<Value>, rest: seq<byte>)
    requires ValidConfig(conf) && WellFormed(e) && Plain(e)
    requires EachHasType(e, vs) && EachFitting(conf, e, vs) && !EachNonempty(e, vs)
    ensures DecodeEach(conf, e, |vs|, EncodeEach(conf, e, vs) + rest).code == LengthError
    decreases e, |vs| + 3
  {
    hide Decode, Encode, HasType, Clean, WellFormed, Plain, Fitting, Nonempty;
    var tail := EncodeEach(conf, e, vs[1..]);
    assert EncodeEach(conf, e, vs) + rest == Encode(conf, e, vs[0]) + (tail + rest);
    if Nonempty(e, vs[0]) {
      NonemptyIsClean(conf, e, vs[0]);
      RoundTrip(conf, e, vs[0], tail + rest);
      EachStops(conf, e, vs[1..], rest);
    } else {
      EmptyStops(conf, e, vs[0], tail + rest);
    }
  }

  lemma {:induction false} IntoStops(conf: Config, kind: ContainerKind, e: Schema, vs: seq<Value>,
                                     rest: seq<byte>, items: seq<Value>)
    requires ValidConfig(conf) && WellFormed(e) && Plain(e)
    requires EachHasType(e, vs) && EachFitting(conf, e, vs) && !EachNonempty(e, vs)
    ensures DecodeInto(conf, kind, e, |vs|, EncodeEach(conf, e, vs) + rest, items).code == LengthError
    decreases e, |vs| + 3
  {
    hide Decode, Encode, HasType, Clean, WellFormed, Plain, Fitting, Nonempty, Emplace;
    var tail := EncodeEach(conf, e, vs[1..]);
    assert EncodeEach(conf, e, vs) + rest == Encode(conf, e, vs[0]) + (tail + rest);
    if Nonempty(e, vs[0]) {
      NonemptyIsClean(conf, e, vs[0]);
      RoundTrip(conf, e, vs[0], tail + rest);
      IntoStops(conf, kind, e, vs[1..], rest, Emplace(kind, items, vs[0]));
    } else {
      EmptyStops(conf, e, vs[0], tail + rest);
    }
  }

  lemma {:induction false} PartsStop(conf: Config, parts: Schemas, vs: seq<Value>, rest: seq<byte>)
    requires ValidConfig(conf) && AllWellFormed(parts) && AllPlain(parts)
    requires PartsHaveType(parts, vs) && PartsFitting(conf, parts, vs) && !PartsNonempty(parts, vs)
    ensures DecodeParts(conf, parts, EncodeParts(conf, parts, vs) + rest).code == LengthError
    decreases parts, 0
  {
    hide Decode, Encode, HasType, Clean, WellFormed, Plain, Fitting, Nonempty;
    var tail := EncodeParts(conf, parts.tail, vs[1..]);
    assert EncodeParts(conf, parts, vs) + rest == Encode(conf, parts.head, vs[0]) + (tail + rest);
    if Nonempty(parts.head, vs[0]) {
      NonemptyIsClean(conf, parts.head, vs[0]);
      RoundTrip(conf, parts.head, vs[0], tail + rest);
      PartsStop(conf, parts.tail, vs[1..], rest);
    } else {
      EmptyStops(conf, parts.head, vs[0], tail + rest);
    }
  }

  lemma {:induction false} ItemsStop(conf: Config, e: Schema, vs: seq<Value>, rest: seq<byte>, block: bool)
    requires ValidConfig(conf) && WellFormed(e) && Plain(e) && (block ==> Trivial(e))
    requires EachHasType(e, vs) && EachFitting(conf, e, vs) && !EachNonempty(e, vs)
    ensures DecodeItems(conf, e, |vs|, EncodeItems(conf, e, vs, block) + rest, block).code == LengthError
    decreases e, |vs| + 4
  {
    hide HasType, WellFormed, Plain, Fitting, Nonempty, Trivial, EachNonempty, DecodeEach, EncodeEach;
    if block { EachTrivialIsNonempty(e, vs); } else { EachStops(conf, e, vs, rest); }
  }

  lemma {:induction false} ContainerStops(conf: Config, kind: ContainerKind, e: Schema, vs: seq<Value>, rest: seq<byte>)
    requires ValidConfig(conf) && WellFormed(e) && Plain(e) && |vs| < Power(conf.arrayField)
    requires EachHasType(e, vs) && EachFitting(conf, e, vs) && (vs == [] || !EachNonempty(e, vs))
    ensures Decode(conf, Container(kind, e), Encode(conf, Container(kind, e), Many(vs)) + rest).code == LengthError
    decreases e, |vs| + 5
  {
    hide HasType, WellFormed, Plain, Fitting, Nonempty, Trivial, EachNonempty, DecodeEach, EncodeEach,
      EncodeItems, DecodeItems, DecodeInto, DecodeField, Wire, Power;
    if vs == [] {
      EmptyReadsBack(conf, Container(kind, e), Many(vs), rest);
    } else {
      var w, block := conf.arrayField, kind == Vector && Blocks(conf, e);
      var body := EncodeItems(conf, e, vs, block);
      FieldReadsBack(conf, w, |vs|, body + rest);
      Fits(w, |vs|);
      assert Encode(conf, Container(kind, e), Many(vs)) + rest == Wire(conf, w, |vs|) + (body + rest);
      if kind.Set? || kind.Map? {
        IntoStops(conf, kind, e, vs, rest, []);
        NotBlock(conf, e, vs);
      } else {
        ItemsStop(conf, e, vs, rest, block);
      }
    }
  }

  lemma {:induction false} EmptyStops(conf: Config, s: Schema, v: Value, rest: seq<byte>)
    requires ValidConfig(conf) && WellFormed(s) && Plain(s)
    requires HasType(s, v) && Fitting(conf, s, v) && !Nonempty(s, v)
    ensures Decode(conf, s, Encode(conf, s, v) + rest).code == LengthError
    decreases s, 2
  {
    hide DecodeText, DecodeItems, DecodeInto, DecodeParts, DecodeMembers, DecodeAlternative, DecodeField,
      EncodeItems, EncodeEach, EncodeParts, EncodeAlternative, Wire, OfWire, Power, RuntimeInfo, Blocks,
      EachNonempty, PartsNonempty;
    match s
    case Array(_, e) => ItemsStop(conf, e, v.items, rest, Blocks(conf, e)) by { BlocksAreTrivial(conf, e); }
    case Container(kind, e) => ContainerStops(conf, kind, e, v.items, rest);
    case Group(_, parts) =>
      assert Encode(conf, s, v) + rest == EncodeParts(conf, parts, v.items) + rest;
      PartsStop(conf, parts, v.items, rest);
  }

  lemma BlocksAreTrivial(conf: Config, e: Schema)
    ensures Blocks(conf, e) ==> Trivial(e)
  {
  }

  /** A plain value whose lengths fit their fields reads back without error exactly if no
      container in it is empty; otherwise the error is `length_error`. */
  lemma PlainOutcome(conf: Config, s: Schema, v: Value, rest: seq<byte>)
    requires ValidConfig(conf) && WellFormed(s) && Plain(s) && HasType(s, v) && Fitting(conf, s, v)
    ensures Decode(conf, s, Encode(conf, s, v) + rest).code == if Nonempty(s, v) then Ok else LengthError
  {
    hide Decode, Encode, HasType, Clean, WellFormed, Plain, Fitting, Nonempty;
    if Nonempty(s, v) {
      NonemptyIsClean(conf, s, v);
      RoundTrip(conf, s, v, rest);
    } else {
      EmptyStops(conf, s, v, rest);
    }
  }

  // ---------------------------------------------------------------------------------------
  // Truncated buffers

  lemma Prefix(a: seq<byte>, b: seq<byte>, k: nat)
    requires k < |a| + |b|
    ensures k < |a| ==> (a + b)[..k] == a[..k]
    ensures k >= |a| ==> (a + b)[..k] == a + b[..k - |a|]
  {
  }

  lemma {:induction false} EachShort(conf: Config, e: Schema, vs: seq<Value>, k: nat)
    requires ValidConfig(conf) && WellFormed(e) && Plain(e) && EachHasType(e, vs) && EachClean(conf, e, vs)
    requires k < |EncodeEach(conf, e, vs)|
    ensures DecodeEach(conf, e, |vs|, EncodeEach(conf, e, vs)[..k]).code == NoBufferSpace
    decreases e, |vs| + 3
  {
    hide Decode, Encode, HasType, Clean, WellFormed, Plain;
    var head, tail := Encode(conf, e, vs[0]), EncodeEach(conf, e, vs[1..]);
    Prefix(head, tail, k);
    if k < |head| {
      Truncated(conf, e, vs[0], k);
    } else {
      RoundTrip(conf, e, vs[0], tail[..k - |head|]);
      EachShort(conf, e, vs[1..], k - |head|);
    }
  }

  lemma {:induction false} IntoShort(conf: Config, kind: ContainerKind, e: Schema, vs: seq<Value>,
                                     items: seq<Value>, k: nat)
    requires ValidConfig(conf) && WellFormed(e) && Plain(e) && EachHasType(e, vs) && EachClean(conf, e, vs)
    requires k < |EncodeEach(conf, e, vs)|
    ensures DecodeInto(conf, kind, e, |vs|, EncodeEach(conf, e, vs)[..k], items).code == NoBufferSpace
    decreases e, |vs| + 3
  {
    hide Decode, Encode, HasType, Clean, WellFormed, Plain, Emplace;
    var head, tail := Encode(conf, e, vs[0]), EncodeEach(conf, e, vs[1..]);
    Prefix(head, tail, k);
    if k < |head| {
      Truncated(conf, e, vs[0], k);
    } else {
      RoundTrip(conf, e, vs[0], tail[..k - |head|]);
      IntoShort(conf, kind, e, vs[1..], Emplace(kind, items, vs[0]), k - |head|);
    }
  }

  lemma {:induction false} PartsShort(conf: Config, parts: Schemas, vs: seq<Value>, k: nat)
    requires ValidConfig(conf) && AllWellFormed(parts) && AllPlain(parts)
    requires PartsHaveType(parts, vs) && PartsClean(conf, parts, vs)
    requires k < |EncodeParts(conf, parts, vs)|
    ensures DecodeParts(conf, parts, EncodeParts(conf, parts, vs)[..k]).code == NoBufferSpace
    decreases parts, 0
  {
    hide Decode, Encode, HasType, Clean, WellFormed, Plain;
    var head, tail := Encode(conf, parts.head, vs[0]), EncodeParts(conf, parts.tail, vs[1..]);
    Prefix(head, tail, k);
    if k < |head| {
      Truncated(conf, parts.head, vs[0], k);
    } else {
      RoundTrip(conf, parts.head, vs[0], tail[..k - |head|]);
      PartsShort(conf, parts.tail, vs[1..], k - |head|);
    }
  }

  lemma {:induction false} ItemsShort(conf: Config, e: Schema, vs: seq<Value>, block: bool, k: nat)
    requires ValidConfig(conf) && WellFormed(e) && Plain(e) && EachHasType(e, vs)
    requires if block then Trivial(e) else EachClean(conf, e, vs)
    requires k < |EncodeItems(conf, e, vs, block)|
    ensures DecodeItems(conf, e, |vs|, EncodeItems(conf, e, vs, block)[..k], block).code == NoBufferSpace
    decreases e, |vs| + 4
  {
    hide HasType, WellFormed, Plain, Clean, Trivial, DecodeEach, EncodeEach;
    if block { LayoutEachSize(conf, e, vs); } else { EachShort(conf, e, vs, k); }
  }

  lemma {:induction false} ContainerShort(conf: Config, kind: ContainerKind, e: Schema, vs: seq<Value>, k: nat)
    requires ValidConfig(conf) && WellFormed(e) && Plain(e) && EachHasType(e, vs) && FieldFits(conf.arrayField, |vs|)
    requires (kind == Vector && Blocks(conf, e)) || EachClean(conf, e, vs)
    requires k < |Encode(conf, Container(kind, e), Many(vs))|
    ensures Decode(conf, Container(kind, e), Encode(conf, Container(kind, e), Many(vs))[..k]).code == NoBufferSpace
    decreases e, |vs| + 5
  {
    hide HasType, WellFormed, Plain, Clean, Trivial, DecodeEach, EncodeEach, EncodeItems, DecodeItems, DecodeInto,
      Wire, Power, OfWire;
    var w, block := conf.arrayField, kind == Vector && Blocks(conf, e);
    var field, body := Wire(conf, w, |vs|), EncodeItems(conf, e, vs, block);
    Prefix(field, body, k);
    if k >= w {
      FieldReadsBack(conf, w, |vs|, body[..k - w]);
      Fits(w, |vs|);
      if kind.Set? || kind.Map? {
        NotBlock(conf, e, vs);
        IntoShort(conf, kind, e, vs, [], k - w);
      } else {
        ItemsShort(conf, e, vs, block, k - w);
      }
    }
  }

  lemma TextShort(conf: Config, chars: seq<byte>, k: nat)
    requires FieldFits(conf.stringField, |chars| + 1) && k < |Encode(conf, Text, Str(chars))|
    ensures Decode(conf, Text, Encode(conf, Text, Str(chars))[..k]).code == NoBufferSpace
  {
    hide Wire, OfWire, Power, Repeat;
    var w := conf.stringField;
    Prefix(Wire(conf, w, |chars| + 1), chars, k);
    if k >= w {
      FieldReadsBack(conf, w, |chars| + 1, chars[..k - w]);
      Fits(w, |chars| + 1);
    }
  }

  /** Every proper prefix of the encoding of a plain value is refused for want of bytes. */
  lemma {:induction false} Truncated(conf: Config, s: Schema, v: Value, k: nat)
    requires ValidConfig(conf) && WellFormed(s) && Plain(s) && HasType(s, v) && Clean(conf, s, v)
    requires k < |Encode(conf, s, v)|
    ensures Decode(conf, s, Encode(conf, s, v)[..k]).code == NoBufferSpace
    decreases s, 2
  {
    hide DecodeText, DecodeItems, DecodeInto, DecodeParts, DecodeMembers, DecodeAlternative, DecodeField,
      EncodeItems, EncodeEach, EncodeParts, EncodeAlternative, Wire, OfWire, Power, RuntimeInfo, Blocks;
    match s
    case Scalar(_) =>
    case Text => TextShort(conf, v.chars, k);
    case Array(_, e) => ItemsShort(conf, e, v.items, Blocks(conf, e), k) by { BlocksAreTrivial(conf, e); }
    case Container(kind, e) => ContainerShort(conf, kind, e, v.items, k);
    case Group(_, parts) =>
      assert Encode(conf, s, v) == EncodeParts(conf, parts, v.items);
      PartsShort(conf, parts, v.items, k);
  }

  // ---------------------------------------------------------------------------------------
  // Dropped return codes

  /** The types that report nothing but their own length field. */
  predicate Dropping(s: Schema) {
    s.Variant? || s.Pointer? || (s.Group? && s.group == Struct)
  }

  /** The width of that length field. */
  function OwnField(conf: Config, s: Schema): nat {
    match s
    case Group(group, _) => if group == Struct then conf.structField else 0
    case Variant(_) => conf.unionField
    case _ => 0
  }

  /** What is written into it. */
  function OwnLength(conf: Config, s: Schema, v: Value): nat {
    if s.Variant? then IndexOf(v) else RuntimeInfo(conf, s, v)
  }

  /** What is written behind it. */
  function Body(conf: Config, s: Schema, v: Value): seq<byte> {
    match s
    case Group(_, parts) => EncodeParts(conf, parts, ItemsOf(v))
    case Variant(alternatives) => EncodeAlternative(conf, alternatives, IndexOf(v), ItemOf(v))
    case Pointer(target) => Encode(conf, target, ItemOf(v))
    case _ => []
  }

  lemma FieldAndBody(conf: Config, s: Schema, v: Value)
    requires Dropping(s)
    ensures Encode(conf, s, v) == Wire(conf, OwnField(conf, s), OwnLength(conf, s, v)) + Body(conf, s, v)
  {
    hide Wire, RuntimeInfo, EncodeParts, EncodeAlternative;
    if s.Pointer? { assert Wire(conf, 0, OwnLength(conf, s, v)) == []; }
  }

  /** Their return code is that of the length field, and a variant also checks the index. */
  lemma DroppedCodes(conf: Config, s: Schema, input: seq<byte>)
    requires Dropping(s)
    ensures var field := DecodeField(conf, OwnField(conf, s), input);
      Decode(conf, s, input).code ==
        if field.code == Ok && s.Variant? && field.value >= Count(s.alternatives) then InvalidBuffer else field.code
  {
    hide DecodeMembers, DecodeAlternative, OfWire;
  }

  lemma {:induction false} AlternativeExists(alternatives: Schemas, index: nat, v: Value)
    requires AlternativeHasType(alternatives, index, v)
    ensures index < Count(alternatives)
  {
    if index > 0 { AlternativeExists(alternatives.tail, index - 1, v); }
  }

  /** The length field of the encoding of `v`, followed by any bytes. */
  lemma OwnFieldReads(conf: Config, s: Schema, v: Value, rest: seq<byte>)
    requires ValidConfig(conf) && Dropping(s) && HasType(s, v)
    ensures var w, n := OwnField(conf, s), OwnLength(conf, s, v);
      Decode(conf, s, Wire(conf, w, n) + rest).code == if w > 0 && n % Power(w) == 0 then LengthError else Ok
  {
    hide Decode, DecodeField, Wire, Power, RuntimeInfo;
    var w, n := OwnField(conf, s), OwnLength(conf, s, v);
    FieldReadsBack(conf, w, n, rest);
    DroppedCodes(conf, s, Wire(conf, w, n) + rest);
    if s.Variant? {
      AlternativeExists(s.alternatives, v.index, v.item);
      Remainder(Power(w), n);
      if w == 0 { NoPower(n); }
    }
  }

  lemma Remainder(m: nat, n: nat)
    requires m > 0
    ensures 0 <= n % m <= n
  {
    if n < m { SmallDivMod(m, n); }
  }

  lemma NoPower(n: nat)
    ensures n % Power(0) == 0
  {
    assert Power(0) == 1;
  }

  /** The field of the encoding passes for a length. */
  predicate OwnFieldFits(conf: Config, s: Schema, v: Value) {
    OwnField(conf, s) == 0 || OwnLength(conf, s, v) % Power(OwnField(conf, s)) != 0
  }

  /** Reading back a struct, a variant or a smart pointer reports ok exactly if its own length
      field passes for a length, whatever becomes of its parts; otherwise length_error. */
  lemma DroppingOutcome(conf: Config, s: Schema, v: Value, rest: seq<byte>)
    requires ValidConfig(conf) && Dropping(s) && HasType(s, v)
    ensures Decode(conf, s, Encode(conf, s, v) + rest).code == if OwnFieldFits(conf, s, v) then Ok else LengthError
  {
    hide Decode, Encode, Wire, Power, HasType, OwnLength, Body;
    FieldAndBody(conf, s, v);
    Regroup(Wire(conf, OwnField(conf, s), OwnLength(conf, s, v)), Body(conf, s, v), rest);
    OwnFieldReads(conf, s, v, Body(conf, s, v) + rest);
  }

  /** A variant whose index is not truncated reads back as ok if and only if it does not hold its
      first alternative, or has no index field; the first alternative is written and refused. */
  lemma VariantOutcome(conf: Config, alternatives: Schemas, index: nat, x: Value, rest: seq<byte>)
    requires ValidConfig(conf) && HasType(Variant(alternatives), Choice(index, x))
    requires conf.unionField == 0 || index < Power(conf.unionField)
    ensures Decode(conf, Variant(alternatives), Encode(conf, Variant(alternatives), Choice(index, x)) + rest).code
         == if conf.unionField == 0 || index > 0 then Ok else LengthError
  {
    hide Decode, Encode, Power;
    DroppingOutcome(conf, Variant(alternatives), Choice(index, x), rest);
    if conf.unionField > 0 { SmallDivMod(Power(conf.unionField), index); }
  }

  /** A truncated struct, variant or smart pointer is accepted exactly if its length field was
      not cut, however little of its parts is left. */
  lemma TruncatedDropping(conf: Config, s: Schema, v: Value, k: nat)
    requires ValidConfig(conf) && Dropping(s) && HasType(s, v)
    requires OwnFieldFits(conf, s, v) && k < |Encode(conf, s, v)|
    ensures Decode(conf, s, Encode(conf, s, v)[..k]).code == if k >= OwnField(conf, s) then Ok else NoBufferSpace
  {
    hide Decode, Encode, Wire, Power, HasType, OwnLength, Body, OfWire;
    var w := OwnField(conf, s);
    var field, body := Wire(conf, w, OwnLength(conf, s, v)), Body(conf, s, v);
    FieldAndBody(conf, s, v);
    Prefix(field, body, k);
    if k >= w {
      OwnFieldReads(conf, s, v, body[..k - w]);
    } else {
      DroppedCodes(conf, s, field[..k]);
    }
  }

  function OneWord(): Schema { Group(Struct, Cons(Scalar(4), Nil)) }

  lemma OneWordWritten(conf: Config)
    requires conf.structField == 0
    ensures |Encode(conf, OneWord(), Many([Num(7)]))| == 4
  {
    hide Wire, RuntimeInfo;
    var vs, parts := [Num(7)], OneWord().parts;
    assert EncodeParts(conf, parts, vs) == Encode(conf, Scalar(4), Num(7)) + EncodeParts(conf, Nil, vs[1..]);
    assert |Encode(conf, Scalar(4), Num(7))| == 4;
  }

  lemma OneWordClean(conf: Config)
    requires conf.structField == 0
    ensures HasType(OneWord(), Many([Num(7)])) && Clean(conf, OneWord(), Many([Num(7)]))
  {
    hide RuntimeInfo;
    var vs, parts := [Num(7)], OneWord().parts;
    assert Power(4) == 256 * Power(3);
    assert HasType(Scalar(4), Num(7)) && PartsHaveType(Nil, vs[1..]);
    assert Clean(conf, Scalar(4), Num(7)) && PartsSurvive(conf, Nil, vs[1..]);
  }

  lemma OneWordFromNothing(conf: Config)
    requires conf.structField == 0
    ensures Decode(conf, OneWord(), []) == Decoded(Ok, Many([Num(0)]), [])
  {
    hide OfWire, Wire;
    assert Decode(conf, Scalar(4), []) == Decoded(NoBufferSpace, Num(0), []);
    assert DecodeMembers(conf, Nil, []) == Decoded(Ok, [], []);
    assert DecodeMembers(conf, OneWord().parts, []) == Decoded(Ok, [Num(0)] + [], []);
    assert [Num(0)] + [] == [Num(0)];
  }

  /** So truncation can go unnoticed: the empty buffer reads as a struct of one word,
      with the word left at its default. */
  lemma TruncatedStructIsAccepted(conf: Config)
    requires conf.structField == 0
    ensures var s, v := OneWord(), Many([Num(7)]);
      && HasType(s, v) && Clean(conf, s, v) && |Encode(conf, s, v)| == 4
      && Decode(conf, s, Encode(conf, s, v)[..0]) == Decoded(Ok, Many([Num(0)]), [])
  {
    hide HasType, Clean, Encode, Decode;
    OneWordWritten(conf);
    OneWordClean(conf);
    OneWordFromNothing(conf);
    assert Encode(conf, OneWord(), Many([Num(7)]))[..0] == [];
  }
}
