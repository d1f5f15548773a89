/**
 Reading back what was written.
*/
module SerializerRoundTrip {
  import opened Divisions
  import opened WireFormat
  import opened Schemas
  import opened SerializerFormat

  /** The value of a length field is not mistaken for an error and not truncated. */
  predicate FieldFits(w: nat, n: nat) {
    0 < n < Power(w)
  }

  /** A struct's length field is only read, never used: what matters is that its low bytes are
      not all zero. */
  predicate StructFieldFits(w: nat, n: nat) {
    w == 0 || n % Power(w) != 0
  }

  /** An alternative is chosen by its index, and without an index field it is the first. */
  predicate UnionFieldFits(w: nat, index: nat) {
    if w == 0 then index == 0 else FieldFits(w, index)
  }

  /** What suffices for the encoding of `v` to read back without an error: every length read is
      one that was written, and where return codes are dropped every part survives. */
  ghost predicate Clean(conf: Config, s: Schema, v: Value)
    decreases s, 0
  {
    match s
    case Scalar(_) => true
    case Text => FieldFits(conf.stringField, |CharsOf(v)| + 1)
    case Array(_, element) => Blocks(conf, element) || EachClean(conf, element, ItemsOf(v))
    case Container(kind, element) =>
      && FieldFits(conf.arrayField, |ItemsOf(v)|)
      && ((kind == Vector && Blocks(conf, element)) || EachClean(conf, element, ItemsOf(v)))
    case Group(group, parts) =>
      if group == Struct then
        StructFieldFits(conf.structField, RuntimeInfo(conf, s, v)) && PartsSurvive(conf, parts, ItemsOf(v))
      else PartsClean(conf, parts, ItemsOf(v))
    case Variant(alternatives) =>
      UnionFieldFits(conf.unionField, IndexOf(v)) && AlternativeSurvives(conf, alternatives, IndexOf(v), ItemOf(v))
    case Pointer(target) => Survives(conf, target, ItemOf(v))
  }

  predicate EmptyContainer(s: Schema, v: Value) {
    s.Container? && v.Many? && v.items == []
  }

  ghost predicate EachClean(conf: Config, e: Schema, vs: seq<Value>)
    decreases e, |vs| + 1
  {
    vs == [] || (Clean(conf, e, vs[0]) && EachClean(conf, e, vs[1..]))
  }

  ghost predicate PartsClean(conf: Config, parts: Schemas, vs: seq<Value>)
    decreases parts, 0
  {
    parts.Nil? || vs == [] || (Clean(conf, parts.head, vs[0]) && PartsClean(conf, parts.tail, vs[1..]))
  }

  /** Where return codes are dropped, values come back whose reading ends in an error: an empty
      container, whose error comes after its length field with the target still empty, and an
      array, sequence, pair or tuple whose last item survives in this sense. */
  ghost predicate Survives(conf: Config, s: Schema, v: Value)
    decreases s, 1
  {
    Clean(conf, s, v) ||
    match s
    case Array(_, element) => !Blocks(conf, element) && LastSurvives(conf, element, ItemsOf(v))
    case Container(kind, element) =>
      || ItemsOf(v) == []
      || (&& (kind.List? || (kind.Vector? && !Blocks(conf, element)))
          && FieldFits(conf.arrayField, |ItemsOf(v)|) && LastSurvives(conf, element, ItemsOf(v)))
    case Group(group, parts) => group != Struct && LastPartSurvives(conf, parts, ItemsOf(v))
    case _ => false
  }

  ghost predicate LastSurvives(conf: Config, e: Schema, vs: seq<Value>)
    decreases e, |vs| + 2
  {
    vs != [] &&
    if |vs| == 1 then Survives(conf, e, vs[0]) else Clean(conf, e, vs[0]) && LastSurvives(conf, e, vs[1..])
  }

  ghost predicate LastPartSurvives(conf: Config, parts: Schemas, vs: seq<Value>)
    decreases parts, 0
  {
    parts.Cons? && vs != [] &&
    if parts.tail.Nil? then Survives(conf, parts.head, vs[0])
    else Clean(conf, parts.head, vs[0]) && LastPartSurvives(conf, parts.tail, vs[1..])
  }

  ghost predicate PartsSurvive(conf: Config, parts: Schemas, vs: seq<Value>)
    decreases parts, 0
  {
    parts.Nil? || vs == [] ||
    (Survives(conf, parts.head, vs[0]) && PartsSurvive(conf, parts.tail, vs[1..]))
  }

  ghost predicate AlternativeSurvives(conf: Config, alternatives: Schemas, index: nat, v: Value)
    decreases alternatives, 0
  {
    alternatives.Cons? &&
    if index == 0 then Survives(conf, alternatives.head, v)
    else AlternativeSurvives(conf, alternatives.tail, index - 1, v)
  }

  // ---------------------------------------------------------------------------------------
  // Pieces

  lemma FieldReadsBack(conf: Config, w: nat, n: nat, rest: seq<byte>)
    ensures DecodeField(conf, w, Wire(conf, w, n) + rest)
         == Decoded(if w > 0 && n % Power(w) == 0 then LengthError else Ok, n % Power(w), rest)
  {
    WireReadsBack(conf, w, n);
    var input := Wire(conf, w, n) + rest;
    assert input[..w] == Wire(conf, w, n) && input[w..] == rest;
  }

  lemma Regroup(a: seq<byte>, b: seq<byte>, c: seq<byte>)
    ensures (a + b) + c == a + (b + c)
  {
  }

  lemma Split(a: seq<byte>, b: seq<byte>)
    ensures |a + b| >= |a| && (a + b)[..|a|] == a && (a + b)[|a|..] == b
  {
  }

  lemma ScalarReadsBack(conf: Config, w: nat, n: nat, rest: seq<byte>)
    requires n < Power(w)
    ensures Decode(conf, Scalar(w), Wire(conf, w, n) + rest) == Decoded(Ok, Num(n), rest)
  {
    hide Wire, OfWire, Power, Default;
    WireReadsBack(conf, w, n);
    SmallDivMod(Power(w), n);
    Split(Wire(conf, w, n), rest);
  }

  lemma TextReadsBack(conf: Config, chars: seq<byte>, rest: seq<byte>)
    requires FieldFits(conf.stringField, |chars| + 1)
    ensures Decode(conf, Text, Encode(conf, Text, Str(chars)) + rest) == Decoded(Ok, Str(chars), rest)
  {
    hide Wire, OfWire, Power, DecodeField, DecodeText, Repeat;
    var w := conf.stringField;
    FieldReadsBack(conf, w, |chars| + 1, chars + rest);
    Fits(w, |chars| + 1);
    assert Encode(conf, Text, Str(chars)) + rest == Wire(conf, w, |chars| + 1) + (chars + rest);
    CharsReadBack(conf, chars, rest);
  }

  lemma CharsReadBack(conf: Config, chars: seq<byte>, rest: seq<byte>)
    ensures DecodeText(conf, Decoded(Ok, |chars| + 1, chars + rest)) == Decoded(Ok, Str(chars), rest)
  {
    hide Repeat;
    Split(chars, rest);
  }

  lemma BlockReadsBack(conf: Config, e: Schema, vs: seq<Value>, rest: seq<byte>)
    requires Blocks(conf, e) && EachHasType(e, vs)
    ensures DecodeItems(conf, e, |vs|, EncodeItems(conf, e, vs, true) + rest, true) == Decoded(Ok, vs, rest)
  {
    hide Decode, Encode;
    var bs := LayoutEach(conf, e, vs);
    LayoutEachSize(conf, e, vs);
    EachReadsBack(conf, e, vs);
    assert (bs + rest)[..|bs|] == bs && (bs + rest)[|bs|..] == rest;
  }

  // ---------------------------------------------------------------------------------------
  // Sets and maps

  /** No key of `vs` is among `items`. */
  predicate Separate(kind: ContainerKind, items: seq<Value>, vs: seq<Value>) {
    vs == [] || (!HoldsKey(kind, items, vs[0]) && Separate(kind, items, vs[1..]))
  }

  lemma {:induction false} HoldsKeyAppend(kind: ContainerKind, items: seq<Value>, x: Value, v: Value)
    ensures HoldsKey(kind, items + [x], v) <==> HoldsKey(kind, items, v) || KeyOf(kind, x) == KeyOf(kind, v)
  {
    if items == [] {
      assert (items + [x])[1..] == [];
    } else {
      assert (items + [x])[1..] == items[1..] + [x];
      HoldsKeyAppend(kind, items[1..], x, v);
    }
  }

  lemma {:induction false} SeparateAppend(kind: ContainerKind, items: seq<Value>, x: Value, vs: seq<Value>)
    requires Separate(kind, items, vs) && !HoldsKey(kind, vs, x)
    ensures Separate(kind, items + [x], vs)
  {
    if vs != [] {
      HoldsKeyAppend(kind, items, x, vs[0]);
      SeparateAppend(kind, items, x, vs[1..]);
    }
  }

  lemma {:induction false} SeparateEmpty(kind: ContainerKind, vs: seq<Value>)
    ensures Separate(kind, [], vs)
  {
    if vs != [] { SeparateEmpty(kind, vs[1..]); }
  }

  // ---------------------------------------------------------------------------------------
  // The round trip

  lemma {:induction false} EachRoundTrip(conf: Config, e: Schema, vs: seq<Value>, rest: seq<byte>)
    requires WellFormed(e) && EachHasType(e, vs) && EachClean(conf, e, vs) && ValidConfig(conf)
    ensures DecodeEach(conf, e, |vs|, EncodeEach(conf, e, vs) + rest) == Decoded(Ok, vs, rest)
    decreases e, |vs| + 3
  {
    hide Decode, Encode, HasType, Clean, WellFormed, Default, Repeat;
    if vs == [] {
      assert EncodeEach(conf, e, vs) + rest == rest;
    } else {
      var tail := EncodeEach(conf, e, vs[1..]);
      Regroup(Encode(conf, e, vs[0]), tail, rest);
      RoundTrip(conf, e, vs[0], tail + rest);
      EachRoundTrip(conf, e, vs[1..], rest);
      assert vs == [vs[0]] + vs[1..];
    }
  }

  lemma {:induction false} IntoRoundTrip(conf: Config, kind: ContainerKind, e: Schema, vs: seq<Value>,
                                         rest: seq<byte>, items: seq<Value>)
    requires WellFormed(e) && EachHasType(e, vs) && EachClean(conf, e, vs) && ValidConfig(conf)
    requires Distinct(kind, vs) && Separate(kind, items, vs)
    ensures DecodeInto(conf, kind, e, |vs|, EncodeEach(conf, e, vs) + rest, items) == Decoded(Ok, items + vs, rest)
    decreases e, |vs| + 3
  {
    hide Decode, Encode, HasType, Clean, WellFormed, HoldsKey;
    if vs == [] {
      assert EncodeEach(conf, e, vs) + rest == rest && items + vs == items;
    } else {
      var tail := EncodeEach(conf, e, vs[1..]);
      RoundTrip(conf, e, vs[0], tail + rest);
      SeparateAppend(kind, items, vs[0], vs[1..]);
      Regroup(Encode(conf, e, vs[0]), tail, rest);
      IntoRoundTrip(conf, kind, e, vs[1..], rest, items + [vs[0]]);
      assert items + [vs[0]] + vs[1..] == items + vs;
    }
  }

  lemma {:induction false} PartsRoundTrip(conf: Config, parts: Schemas, vs: seq<Value>, rest: seq<byte>)
    requires AllWellFormed(parts) && PartsHaveType(parts, vs) && PartsClean(conf, parts, vs) && ValidConfig(conf)
    ensures DecodeParts(conf, parts, EncodeParts(conf, parts, vs) + rest) == Decoded(Ok, vs, rest)
    decreases parts, 0
  {
    hide Decode, Encode, HasType, Clean, WellFormed, Default, DefaultParts;
    if parts.Nil? {
      assert EncodeParts(conf, parts, vs) + rest == rest;
    } else {
      var tail := EncodeParts(conf, parts.tail, vs[1..]);
      Regroup(Encode(conf, parts.head, vs[0]), tail, rest);
      RoundTrip(conf, parts.head, vs[0], tail + rest);
      PartsRoundTrip(conf, parts.tail, vs[1..], rest);
      assert vs == [vs[0]] + vs[1..];
    }
  }

  lemma NoItems(conf: Config, e: Schema, block: bool)
    ensures EncodeItems(conf, e, [], block) == []
  {
  }

  lemma EmptyReadsBack(conf: Config, s: Schema, v: Value, rest: seq<byte>)
    requires ValidConfig(conf) && EmptyContainer(s, v)
    ensures Decode(conf, s, Encode(conf, s, v) + rest) == Decoded(LengthError, v, rest)
  {
    hide Wire, OfWire, Power, DecodeField, Blocks, DecodeItems, DecodeInto;
    FieldReadsBack(conf, conf.arrayField, 0, rest);
    SmallDivMod(Power(conf.arrayField), 0);
    var block := s.kind == Vector && Blocks(conf, s.element);
    NoItems(conf, s.element, block);
    assert Encode(conf, s, v) == Wire(conf, conf.arrayField, 0) + EncodeItems(conf, s.element, [], block);
    assert Encode(conf, s, v) == Wire(conf, conf.arrayField, 0);
  }

  lemma {:induction false} LastRoundTrip(conf: Config, e: Schema, vs: seq<Value>, rest: seq<byte>)
    requires WellFormed(e) && EachHasType(e, vs) && LastSurvives(conf, e, vs) && ValidConfig(conf)
    ensures var d := DecodeEach(conf, e, |vs|, EncodeEach(conf, e, vs) + rest); d.value == vs && d.rest == rest
    decreases e, |vs| + 3
  {
    hide Decode, Encode, HasType, Clean, Survives, WellFormed, Default;
    var tail := EncodeEach(conf, e, vs[1..]);
    Regroup(Encode(conf, e, vs[0]), tail, rest);
    assert vs == [vs[0]] + vs[1..];
    if |vs| == 1 {
      assert tail == [] && tail + rest == rest;
      SurvivesRoundTrip(conf, e, vs[0], rest);
      OneItem(conf, e, EncodeEach(conf, e, vs) + rest);
    } else {
      RoundTrip(conf, e, vs[0], tail + rest);
      LastRoundTrip(conf, e, vs[1..], rest);
    }
  }

  lemma OneItem(conf: Config, e: Schema, input: seq<byte>)
    ensures DecodeEach(conf, e, 1, input).value == [Decode(conf, e, input).value]
    ensures DecodeEach(conf, e, 1, input).rest == Decode(conf, e, input).rest
  {
    hide Decode;
  }

  lemma {:induction false} LastPartRoundTrip(conf: Config, parts: Schemas, vs: seq<Value>, rest: seq<byte>)
    requires AllWellFormed(parts) && PartsHaveType(parts, vs) && LastPartSurvives(conf, parts, vs) && ValidConfig(conf)
    ensures var d := DecodeParts(conf, parts, EncodeParts(conf, parts, vs) + rest); d.value == vs && d.rest == rest
    decreases parts, 0
  {
    hide Decode, Encode, HasType, Clean, Survives, WellFormed, Default;
    var tail := EncodeParts(conf, parts.tail, vs[1..]);
    Regroup(Encode(conf, parts.head, vs[0]), tail, rest);
    assert vs == [vs[0]] + vs[1..];
    if parts.tail.Nil? {
      assert tail == [] && tail + rest == rest;
      SurvivesRoundTrip(conf, parts.head, vs[0], rest);
    } else {
      RoundTrip(conf, parts.head, vs[0], tail + rest);
      LastPartRoundTrip(conf, parts.tail, vs[1..], rest);
    }
  }

  lemma {:induction false} LastContainerRoundTrip(conf: Config, kind: ContainerKind, e: Schema, vs: seq<Value>, rest: seq<byte>)
    requires WellFormed(e) && EachHasType(e, vs) && LastSurvives(conf, e, vs) && ValidConfig(conf)
    requires (kind.List? || (kind.Vector? && !Blocks(conf, e))) && FieldFits(conf.arrayField, |vs|)
    ensures var d := Decode(conf, Container(kind, e), Encode(conf, Container(kind, e), Many(vs)) + rest);
      d.value == Many(vs) && d.rest == rest
    decreases e, |vs| + 4
  {
    hide DecodeEach, EncodeEach, HasType, LastSurvives, WellFormed, Blocks, DecodeInto, DecodeField, Wire, Power;
    var w, body := conf.arrayField, EncodeEach(conf, e, vs);
    FieldReadsBack(conf, w, |vs|, body + rest);
    Fits(w, |vs|);
    assert Encode(conf, Container(kind, e), Many(vs)) + rest == Wire(conf, w, |vs|) + (body + rest);
    LastRoundTrip(conf, e, vs, rest);
  }

  /** A part whose return code is dropped comes back with its bytes consumed. */
  lemma {:induction false} SurvivesRoundTrip(conf: Config, s: Schema, v: Value, rest: seq<byte>)
    requires WellFormed(s) && HasType(s, v) && ValidConfig(conf) && Survives(conf, s, v)
    ensures Decode(conf, s, Encode(conf, s, v) + rest).value == v
    ensures Decode(conf, s, Encode(conf, s, v) + rest).rest == rest
    decreases s, 3
  {
    hide DecodeText, DecodeEach, DecodeInto, DecodeParts, DecodeMembers, DecodeAlternative, DecodeField,
      EncodeEach, EncodeParts, EncodeAlternative, Wire, OfWire, Power, RuntimeInfo, Blocks, Clean;
    if Clean(conf, s, v) {
      RoundTrip(conf, s, v, rest);
    } else {
      match s
      case Array(_, e) =>
        assert Encode(conf, s, v) == EncodeEach(conf, e, v.items);
        LastRoundTrip(conf, e, v.items, rest);
      case Container(kind, e) =>
        if v.items == [] { EmptyReadsBack(conf, s, v, rest); } else { LastContainerRoundTrip(conf, kind, e, v.items, rest); }
      case Group(_, parts) =>
        assert Encode(conf, s, v) + rest == EncodeParts(conf, parts, v.items) + rest;
        LastPartRoundTrip(conf, parts, v.items, rest);
    }
  }

  lemma {:induction false} MembersRoundTrip(conf: Config, parts: Schemas, vs: seq<Value>, rest: seq<byte>)
    requires AllWellFormed(parts) && PartsHaveType(parts, vs) && PartsSurvive(conf, parts, vs) && ValidConfig(conf)
    ensures DecodeMembers(conf, parts, EncodeParts(conf, parts, vs) + rest) == Decoded(Ok, vs, rest)
    decreases parts, 0
  {
    hide Decode, Encode, HasType, Survives, WellFormed;
    if parts.Nil? {
      assert EncodeParts(conf, parts, vs) + rest == rest;
    } else {
      var tail := EncodeParts(conf, parts.tail, vs[1..]);
      SurvivesRoundTrip(conf, parts.head, vs[0], tail + rest);
      MembersRoundTrip(conf, parts.tail, vs[1..], rest);
      assert EncodeParts(conf, parts, vs) + rest == Encode(conf, parts.head, vs[0]) + (tail + rest);
      assert vs == [vs[0]] + vs[1..];
    }
  }

  lemma {:induction false} AlternativeRoundTrip(conf: Config, alternatives: Schemas, index: nat, v: Value, rest: seq<byte>)
    requires AllWellFormed(alternatives) && AlternativeHasType(alternatives, index, v) && ValidConfig(conf)
    requires AlternativeSurvives(conf, alternatives, index, v)
    ensures index < Count(alternatives)
    ensures var d := DecodeAlternative(conf, alternatives, index, EncodeAlternative(conf, alternatives, index, v) + rest);
      d.value == v && d.rest == rest
    decreases alternatives, 0
  {
    hide Decode, Encode, HasType, Survives, WellFormed;
    if index == 0 {
      SurvivesRoundTrip(conf, alternatives.head, v, rest);
    } else {
      AlternativeRoundTrip(conf, alternatives.tail, index - 1, v, rest);
    }
  }

  lemma {:induction false} ItemsRoundTrip(conf: Config, e: Schema, vs: seq<Value>, rest: seq<byte>, block: bool)
    requires WellFormed(e) && EachHasType(e, vs) && ValidConfig(conf)
    requires if block then Blocks(conf, e) else EachClean(conf, e, vs)
    ensures DecodeItems(conf, e, |vs|, EncodeItems(conf, e, vs, block) + rest, block) == Decoded(Ok, vs, rest)
    decreases e, |vs| + 4
  {
    hide DecodeEach, EncodeEach, HasType, Clean, WellFormed, Blocks;
    if block { BlockReadsBack(conf, e, vs, rest); } else { EachRoundTrip(conf, e, vs, rest); }
  }

  lemma {:induction false} ContainerRoundTrip(conf: Config, kind: ContainerKind, e: Schema, vs: seq<Value>, rest: seq<byte>)
    requires WellFormed(e) && EachHasType(e, vs) && ValidConfig(conf)
    requires kind.Set? || kind.Map? ==> Distinct(kind, vs)
    requires FieldFits(conf.arrayField, |vs|)
    requires (kind == Vector && Blocks(conf, e)) || EachClean(conf, e, vs)
    ensures Decode(conf, Container(kind, e), Encode(conf, Container(kind, e), Many(vs)) + rest)
         == Decoded(Ok, Many(vs), rest)
    decreases e, |vs| + 5
  {
    hide DecodeEach, EncodeEach, HasType, Clean, WellFormed, Blocks, EncodeItems, DecodeItems, DecodeInto,
      DecodeField, Wire, Power;
    var w, block := conf.arrayField, kind == Vector && Blocks(conf, e);
    var body := EncodeItems(conf, e, vs, block);
    FieldReadsBack(conf, w, |vs|, body + rest);
    Fits(w, |vs|);
    assert Encode(conf, Container(kind, e), Many(vs)) + rest == Wire(conf, w, |vs|) + (body + rest);
    if kind.Set? || kind.Map? {
      SeparateEmpty(kind, vs);
      IntoRoundTrip(conf, kind, e, vs, rest, []);
      NotBlock(conf, e, vs);
      assert [] + vs == vs;
    } else {
      ItemsRoundTrip(conf, e, vs, rest, block);
    }
  }

  lemma NotBlock(conf: Config, e: Schema, vs: seq<Value>)
    ensures EncodeItems(conf, e, vs, false) == EncodeEach(conf, e, vs)
  {
  }

  lemma Fits(w: nat, n: nat)
    requires FieldFits(w, n)
    ensures n % Power(w) == n && n % Power(w) != 0
  {
    SmallDivMod(Power(w), n);
  }

  lemma {:induction false} StructRoundTrip(conf: Config, s: Schema, v: Value, rest: seq<byte>)
    requires WellFormed(s) && HasType(s, v) && ValidConfig(conf) && s.Group? && s.group == Struct && v.Many?
    requires StructFieldFits(conf.structField, RuntimeInfo(conf, s, v)) && PartsSurvive(conf, s.parts, v.items)
    ensures Decode(conf, s, Encode(conf, s, v) + rest) == Decoded(Ok, v, rest)
    decreases s, 1
  {
    hide DecodeMembers, EncodeParts, DecodeField, Wire, RuntimeInfo, PartsSurvive;
    var w, size, body := conf.structField, RuntimeInfo(conf, s, v), EncodeParts(conf, s.parts, v.items);
    FieldReadsBack(conf, w, size, body + rest);
    assert Encode(conf, s, v) + rest == Wire(conf, w, size) + (body + rest);
    MembersRoundTrip(conf, s.parts, v.items, rest);
  }

  lemma {:induction false} GroupRoundTrip(conf: Config, s: Schema, v: Value, rest: seq<byte>)
    requires WellFormed(s) && HasType(s, v) && ValidConfig(conf) && s.Group? && s.group != Struct && v.Many?
    requires PartsClean(conf, s.parts, v.items)
    ensures Decode(conf, s, Encode(conf, s, v) + rest) == Decoded(Ok, v, rest)
    decreases s, 1
  {
    hide DecodeParts, EncodeParts, PartsClean;
    assert Encode(conf, s, v) + rest == EncodeParts(conf, s.parts, v.items) + rest;
    PartsRoundTrip(conf, s.parts, v.items, rest);
  }

  lemma UnionFits(w: nat, index: nat)
    requires UnionFieldFits(w, index)
    ensures index % Power(w) == index && (w > 0 ==> index % Power(w) != 0)
  {
    SmallDivMod(Power(w), index);
  }

  lemma {:induction false} VariantRoundTrip(conf: Config, s: Schema, v: Value, rest: seq<byte>)
    requires WellFormed(s) && HasType(s, v) && ValidConfig(conf) && s.Variant? && v.Choice?
    requires UnionFieldFits(conf.unionField, v.index)
    requires AlternativeSurvives(conf, s.alternatives, v.index, v.item)
    ensures Decode(conf, s, Encode(conf, s, v) + rest) == Decoded(Ok, v, rest)
    decreases s, 1
  {
    hide DecodeAlternative, EncodeAlternative, DecodeField, Wire, AlternativeSurvives, Power, Default;
    UnionFits(conf.unionField, v.index);
    var w, body := conf.unionField, EncodeAlternative(conf, s.alternatives, v.index, v.item);
    FieldReadsBack(conf, w, v.index, body + rest);
    assert Encode(conf, s, v) + rest == Wire(conf, w, v.index) + (body + rest);
    AlternativeRoundTrip(conf, s.alternatives, v.index, v.item, rest);
  }

  /** Whatever the configuration and whatever bytes follow, reading what was written gives back
      the value and leaves exactly the following bytes. */
  lemma {:induction false} RoundTrip(conf: Config, s: Schema, v: Value, rest: seq<byte>)
    requires ValidConfig(conf) && WellFormed(s) && HasType(s, v) && Clean(conf, s, v)
    ensures Decode(conf, s, Encode(conf, s, v) + rest) == Decoded(Ok, v, rest)
    decreases s, 2
  {
    hide DecodeText, DecodeItems, DecodeInto, DecodeParts, DecodeMembers, DecodeAlternative, DecodeField,
      EncodeItems, EncodeEach, EncodeParts, EncodeAlternative, Wire, OfWire, Power, RuntimeInfo, Blocks;
    match s
    case Scalar(w) => ScalarReadsBack(conf, w, v.bits, rest);
    case Text => TextReadsBack(conf, v.chars, rest);
    case Array(_, e) => ItemsRoundTrip(conf, e, v.items, rest, Blocks(conf, e));
    case Container(kind, e) => ContainerRoundTrip(conf, kind, e, v.items, rest);
    case Group(group, parts) =>
      if group == Struct { StructRoundTrip(conf, s, v, rest); } else { GroupRoundTrip(conf, s, v, rest); }
    case Variant(_) => VariantRoundTrip(conf, s, v, rest);
    case Pointer(t) => SurvivesRoundTrip(conf, t, v.pointee, rest);
  }
}
