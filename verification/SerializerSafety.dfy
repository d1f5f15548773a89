/**
 Reading arbitrary bytes, well formed or not: the target is always an object of its type, and the
 cursor never leaves the buffer nor moves back.
*/
module SerializerSafety {
  import opened WireFormat
  import opened Schemas
  import opened SerializerErrors
  import opened SerializerFormat
  import opened SerializerRoundTrip

  /** An object of the type; unlike in a value that is written, a smart pointer may be null. */
  ghost predicate HasShape(s: Schema, v: Value)
    decreases s, 0
  {
    match s
    case Scalar(width) => v.Num? && v.bits < Power(width)
    case Text => v.Str?
    case Array(size, element) => v.Many? && |v.items| == size && EachHasShape(element, v.items)
    case Container(kind, element) =>
      && v.Many? && EachHasShape(element, v.items)
      && (kind.Set? || kind.Map? ==> Distinct(kind, v.items))
    case Group(_, parts) => v.Many? && PartsHaveShape(parts, v.items)
    case Variant(alternatives) => v.Choice? && AlternativeHasShape(alternatives, v.index, v.item)
    case Pointer(target) => v == Null || (v.Ref? && HasShape(target, v.pointee))
  }

  ghost predicate EachHasShape(e: Schema, vs: seq<Value>)
    decreases e, |vs| + 1
  {
    vs == [] || (HasShape(e, vs[0]) && EachHasShape(e, vs[1..]))
  }

  ghost predicate PartsHaveShape(parts: Schemas, vs: seq<Value>) {
    if parts.Nil? then vs == []
    else vs != [] && HasShape(parts.head, vs[0]) && PartsHaveShape(parts.tail, vs[1..])
  }

  ghost predicate AlternativeHasShape(alternatives: Schemas, index: nat, v: Value) {
    alternatives.Cons? &&
    if index == 0 then HasShape(alternatives.head, v) else AlternativeHasShape(alternatives.tail, index - 1, v)
  }

  /** The bytes left are the end of those there were. */
  predicate Suffix(rest: seq<byte>, input: seq<byte>) {
    |rest| <= |input| && rest == input[|input| - |rest|..]
  }

  lemma SuffixOfSuffix(c: seq<byte>, b: seq<byte>, a: seq<byte>)
    requires Suffix(c, b) && Suffix(b, a)
    ensures Suffix(c, a)
  {
  }

  // ---------------------------------------------------------------------------------------
  // Words

  lemma {:induction false} NumberIsSmall(bs: seq<byte>)
    ensures Number(bs) < Power(|bs|)
  {
    if bs != [] { NumberIsSmall(bs[1..]); }
  }

  lemma {:induction false} PowerGrows(a: nat, b: nat)
    requires a <= b
    ensures Power(a) <= Power(b)
    decreases b
  {
    if a < b { PowerGrows(a, b - 1); }
  }

  lemma ImageIsSmall(conf: Config, bs: seq<byte>, w: nat)
    requires |bs| <= w
    ensures OfImage(conf, bs) < Power(w) && OfWire(conf, bs) < Power(w)
  {
    NumberIsSmall(bs);
    NumberIsSmall(Reversed(bs));
    NumberIsSmall(Reversed(Reversed(bs)));
    PowerGrows(|bs|, w);
  }

  // ---------------------------------------------------------------------------------------
  // Constructed objects

  lemma {:induction false} DefaultHasShape(s: Schema)
    requires WellFormed(s)
    ensures HasShape(s, Default(s))
    decreases s, 1
  {
    match s
    case Scalar(width) =>
    case Array(size, element) => DefaultHasShape(element); RepeatHasShape(element, size, Default(element));
    case Group(_, parts) => DefaultsHaveShape(parts);
    case Variant(alternatives) => DefaultHasShape(alternatives.head);
    case _ =>
  }

  lemma {:induction false} RepeatHasShape(e: Schema, n: nat, v: Value)
    requires HasShape(e, v)
    ensures EachHasShape(e, Repeat(n, v))
    decreases n
  {
    hide HasShape;
    if n > 0 { RepeatHasShape(e, n - 1, v); }
  }

  lemma {:induction false} DefaultsHaveShape(parts: Schemas)
    requires AllWellFormed(parts)
    ensures PartsHaveShape(parts, DefaultParts(parts))
    decreases parts, 0
  {
    hide HasShape, WellFormed, Default;
    if parts.Cons? {
      DefaultHasShape(parts.head);
      DefaultsHaveShape(parts.tail);
    }
  }

  // ---------------------------------------------------------------------------------------
  // Copied memory

  lemma {:induction false} ImageHasShape(conf: Config, s: Schema, bs: seq<byte>)
    requires Trivial(s) && |bs| <= SizeOf(s)
    ensures HasShape(s, OfLayout(conf, s, bs))
    decreases s, 0
  {
    match s
    case Scalar(width) => ImageIsSmall(conf, bs, width);
    case Array(size, element) => ImagesHaveShape(conf, element, size, bs);
    case Group(_, parts) => MemberImagesHaveShape(conf, parts, bs, 0);
  }

  lemma {:induction false} ImagesHaveShape(conf: Config, e: Schema, n: nat, bs: seq<byte>)
    requires Trivial(e)
    ensures EachHasShape(e, OfLayoutEach(conf, e, n, bs))
    decreases e, n + 1
  {
    hide HasShape, Trivial, OfLayout;
    if n > 0 {
      var size := if SizeOf(e) <= |bs| then SizeOf(e) else |bs|;
      ImageHasShape(conf, e, bs[..size]);
      ImagesHaveShape(conf, e, n - 1, bs[size..]);
    }
  }

  lemma {:induction false} MemberImagesHaveShape(conf: Config, parts: Schemas, bs: seq<byte>, offset: nat)
    requires AllTrivial(parts)
    ensures PartsHaveShape(parts, OfLayoutParts(conf, parts, bs, offset))
    decreases parts, 0
  {
    hide HasShape, Trivial, OfLayout, PadTo, AlignOf;
    if parts.Cons? {
      var pad := PadTo(AlignOf(parts.head), offset);
      var from := if pad <= |bs| then pad else |bs|;
      var to := if from + SizeOf(parts.head) <= |bs| then from + SizeOf(parts.head) else |bs|;
      ImageHasShape(conf, parts.head, bs[from..to]);
      MemberImagesHaveShape(conf, parts.tail, bs[to..], offset + pad + SizeOf(parts.head));
    }
  }

  // ---------------------------------------------------------------------------------------
  // Sets and maps

  lemma {:induction false} DistinctAppended(kind: ContainerKind, items: seq<Value>, x: Value)
    requires Distinct(kind, items) && !HoldsKey(kind, items, x)
    ensures Distinct(kind, items + [x])
    decreases |items|
  {
    if items == [] {
      assert (items + [x])[1..] == [];
    } else {
      assert (items + [x])[1..] == items[1..] + [x];
      HoldsKeyAppend(kind, items[1..], x, items[0]);
      DistinctAppended(kind, items[1..], x);
    }
  }

  lemma {:induction false} ShapeAppended(e: Schema, items: seq<Value>, x: Value)
    requires EachHasShape(e, items) && HasShape(e, x)
    ensures EachHasShape(e, items + [x])
    decreases |items|
  {
    hide HasShape;
    if items == [] {
      assert (items + [x])[1..] == [];
    } else {
      assert (items + [x])[1..] == items[1..] + [x];
      ShapeAppended(e, items[1..], x);
    }
  }

  // ---------------------------------------------------------------------------------------
  // Reading

  lemma FieldIsSafe(conf: Config, w: nat, input: seq<byte>)
    ensures Suffix(DecodeField(conf, w, input).rest, input)
  {
  }

  lemma {:induction false} EachIsSafe(conf: Config, e: Schema, n: nat, input: seq<byte>)
    requires WellFormed(e)
    ensures var d := DecodeEach(conf, e, n, input);
      |d.value| == n && EachHasShape(e, d.value) && Suffix(d.rest, input)
    decreases e, n + 1
  {
    hide HasShape, Decode, WellFormed, Default;
    if n > 0 {
      var d := Decode(conf, e, input);
      ReadIsSafe(conf, e, input);
      if d.code != Ok {
        DefaultHasShape(e);
        RepeatHasShape(e, n - 1, Default(e));
      } else {
        EachIsSafe(conf, e, n - 1, d.rest);
        SuffixOfSuffix(DecodeEach(conf, e, n - 1, d.rest).rest, d.rest, input);
      }
    }
  }

  lemma ItemsAreSafe(conf: Config, e: Schema, n: nat, input: seq<byte>, block: bool)
    requires WellFormed(e) && (block ==> Trivial(e))
    ensures var d := DecodeItems(conf, e, n, input, block);
      |d.value| == n && EachHasShape(e, d.value) && Suffix(d.rest, input)
    decreases e, n + 2
  {
    hide HasShape, EachHasShape, DecodeEach, WellFormed, Trivial, Default, OfLayoutEach, Repeat;
    if block {
      var size := Times(n, SizeOf(e));
      if |input| < size {
        DefaultHasShape(e);
        RepeatHasShape(e, n, Default(e));
      } else {
        ImagesHaveShape(conf, e, n, input[..size]);
      }
    } else {
      EachIsSafe(conf, e, n, input);
    }
  }

  /** Elements read into a set or map stay distinct, and those that were there stay in front. */
  lemma {:induction false} IntoIsSafe(conf: Config, kind: ContainerKind, e: Schema, n: nat, input: seq<byte>, items: seq<Value>)
    requires WellFormed(e) && EachHasShape(e, items) && Distinct(kind, items)
    ensures var d := DecodeInto(conf, kind, e, n, input, items);
      EachHasShape(e, d.value) && Distinct(kind, d.value) && items <= d.value && Suffix(d.rest, input)
    decreases e, n + 1
  {
    hide HasShape, EachHasShape, Decode, WellFormed, Distinct, HoldsKey;
    if n > 0 {
      var d := Decode(conf, e, input);
      ReadIsSafe(conf, e, input);
      if d.code == Ok {
        if !HoldsKey(kind, items, d.value) {
          DistinctAppended(kind, items, d.value);
          ShapeAppended(e, items, d.value);
        }
        IntoIsSafe(conf, kind, e, n - 1, d.rest, Emplace(kind, items, d.value));
        SuffixOfSuffix(DecodeInto(conf, kind, e, n - 1, d.rest, Emplace(kind, items, d.value)).rest, d.rest, input);
      }
    }
  }

  lemma {:induction false} PartsAreSafe(conf: Config, parts: Schemas, input: seq<byte>)
    requires AllWellFormed(parts)
    ensures var d := DecodeParts(conf, parts, input); PartsHaveShape(parts, d.value) && Suffix(d.rest, input)
    decreases parts, 0
  {
    hide HasShape, Decode, WellFormed, DefaultParts;
    if parts.Cons? {
      var d := Decode(conf, parts.head, input);
      ReadIsSafe(conf, parts.head, input);
      if d.code != Ok {
        DefaultsHaveShape(parts.tail);
      } else {
        PartsAreSafe(conf, parts.tail, d.rest);
        SuffixOfSuffix(DecodeParts(conf, parts.tail, d.rest).rest, d.rest, input);
      }
    }
  }

  lemma {:induction false} MembersAreSafe(conf: Config, parts: Schemas, input: seq<byte>)
    requires AllWellFormed(parts)
    ensures var d := DecodeMembers(conf, parts, input); PartsHaveShape(parts, d.value) && Suffix(d.rest, input)
    decreases parts, 0
  {
    hide HasShape, Decode, WellFormed;
    if parts.Cons? {
      var d := Decode(conf, parts.head, input);
      ReadIsSafe(conf, parts.head, input);
      MembersAreSafe(conf, parts.tail, d.rest);
      SuffixOfSuffix(DecodeMembers(conf, parts.tail, d.rest).rest, d.rest, input);
    }
  }

  lemma {:induction false} AlternativeIsSafe(conf: Config, alternatives: Schemas, index: nat, input: seq<byte>)
    requires AllWellFormed(alternatives) && index < Count(alternatives)
    ensures var d := DecodeAlternative(conf, alternatives, index, input);
      AlternativeHasShape(alternatives, index, d.value) && Suffix(d.rest, input)
    decreases alternatives, 0
  {
    hide HasShape, Decode, WellFormed;
    if index == 0 {
      ReadIsSafe(conf, alternatives.head, input);
    } else {
      AlternativeIsSafe(conf, alternatives.tail, index - 1, input);
    }
  }

  lemma TextIsSafe(conf: Config, field: Decoded<nat>, input: seq<byte>)
    requires Suffix(field.rest, input)
    ensures DecodeText(conf, field).value.Str? && Suffix(DecodeText(conf, field).rest, input)
  {
    hide Repeat;
  }

  lemma {:induction false} ContainerIsSafe(conf: Config, kind: ContainerKind, e: Schema, input: seq<byte>)
    requires WellFormed(e)
    ensures var d := Decode(conf, Container(kind, e), input); HasShape(Container(kind, e), d.value) && Suffix(d.rest, input)
    decreases Container(kind, e), 0
  {
    hide EachHasShape, WellFormed, DecodeItems, DecodeInto, DecodeField, Trivial, OfWire;
    var field := DecodeField(conf, conf.arrayField, input);
    FieldIsSafe(conf, conf.arrayField, input);
    if field.code == Ok {
      if kind.Set? || kind.Map? {
        NoItemsHaveShape(e);
        IntoIsSafe(conf, kind, e, field.value, field.rest, []);
        SuffixOfSuffix(DecodeInto(conf, kind, e, field.value, field.rest, []).rest, field.rest, input);
      } else {
        var block := kind == Vector && Blocks(conf, e);
        ItemsAreSafe(conf, e, field.value, field.rest, block);
        SuffixOfSuffix(DecodeItems(conf, e, field.value, field.rest, block).rest, field.rest, input);
      }
    } else {
      NoItemsHaveShape(e);
    }
  }

  lemma NoItemsHaveShape(e: Schema)
    ensures EachHasShape(e, [])
  {
  }

  lemma {:induction false} GroupIsSafe(conf: Config, s: Schema, input: seq<byte>)
    requires WellFormed(s) && s.Group?
    ensures var d := Decode(conf, s, input); HasShape(s, d.value) && Suffix(d.rest, input)
    decreases s, 0
  {
    hide PartsHaveShape, WellFormed, AllWellFormed, DecodeParts, DecodeMembers, DecodeField, DefaultParts;
    PartsAreWellFormed(s);
    FieldIsSafe(conf, conf.structField, input);
    if s.group != Struct {
      PartsAreSafe(conf, s.parts, input);
    } else {
      var field := DecodeField(conf, conf.structField, input);
      DefaultsHaveShape(s.parts);
      MembersAreSafe(conf, s.parts, field.rest);
      SuffixOfSuffix(DecodeMembers(conf, s.parts, field.rest).rest, field.rest, input);
    }
  }

  lemma PartsAreWellFormed(s: Schema)
    requires WellFormed(s)
    ensures s.Group? ==> AllWellFormed(s.parts)
    ensures s.Variant? ==> AllWellFormed(s.alternatives) && Count(s.alternatives) >= 1
  {
  }

  lemma {:induction false} VariantIsSafe(conf: Config, s: Schema, input: seq<byte>)
    requires WellFormed(s) && s.Variant?
    ensures var d := Decode(conf, s, input); HasShape(s, d.value) && Suffix(d.rest, input)
    decreases s, 0
  {
    hide AlternativeHasShape, WellFormed, AllWellFormed, DecodeAlternative, DecodeField, Default;
    PartsAreWellFormed(s);
    DefaultHasShape(s);
    FieldIsSafe(conf, conf.unionField, input);
    var field := DecodeField(conf, conf.unionField, input);
    if field.code == Ok && field.value < Count(s.alternatives) {
      AlternativeIsSafe(conf, s.alternatives, field.value, field.rest);
      SuffixOfSuffix(DecodeAlternative(conf, s.alternatives, field.value, field.rest).rest, field.rest, input);
    }
  }

  /** Whatever the bytes, reading leaves an object of the type, and a cursor inside the buffer and
      not in front of where it was. */
  lemma {:induction false} ReadIsSafe(conf: Config, s: Schema, input: seq<byte>)
    requires WellFormed(s)
    ensures HasShape(s, Decode(conf, s, input).value)
    ensures Suffix(Decode(conf, s, input).rest, input)
    decreases s, 1
  {
    hide DecodeText, DecodeItems, DecodeInto, DecodeParts, DecodeMembers, DecodeAlternative, DecodeField,
      Power, OfWire, Blocks, Suffix, EachHasShape, PartsHaveShape, AlternativeHasShape;
    match s
    case Scalar(width) =>
      if |input| >= width { ImageIsSmall(conf, input[..width], width); }
      ScalarSuffix(input, width);
    case Text =>
      FieldIsSafe(conf, conf.stringField, input);
      TextIsSafe(conf, DecodeField(conf, conf.stringField, input), input);
    case Array(size, e) => ItemsAreSafe(conf, e, size, input, Blocks(conf, e)) by { BlocksAreTrivial(conf, e); }
    case Container(kind, e) => ContainerIsSafe(conf, kind, e, input);
    case Group(_, _) => GroupIsSafe(conf, s, input);
    case Variant(_) => VariantIsSafe(conf, s, input);
    case Pointer(target) => ReadIsSafe(conf, target, input);
  }

  lemma ScalarSuffix(input: seq<byte>, w: nat)
    ensures Suffix(input, input) && (w <= |input| ==> Suffix(input[w..], input))
  {
  }
}
