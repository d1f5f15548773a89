/**
 The bytes themselves: what each kind of value becomes on the wire, and where its pieces lie.
*/
module SerializerBytes {
  import opened Divisions
  import opened WireFormat
  import opened Schemas
  import opened SerializerFormat
  import opened SerializerSize

  /** A word of a length field or a scalar: most significant byte first if the configured byte order
      is the host's. */
  function Word(conf: Config, w: nat, n: nat): seq<byte> {
    if conf.little == conf.hostLittle then Reversed(Digits(w, n)) else Digits(w, n)
  }

  function Flatten(pieces: seq<seq<byte>>): seq<byte> {
    if pieces == [] then [] else pieces[0] + Flatten(pieces[1..])
  }

  /** The encodings of the elements, one by one. */
  function Pieces(conf: Config, e: Schema, vs: seq<Value>): seq<seq<byte>> {
    seq(|vs|, i requires 0 <= i < |vs| => Encode(conf, e, vs[i]))
  }

  /** The images of the elements in memory, one by one. */
  function Images(conf: Config, e: Schema, vs: seq<Value>): seq<seq<byte>> {
    seq(|vs|, i requires 0 <= i < |vs| => Layout(conf, e, vs[i]))
  }

  lemma WireIsWord(conf: Config, w: nat, n: nat)
    ensures Wire(conf, w, n) == Word(conf, w, n)
  {
    OrderOnTheWire(conf, w, n);
  }

  lemma {:induction false} EachIsFlat(conf: Config, e: Schema, vs: seq<Value>)
    ensures EncodeEach(conf, e, vs) == Flatten(Pieces(conf, e, vs))
    decreases |vs|
  {
    hide Encode;
    if vs != [] {
      EachIsFlat(conf, e, vs[1..]);
      assert Pieces(conf, e, vs)[1..] == Pieces(conf, e, vs[1..]);
    }
  }

  lemma {:induction false} ImagesAreFlat(conf: Config, e: Schema, vs: seq<Value>)
    ensures LayoutEach(conf, e, vs) == Flatten(Images(conf, e, vs))
    decreases |vs|
  {
    hide Layout;
    if vs != [] {
      ImagesAreFlat(conf, e, vs[1..]);
      assert Images(conf, e, vs)[1..] == Images(conf, e, vs[1..]);
    }
  }

  // ---------------------------------------------------------------------------------------
  // Sequences

  /** A little-endian configuration on a little-endian host copies the memory of contiguous
      sequences of trivially serializable elements, the elements one after the other; only the
      length in front of them is swapped. */
  lemma BlockBytes(conf: Config, e: Schema, vs: seq<Value>)
    requires conf.little && conf.hostLittle && Trivial(e)
    ensures Encode(conf, Container(Vector, e), Many(vs))
         == Reversed(Digits(conf.arrayField, |vs|)) + Flatten(Images(conf, e, vs))
    ensures Encode(conf, Array(|vs|, e), Many(vs)) == Flatten(Images(conf, e, vs))
  {
    hide Wire, LayoutEach, EncodeEach, Trivial, SizeOf;
    WireIsWord(conf, conf.arrayField, |vs|);
    ImagesAreFlat(conf, e, vs);
  }

  /** So do all configurations for elements of one byte. */
  lemma ByteBlockBytes(conf: Config, e: Schema, vs: seq<Value>)
    requires Trivial(e) && SizeOf(e) == 1
    ensures Encode(conf, Container(Vector, e), Many(vs))
         == Word(conf, conf.arrayField, |vs|) + Flatten(Images(conf, e, vs))
    ensures Encode(conf, Array(|vs|, e), Many(vs)) == Flatten(Images(conf, e, vs))
  {
    hide Wire, LayoutEach, EncodeEach, Trivial, SizeOf;
    WireIsWord(conf, conf.arrayField, |vs|);
    ImagesAreFlat(conf, e, vs);
  }

  /** Every other sequence is written element by element. */
  lemma ElementBytes(conf: Config, kind: ContainerKind, e: Schema, vs: seq<Value>)
    requires !(conf.little && conf.hostLittle && Trivial(e)) && !(Trivial(e) && SizeOf(e) == 1)
    ensures Encode(conf, Container(kind, e), Many(vs))
         == Word(conf, conf.arrayField, |vs|) + Flatten(Pieces(conf, e, vs))
    ensures Encode(conf, Array(|vs|, e), Many(vs)) == Flatten(Pieces(conf, e, vs))
  {
    hide Wire, LayoutEach, EncodeEach, Trivial, SizeOf;
    WireIsWord(conf, conf.arrayField, |vs|);
    EachIsFlat(conf, e, vs);
  }

  lemma NodeBytes(conf: Config, kind: ContainerKind, e: Schema, vs: seq<Value>)
    requires kind != Vector
    ensures Encode(conf, Container(kind, e), Many(vs))
         == Word(conf, conf.arrayField, |vs|) + Flatten(Pieces(conf, e, vs))
  {
    hide Wire, LayoutEach, EncodeEach, Trivial, SizeOf;
    WireIsWord(conf, conf.arrayField, |vs|);
    EachIsFlat(conf, e, vs);
  }

  /** Pieces of equal size lie at multiples of it. */
  lemma {:induction false} PieceAt(pieces: seq<seq<byte>>, w: nat, i: nat)
    requires i < |pieces| && forall k :: 0 <= k < |pieces| ==> |pieces[k]| == w
    ensures |Flatten(pieces)| == |pieces| * w && 0 <= i * w <= |pieces| * w - w
    ensures Flatten(pieces)[i * w..i * w + w] == pieces[i]
    decreases |pieces|
  {
    var tail := Flatten(pieces[1..]);
    FlatSize(pieces, w);
    FlatSize(pieces[1..], w);
    if i == 0 {
      assert (pieces[0] + tail)[..w] == pieces[0];
    } else {
      PieceAt(pieces[1..], w, i - 1);
      assert (i - 1) * w + w == i * w;
      assert (pieces[0] + tail)[i * w..i * w + w] == tail[(i - 1) * w..(i - 1) * w + w];
    }
    assert i * w + w == (i + 1) * w;
    Multiples(i + 1, |pieces|, w);
  }

  lemma Multiples(i: nat, n: nat, w: nat)
    requires i <= n
    ensures i * w <= n * w
  {
    assert n * w == i * w + (n - i) * w;
  }

  lemma {:induction false} FlatSize(pieces: seq<seq<byte>>, w: nat)
    requires forall k :: 0 <= k < |pieces| ==> |pieces[k]| == w
    ensures |Flatten(pieces)| == |pieces| * w
    decreases |pieces|
  {
    if pieces != [] { FlatSize(pieces[1..], w); }
  }

  /** The words of a vector lie behind its length in the order of their indices. They are the only
      words a little-endian host writes least significant byte first in the little-endian
      configuration. */
  lemma VectorWordAt(conf: Config, w: nat, vs: seq<Value>, i: nat)
    requires WordWidth(w) && i < |vs| && forall k :: 0 <= k < |vs| ==> vs[k].Num?
    ensures var bytes, at := Encode(conf, Container(Vector, Scalar(w)), Many(vs)), conf.arrayField + i * w;
      && 0 <= at <= at + w <= |bytes| == conf.arrayField + |vs| * w
      && bytes[..conf.arrayField] == Word(conf, conf.arrayField, |vs|)
      && bytes[at..at + w] ==
           if conf.little || conf.hostLittle then Digits(w, vs[i].bits) else Reversed(Digits(w, vs[i].bits))
  {
    hide Encode, Layout, Flatten, Reversed, Digits;
    var e := Scalar(w);
    var pieces := if (conf.little && conf.hostLittle) || w == 1 then Images(conf, e, vs) else Pieces(conf, e, vs);
    forall k | 0 <= k < |vs|
      ensures pieces[k] ==
        if conf.little || conf.hostLittle then Digits(w, vs[k].bits) else Reversed(Digits(w, vs[k].bits))
    {
      WordPiece(conf, w, vs[k]);
    }
    VectorIs(conf, w, vs);
    PieceAt(pieces, w, i);
    Behind(Word(conf, conf.arrayField, |vs|), Flatten(pieces), i * w, w);
  }

  lemma Behind(field: seq<byte>, body: seq<byte>, at: nat, w: nat)
    requires at + w <= |body|
    ensures (field + body)[..|field|] == field
    ensures (field + body)[|field| + at..|field| + at + w] == body[at..at + w]
  {
  }

  lemma VectorIs(conf: Config, w: nat, vs: seq<Value>)
    requires WordWidth(w)
    ensures Encode(conf, Container(Vector, Scalar(w)), Many(vs)) == Word(conf, conf.arrayField, |vs|)
      + Flatten(if (conf.little && conf.hostLittle) || w == 1 then Images(conf, Scalar(w), vs)
                else Pieces(conf, Scalar(w), vs))
  {
    hide Encode, Layout, Flatten, Reversed, Digits;
    if w == 1 { ByteBlockBytes(conf, Scalar(w), vs); }
    else if conf.little && conf.hostLittle { BlockBytes(conf, Scalar(w), vs); }
    else { ElementBytes(conf, Vector, Scalar(w), vs); }
  }

  lemma WordPiece(conf: Config, w: nat, v: Value)
    requires WordWidth(w) && v.Num?
    ensures var word := if conf.little || conf.hostLittle then Digits(w, v.bits) else Reversed(Digits(w, v.bits));
      && ((conf.little && conf.hostLittle) || w == 1 ==> Layout(conf, Scalar(w), v) == word)
      && (!(conf.little && conf.hostLittle) ==> Encode(conf, Scalar(w), v) == word)
  {
    hide Digits;
    WireIsWord(conf, w, v.bits);
    if w == 1 { OneByte(v.bits); }
  }

  lemma OneByte(n: nat)
    ensures Reversed(Digits(1, n)) == Digits(1, n)
  {
    var d := Digits(1, n);
    assert d[1..] == [] && Reversed(d[1..]) == [] && d == [d[0]];
  }

  // ---------------------------------------------------------------------------------------
  // Everything else

  /** A string is its length, which counts a terminator that is not written, and its characters. */
  lemma TextBytes(conf: Config, chars: seq<byte>)
    ensures Encode(conf, Text, Str(chars)) == Word(conf, conf.stringField, |chars| + 1) + chars
  {
    hide Wire;
    WireIsWord(conf, conf.stringField, |chars| + 1);
  }

  function PartAt(parts: Schemas, i: nat): Schema
    requires i < Count(parts)
  {
    if i == 0 then parts.head else PartAt(parts.tail, i - 1)
  }

  lemma {:induction false} PartsAreTyped(parts: Schemas, vs: seq<Value>)
    requires PartsHaveType(parts, vs)
    ensures |vs| == Count(parts)
    decreases parts
  {
    if parts.Cons? { PartsAreTyped(parts.tail, vs[1..]); }
  }

  /** The encodings of the parts, one by one. */
  function PartPieces(conf: Config, parts: Schemas, vs: seq<Value>): seq<seq<byte>>
    requires |vs| == Count(parts)
  {
    seq(|vs|, i requires 0 <= i < |vs| => Encode(conf, PartAt(parts, i), vs[i]))
  }

  lemma {:induction false} PartsAreFlat(conf: Config, parts: Schemas, vs: seq<Value>)
    requires |vs| == Count(parts)
    ensures EncodeParts(conf, parts, vs) == Flatten(PartPieces(conf, parts, vs))
    decreases parts
  {
    hide Encode;
    if parts.Cons? {
      PartsAreFlat(conf, parts.tail, vs[1..]);
      assert PartPieces(conf, parts, vs)[1..] == PartPieces(conf, parts.tail, vs[1..]);
    }
  }

  /** Pairs and tuples are their parts in order. A struct has a field in front of them, if it is
      configured: the bytes the whole struct takes where nothing is swapped, and one more for every
      string in it. */
  lemma GroupBytes(conf: Config, group: GroupKind, parts: Schemas, vs: seq<Value>)
    requires PartsHaveType(parts, vs)
    ensures |vs| == Count(parts)
    ensures group != Struct ==> Encode(conf, Group(group, parts), Many(vs)) == Flatten(PartPieces(conf, parts, vs))
    ensures group == Struct ==> var s, v := Group(group, parts), Many(vs);
      Encode(conf, s, v) == Word(conf, conf.structField, |Encode(Unswapped(conf), s, v)| + Strings(s, v))
                              + Flatten(PartPieces(conf, parts, vs))
  {
    hide EncodeParts, Wire, Strings, RuntimeInfo, Word, Flatten;
    PartsAreTyped(parts, vs);
    PartsAreFlat(conf, parts, vs);
    var s, v := Group(group, parts), Many(vs);
    assert HasType(s, v);
    SizeIsThatOfUnswapped(conf, s, v);
    WireIsWord(conf, conf.structField, RuntimeInfo(conf, s, v));
    if group != Struct { assert [] + EncodeParts(conf, parts, vs) == EncodeParts(conf, parts, vs); }
  }

  /** A variant is its index, if there is a field for it, and the alternative of that index. */
  lemma VariantBytes(conf: Config, alternatives: Schemas, index: nat, item: Value)
    requires AlternativeHasType(alternatives, index, item)
    ensures index < Count(alternatives)
    ensures Encode(conf, Variant(alternatives), Choice(index, item))
         == Word(conf, conf.unionField, index) + Encode(conf, PartAt(alternatives, index), item)
  {
    hide EncodeAlternative, Wire, Word;
    WireIsWord(conf, conf.unionField, index);
    AlternativeIs(conf, alternatives, index, item);
  }

  lemma {:induction false} AlternativeIs(conf: Config, alternatives: Schemas, index: nat, item: Value)
    requires AlternativeHasType(alternatives, index, item)
    ensures index < Count(alternatives)
    ensures EncodeAlternative(conf, alternatives, index, item) == Encode(conf, PartAt(alternatives, index), item)
    decreases alternatives
  {
    hide Encode;
    if index > 0 { AlternativeIs(conf, alternatives.tail, index - 1, item); }
  }

  /** A smart pointer leaves no trace of itself. */
  lemma PointerBytes(conf: Config, target: Schema, pointee: Value)
    ensures Encode(conf, Pointer(target), Ref(pointee)) == Encode(conf, target, pointee)
  {
  }

  // ---------------------------------------------------------------------------------------
  // Objects in memory

  /** Where member `i` starts, for a group laid out from `offset` on. */
  function OffsetOf(parts: Schemas, offset: nat, i: nat): nat
    requires i < Count(parts)
  {
    var start := offset + PadTo(AlignOf(parts.head), offset);
    if i == 0 then start else OffsetOf(parts.tail, start + SizeOf(parts.head), i - 1)
  }

  /** The padding is the least that aligns. */
  lemma PadAligns(alignment: nat, offset: nat)
    requires alignment >= 1
    ensures PadTo(alignment, offset) < alignment && (offset + PadTo(alignment, offset)) % alignment == 0
  {
    DivMod(alignment, offset);
    var q, r := offset / alignment, offset % alignment;
    if r != 0 {
      assert offset + (alignment - r) == (q + 1) * alignment + 0;
      DivModIs(alignment, offset + (alignment - r), q + 1, 0);
    }
  }

  lemma {:induction false} AlignIsPositive(s: Schema)
    requires WellFormed(s)
    ensures AlignOf(s) >= 1
    decreases s
  {
    match s
    case Array(_, element) => AlignIsPositive(element);
    case Group(_, parts) => AlignsArePositive(parts);
    case _ =>
  }

  lemma {:induction false} AlignsArePositive(parts: Schemas)
    requires AllWellFormed(parts)
    ensures AlignOfParts(parts) >= 1
    decreases parts
  {
    if parts.Cons? {
      AlignIsPositive(parts.head);
      AlignsArePositive(parts.tail);
    }
  }

  /** An object is aligned for each of its members, and no stricter than for one of them. */
  lemma {:induction false} AlignsForMembers(parts: Schemas) returns (strictest: nat)
    requires AllWellFormed(parts)
    ensures forall i: nat :: i < Count(parts) ==> AlignOf(PartAt(parts, i)) <= AlignOfParts(parts)
    ensures AlignOfParts(parts) == 1
      || (strictest < Count(parts) && AlignOf(PartAt(parts, strictest)) == AlignOfParts(parts))
    decreases parts
  {
    hide AlignOf, WellFormed;
    strictest := 0;
    if parts.Cons? {
      var next := AlignsForMembers(parts.tail);
      forall i: nat | i < Count(parts) ensures AlignOf(PartAt(parts, i)) <= AlignOfParts(parts) {
        if i > 0 { assert PartAt(parts, i) == PartAt(parts.tail, i - 1); }
      }
      if AlignOfParts(parts) != AlignOf(parts.head) { strictest := next + 1; }
    }
  }

  /** Where the member before member `i` ends. */
  function EndBefore(parts: Schemas, offset: nat, i: nat): nat
    requires i < Count(parts)
  {
    if i == 0 then offset else OffsetOf(parts, offset, i - 1) + SizeOf(PartAt(parts, i - 1))
  }

  /** Every member of an object lies at the next multiple of its alignment behind the member before
      it, or behind the start. */
  lemma {:induction false} MemberAligned(parts: Schemas, offset: nat, i: nat)
    requires AllWellFormed(parts) && i < Count(parts)
    ensures var at, alignment := OffsetOf(parts, offset, i), AlignOf(PartAt(parts, i));
      alignment >= 1 && at % alignment == 0 && EndBefore(parts, offset, i) <= at < EndBefore(parts, offset, i) + alignment
    decreases parts
  {
    hide AlignOf, SizeOf, WellFormed, PadTo;
    AlignIsPositive(parts.head);
    PadAligns(AlignOf(parts.head), offset);
    if i > 0 { MemberAligned(parts.tail, offset + PadTo(AlignOf(parts.head), offset) + SizeOf(parts.head), i - 1); }
  }

  /** The bytes from `from` on are `image`. */
  predicate LiesAt(bytes: seq<byte>, from: nat, image: seq<byte>) {
    from + |image| <= |bytes| && bytes[from..from + |image|] == image
  }

  lemma LiesBehind(front: seq<byte>, bytes: seq<byte>, from: nat, image: seq<byte>)
    requires LiesAt(bytes, from, image)
    ensures LiesAt(front + bytes, |front| + from, image)
  {
    Behind(front, bytes, from, |image|);
  }

  lemma LiesInTheMiddle(a: seq<byte>, image: seq<byte>, b: seq<byte>)
    ensures LiesAt(a + image + b, |a|, image)
  {
  }

  /** ... and has its own image there. */
  lemma {:induction false} MemberImage(conf: Config, parts: Schemas, vs: seq<Value>, offset: nat, i: nat)
    requires AllTrivial(parts) && PartsHaveType(parts, vs) && i < |vs|
    ensures |vs| == Count(parts) && OffsetOf(parts, offset, i) >= offset
    ensures LiesAt(LayoutParts(conf, parts, vs, offset), OffsetOf(parts, offset, i) - offset,
                   Layout(conf, PartAt(parts, i), vs[i]))
    ensures |Layout(conf, PartAt(parts, i), vs[i])| == SizeOf(PartAt(parts, i))
    decreases parts
  {
    hide Layout, AlignOf, SizeOf, HasType, Trivial, PadTo, Repeat, LayoutParts, LiesAt;
    PartsAreTyped(parts, vs);
    var pad := PadTo(AlignOf(parts.head), offset);
    var next := offset + pad + SizeOf(parts.head);
    var padding, head, tail := Repeat<byte>(pad, conf.padding), Layout(conf, parts.head, vs[0]),
                               LayoutParts(conf, parts.tail, vs[1..], next);
    FirstMember(conf, parts, vs, offset);
    if i == 0 {
      LiesInTheMiddle(padding, head, tail);
    } else {
      MemberImage(conf, parts.tail, vs[1..], next, i - 1);
      LiesBehind(padding + head, tail, OffsetOf(parts.tail, next, i - 1) - next,
                 Layout(conf, PartAt(parts.tail, i - 1), vs[1..][i - 1]));
    }
  }

  lemma FirstMember(conf: Config, parts: Schemas, vs: seq<Value>, offset: nat)
    requires AllTrivial(parts) && PartsHaveType(parts, vs) && parts.Cons?
    ensures var pad := PadTo(AlignOf(parts.head), offset);
      var front := Repeat<byte>(pad, conf.padding) + Layout(conf, parts.head, vs[0]);
      && |Layout(conf, parts.head, vs[0])| == SizeOf(parts.head) && |front| == pad + SizeOf(parts.head)
      && LayoutParts(conf, parts, vs, offset)
           == front + LayoutParts(conf, parts.tail, vs[1..], offset + pad + SizeOf(parts.head))
  {
    hide Layout, AlignOf, SizeOf, HasType, Trivial, PadTo, Repeat;
    LayoutSize(conf, parts.head, vs[0]);
  }

  /** An object fills a multiple of its alignment, so that the elements of an array are aligned; the
      padding at its end is less than its alignment, unless it has no members. */
  lemma SizeIsAligned(parts: Schemas)
    requires AllWellFormed(parts)
    ensures AlignOfParts(parts) >= 1
    ensures var end := EndOf(parts, 0);
      if end == 0 then TailPad(parts) == 1
      else (end + TailPad(parts)) % AlignOfParts(parts) == 0 && TailPad(parts) < AlignOfParts(parts)
  {
    AlignsArePositive(parts);
    PadAligns(AlignOfParts(parts), EndOf(parts, 0));
  }
}
