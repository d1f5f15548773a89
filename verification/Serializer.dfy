/**
 The serializer in place: a cursor into a buffer that the recursive overloads advance, and the
 size computation before it. The results are the functions of `SerializerFormat`.
*/
module Serializer {
  import opened WireFormat
  import opened Schemas
  import opened SerializerFormat
  import opened SerializerSize

  /** Copies bytes to the cursor. Nothing checks that there is room: that is the caller's duty. */
  class MemoryWriter {
    const buffer: array<byte>
    var pos: nat

    ghost predicate Valid()
      reads this
    {
      pos <= buffer.Length
    }

    ghost function Done(): seq<byte>
      requires Valid()
      reads this, buffer
    {
      buffer[..pos]
    }

    ghost function Room(): seq<byte>
      requires Valid()
      reads this, buffer
    {
      buffer[pos..]
    }

    constructor (buffer: array<byte>, offset: nat)
      requires offset <= buffer.Length
      ensures Valid() && this.buffer == buffer && pos == offset
    {
      this.buffer, pos := buffer, offset;
    }

    method WriteBytesArray(data: seq<byte>)
      requires Valid() && |data| <= |Room()|
      modifies this`pos, buffer
      ensures Appended(this, data)
    {
      ghost var before := buffer[..];
      forall i | 0 <= i < |data| {
        buffer[pos + i] := data[i];
      }
      assert buffer[..pos] == before[..pos] && buffer[pos + |data|..] == before[pos + |data|..];
      assert buffer[pos..pos + |data|] == data;
      pos := pos + |data|;
    }
  }

  /** `bs` written at the cursor: behind what was done, out of the room that was left. */
  predicate Extends(done: seq<byte>, room: seq<byte>, bs: seq<byte>, done': seq<byte>, room': seq<byte>) {
    |bs| <= |room| && done' == done + bs && room' == room[|bs|..]
  }

  twostate predicate Appended(w: MemoryWriter, bs: seq<byte>)
    reads w, w.buffer
  {
    && old(w.Valid()) && w.Valid() && |w.Room()| + |bs| == |old(w.Room())|
    && Extends(old(w.Done()), old(w.Room()), bs, w.Done(), w.Room())
  }

  lemma ExtendsTwice(done: seq<byte>, room: seq<byte>, a: seq<byte>, done': seq<byte>, room': seq<byte>,
                     b: seq<byte>, done'': seq<byte>, room'': seq<byte>)
    requires Extends(done, room, a, done', room') && Extends(done', room', b, done'', room'')
    ensures Extends(done, room, a + b, done'', room'')
  {
  }

  lemma ExtendsNothing(done: seq<byte>, room: seq<byte>)
    ensures Extends(done, room, [], done, room)
  {
  }

  lemma {:induction false} EncodeEachConcat(conf: Config, e: Schema, a: seq<Value>, b: seq<Value>)
    ensures EncodeEach(conf, e, a + b) == EncodeEach(conf, e, a) + EncodeEach(conf, e, b)
    decreases |a|
  {
    hide Encode;
    if a == [] {
      assert a + b == b;
    } else {
      assert (a + b)[1..] == a[1..] + b;
      EncodeEachConcat(conf, e, a[1..], b);
    }
  }

  lemma EncodeEachOne(conf: Config, e: Schema, vs: seq<Value>, i: nat)
    requires i < |vs|
    ensures EncodeEach(conf, e, vs[..i + 1]) == EncodeEach(conf, e, vs[..i]) + Encode(conf, e, vs[i])
    ensures |EncodeEach(conf, e, vs[..i])| + |Encode(conf, e, vs[i])| <= |EncodeEach(conf, e, vs)|
  {
    hide Encode;
    EncodeEachConcat(conf, e, vs[..i], [vs[i]]);
    EncodeEachConcat(conf, e, vs[..i + 1], vs[i + 1..]);
    assert vs[..i] + [vs[i]] == vs[..i + 1] && vs[..i + 1] + vs[i + 1..] == vs;
    assert EncodeEach(conf, e, [vs[i]]) == Encode(conf, e, vs[i]) + EncodeEach(conf, e, [vs[i]][1..]);
  }

  class Serializer {
    const conf: Config
    const writer: MemoryWriter

    constructor (conf: Config, writer: MemoryWriter)
      ensures this.conf == conf && this.writer == writer
    {
      this.conf, this.writer := conf, writer;
    }

    /** A word, with its bytes swapped in the little-endian configuration. */
    method WriteWrapper(w: nat, n: nat)
      requires writer.Valid() && w <= |writer.Room()|
      modifies writer`pos, writer.buffer
      ensures Appended(writer, Wire(conf, w, n))
    {
      var data := Image(conf, w, n);
      if conf.little && w != 1 {
        data := Reversed(data);
      }
      writer.WriteBytesArray(data);
    }

    /** A length, cut to the width of its field. */
    method SerializeLengthField(w: nat, size: nat)
      requires writer.Valid() && w <= |writer.Room()|
      modifies writer`pos, writer.buffer
      ensures Appended(writer, Wire(conf, w, size))
    {
      DigitsTruncate(w, size);
      if w != 0 {
        WriteWrapper(w, size % Power(w));
      }
    }

    method SerializeOne(s: Schema, v: Value)
      requires writer.Valid() && |Encode(conf, s, v)| <= |writer.Room()|
      modifies writer`pos, writer.buffer
      ensures Appended(writer, Encode(conf, s, v))
      decreases s, 1
    {
      hide Extends, EncodeEach, EncodeParts, EncodeAlternative, Blocks, Wire, LayoutEach, RuntimeInfo;
      match s
      case Scalar(width) => WriteWrapper(width, if v.Num? then v.bits else 0);
      case Text =>
        ghost var d, r := writer.Done(), writer.Room();
        SerializeLengthField(conf.stringField, |CharsOf(v)| + 1);
        ghost var d', r' := writer.Done(), writer.Room();
        writer.WriteBytesArray(CharsOf(v));
        ExtendsTwice(d, r, Wire(conf, conf.stringField, |CharsOf(v)| + 1), d', r',
                     CharsOf(v), writer.Done(), writer.Room());
      case Array(_, element) => SerializeItems(element, ItemsOf(v), Blocks(conf, element));
      case Container(kind, element) =>
        ghost var d, r := writer.Done(), writer.Room();
        var block := kind == Vector && Blocks(conf, element);
        SerializeLengthField(conf.arrayField, |ItemsOf(v)|);
        ghost var d', r' := writer.Done(), writer.Room();
        SerializeItems(element, ItemsOf(v), block);
        ExtendsTwice(d, r, Wire(conf, conf.arrayField, |ItemsOf(v)|), d', r',
                     EncodeItems(conf, element, ItemsOf(v), block), writer.Done(), writer.Room());
      case Group(group, parts) => SerializeGroup(s, v);
      case Variant(alternatives) =>
        ghost var d, r := writer.Done(), writer.Room();
        SerializeLengthField(conf.unionField, IndexOf(v));
        ghost var d', r' := writer.Done(), writer.Room();
        SerializeAlternative(alternatives, IndexOf(v), ItemOf(v));
        ExtendsTwice(d, r, Wire(conf, conf.unionField, IndexOf(v)), d', r',
                     EncodeAlternative(conf, alternatives, IndexOf(v), ItemOf(v)), writer.Done(), writer.Room());
      case Pointer(target) => SerializeOne(target, ItemOf(v));
    }

    method SerializeGroup(s: Schema, v: Value)
      requires s.Group? && writer.Valid() && |Encode(conf, s, v)| <= |writer.Room()|
      modifies writer`pos, writer.buffer
      ensures Appended(writer, Encode(conf, s, v))
      decreases s, 0
    {
      hide Extends, EncodeParts, Wire, RuntimeInfo;
      ghost var d, r := writer.Done(), writer.Room();
      ExtendsNothing(d, r);
      if s.group == Struct {
        SerializeLengthField(conf.structField, RuntimeInfo(conf, s, v));
      }
      ghost var d', r' := writer.Done(), writer.Room();
      SerializeMany(s.parts, ItemsOf(v));
      ExtendsTwice(d, r, if s.group == Struct then Wire(conf, conf.structField, RuntimeInfo(conf, s, v)) else [],
                   d', r', EncodeParts(conf, s.parts, ItemsOf(v)), writer.Done(), writer.Room());
    }

    /** The items of an array or a container: one block, or one by one. */
    method SerializeItems(e: Schema, vs: seq<Value>, block: bool)
      requires writer.Valid() && |EncodeItems(conf, e, vs, block)| <= |writer.Room()|
      modifies writer`pos, writer.buffer
      ensures Appended(writer, EncodeItems(conf, e, vs, block))
      decreases e, 2
    {
      hide Extends, Encode, LayoutEach;
      if block {
        writer.WriteBytesArray(LayoutEach(conf, e, vs));
      } else {
        ghost var d, r := writer.Done(), writer.Room();
        ExtendsNothing(d, r);
        for i := 0 to |vs|
          invariant writer.Valid() && |writer.Room()| + |EncodeEach(conf, e, vs[..i])| == |r|
          invariant Extends(d, r, EncodeEach(conf, e, vs[..i]), writer.Done(), writer.Room())
        {
          EncodeEachOne(conf, e, vs, i);
          ghost var d', r' := writer.Done(), writer.Room();
          SerializeOne(e, vs[i]);
          ExtendsTwice(d, r, EncodeEach(conf, e, vs[..i]), d', r', Encode(conf, e, vs[i]), writer.Done(), writer.Room());
        }
        assert vs[..|vs|] == vs;
      }
    }

    method SerializeMany(parts: Schemas, vs: seq<Value>)
      requires writer.Valid() && |EncodeParts(conf, parts, vs)| <= |writer.Room()|
      modifies writer`pos, writer.buffer
      ensures Appended(writer, EncodeParts(conf, parts, vs))
      decreases parts, 0
    {
      hide Extends, Encode;
      ghost var d, r := writer.Done(), writer.Room();
      if parts.Cons? && vs != [] {
        SerializeOne(parts.head, vs[0]);
        ghost var d', r' := writer.Done(), writer.Room();
        SerializeMany(parts.tail, vs[1..]);
        ExtendsTwice(d, r, Encode(conf, parts.head, vs[0]), d', r',
                     EncodeParts(conf, parts.tail, vs[1..]), writer.Done(), writer.Room());
      } else {
        ExtendsNothing(d, r);
      }
    }

    /** Visits the alternative with the given index. */
    method SerializeAlternative(alternatives: Schemas, index: nat, v: Value)
      requires writer.Valid() && |EncodeAlternative(conf, alternatives, index, v)| <= |writer.Room()|
      modifies writer`pos, writer.buffer
      ensures Appended(writer, EncodeAlternative(conf, alternatives, index, v))
      decreases alternatives, 0
    {
      hide Extends, Encode;
      if alternatives.Nil? {
        ExtendsNothing(writer.Done(), writer.Room());
      } else if index == 0 {
        SerializeOne(alternatives.head, v);
      } else {
        SerializeAlternative(alternatives.tail, index - 1, v);
      }
    }
  }

  // ---------------------------------------------------------------------------------------
  // The computed size, and a buffer resized to it

  method CalculateOneSize(conf: Config, s: Schema, v: Value) returns (info: SizeInfo)
    ensures info == SizeInfoOf(conf, s, v)
    decreases s, 0
  {
    hide EachSizeInfo, PartsSizeInfo, AlternativeSizeInfo;
    match s
    case Scalar(width) => info := SizeInfo(width, 0);
    case Text => info := SizeInfo(|CharsOf(v)| + 1, conf.stringField);
    case Array(size, element) =>
      if Trivial(element) {
        info := SizeInfo(SizeOf(s), 0);
      } else {
        info := CalculateEachSize(conf, element, ItemsOf(v));
      }
    case Container(kind, element) =>
      if kind == Vector && Trivial(element) {
        info := SizeInfo(Times(|ItemsOf(v)|, SizeOf(element)), conf.arrayField);
      } else {
        var items := CalculateEachSize(conf, element, ItemsOf(v));
        info := Plus(SizeInfo(0, conf.arrayField), items);
      }
    case Group(group, parts) =>
      var members := CalculatePayloadSize(conf, parts, ItemsOf(v));
      info := Plus(SizeInfo(0, if group == Struct then conf.structField else 0), members);
    case Variant(alternatives) =>
      var item := CalculateAlternativeSize(conf, alternatives, IndexOf(v), ItemOf(v));
      info := Plus(SizeInfo(0, conf.unionField), item);
    case Pointer(target) => info := CalculateOneSize(conf, target, ItemOf(v));
  }

  method CalculateEachSize(conf: Config, e: Schema, vs: seq<Value>) returns (info: SizeInfo)
    ensures info == EachSizeInfo(conf, e, vs)
    decreases e, 1
  {
    hide SizeInfoOf;
    info := SizeInfo(0, 0);
    for i := 0 to |vs|
      invariant Plus(info, EachSizeInfo(conf, e, vs[i..])) == EachSizeInfo(conf, e, vs)
    {
      assert vs[i..][1..] == vs[i + 1..];
      var one := CalculateOneSize(conf, e, vs[i]);
      info := Plus(info, one);
    }
  }

  method CalculatePayloadSize(conf: Config, parts: Schemas, vs: seq<Value>) returns (info: SizeInfo)
    ensures info == PartsSizeInfo(conf, parts, vs)
    decreases parts, 0
  {
    hide SizeInfoOf;
    info := SizeInfo(0, 0);
    if parts.Cons? && vs != [] {
      var first := CalculateOneSize(conf, parts.head, vs[0]);
      var others := CalculatePayloadSize(conf, parts.tail, vs[1..]);
      info := Plus(first, others);
    }
  }

  method CalculateAlternativeSize(conf: Config, alternatives: Schemas, index: nat, v: Value) returns (info: SizeInfo)
    ensures info == AlternativeSizeInfo(conf, alternatives, index, v)
    decreases alternatives, 0
  {
    hide SizeInfoOf;
    if alternatives.Nil? {
      info := SizeInfo(0, 0);
    } else if index == 0 {
      info := CalculateOneSize(conf, alternatives.head, v);
    } else {
      info := CalculateAlternativeSize(conf, alternatives.tail, index - 1, v);
    }
  }

  /** Appends the encoding of the arguments to a byte buffer: resizes it once, by the computed
      size, and writes without further checks. The computed size is enough. */
  method SerializeTo(conf: Config, buffer: seq<byte>, args: Schemas, vs: seq<Value>) returns (out: seq<byte>)
    requires PartsHaveType(args, vs) && (AllBlocks(conf) || conf.structField == 0)
    ensures |out| == |buffer| + Sum(PartsSizeInfo(conf, args, vs))
    ensures buffer + EncodeParts(conf, args, vs) <= out
    ensures AllBlocks(conf) ==> out == buffer + EncodeParts(conf, args, vs) + Repeat<byte>(PartsStrings(args, vs), 0)
  {
    hide PartsHaveType, PartsSizeInfo, EncodeParts, PartsStrings, Extends, Sum, AllBlocks, Repeat;
    PartsSizeAgrees(conf, args, vs);
    SizeSuffices(conf, args, vs);
    var info := CalculatePayloadSize(conf, args, vs);
    var resized := Resize(buffer, |buffer| + Sum(info));
    var writer := new MemoryWriter(resized, |buffer|);
    var serializer := new Serializer(conf, writer);
    ghost var d, r := writer.Done(), writer.Room();
    assert r == Repeat<byte>(Sum(info), 0) && d == buffer;
    serializer.SerializeMany(args, vs);
    out := resized[..];
    assert out == writer.Done() + writer.Room();
    BufferWritten(buffer, Sum(info), EncodeParts(conf, args, vs), writer.Done(), writer.Room());
  }

  lemma SizeSuffices(conf: Config, args: Schemas, vs: seq<Value>)
    requires Agrees(conf, |EncodeParts(conf, args, vs)|, PartsStrings(args, vs), PartsSizeInfo(conf, args, vs))
    ensures |EncodeParts(conf, args, vs)| <= Sum(PartsSizeInfo(conf, args, vs))
    ensures AllBlocks(conf) ==>
      Sum(PartsSizeInfo(conf, args, vs)) - |EncodeParts(conf, args, vs)| == PartsStrings(args, vs)
  {
    hide EncodeParts, PartsStrings, PartsSizeInfo, Sum, AllBlocks;
  }

  lemma BufferWritten(buffer: seq<byte>, size: nat, bs: seq<byte>, done: seq<byte>, room: seq<byte>)
    requires |bs| <= size && Extends(buffer, Repeat<byte>(size, 0), bs, done, room)
    ensures done + room == buffer + bs + Repeat<byte>(size - |bs|, 0)
    ensures buffer + bs <= done + room
  {
    ZerosRemain(size, |bs|);
  }

  /** `resize` of a byte buffer: new bytes are zero. */
  method Resize(buffer: seq<byte>, size: nat) returns (resized: array<byte>)
    requires size >= |buffer|
    ensures fresh(resized) && resized.Length == size
    ensures resized[..|buffer|] == buffer && resized[|buffer|..] == Repeat<byte>(size - |buffer|, 0)
  {
    resized := new byte[size](i => if 0 <= i < |buffer| then buffer[i] else 0);
    AllZeros(resized[|buffer|..]);
  }

  lemma {:induction false} AllZeros(bs: seq<byte>)
    requires forall i :: 0 <= i < |bs| ==> bs[i] == 0
    ensures bs == Repeat<byte>(|bs|, 0)
  {
    if bs != [] { AllZeros(bs[1..]); }
  }

  lemma {:induction false} ZerosRemain(n: nat, k: nat)
    requires k <= n
    ensures Repeat<byte>(n, 0)[k..] == Repeat<byte>(n - k, 0)
  {
    if k > 0 {
      ZerosRemain(n - 1, k - 1);
      assert Repeat<byte>(n, 0)[1..] == Repeat<byte>(n - 1, 0);
    }
  }
}
