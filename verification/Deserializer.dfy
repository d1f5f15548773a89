/**
 The deserializer in place: a cursor that every read advances. The results are the functions of
 `SerializerFormat`.
*/
module Deserializer {
  import opened WireFormat
  import opened Schemas
  import opened SerializerFormat

  class MemoryReader {
    const input: seq<byte>
    var now: nat

    ghost predicate Valid()
      reads this
    {
      now <= |input|
    }

    ghost function Rest(): seq<byte>
      requires Valid()
      reads this
    {
      input[now..]
    }

    constructor (input: seq<byte>)
      ensures Valid() && Rest() == input
    {
      this.input, now := input, 0;
    }

    /** Reads all of the bytes or none. */
    method Read(len: nat) returns (ok: bool, data: seq<byte>)
      requires Valid()
      modifies this
      ensures Valid() && (ok <==> len <= |old(Rest())|)
      ensures ok ==> data == old(Rest())[..len] && Rest() == old(Rest())[len..]
      ensures !ok ==> Rest() == old(Rest())
    {
      if now + len > |input| {
        return false, [];
      }
      ok, data := true, input[now..now + len];
      now := now + len;
    }
  }

  class Deserializer {
    const conf: Config
    const reader: MemoryReader

    constructor (conf: Config, reader: MemoryReader)
      ensures this.conf == conf && this.reader == reader
    {
      this.conf, this.reader := conf, reader;
    }

    /** A word, with its bytes swapped in the little-endian configuration. */
    method ReadWrapper(w: nat) returns (ok: bool, n: nat)
      requires reader.Valid()
      modifies reader
      ensures reader.Valid() && (ok <==> w <= |old(reader.Rest())|)
      ensures ok ==> n == OfWire(conf, old(reader.Rest())[..w]) && reader.Rest() == old(reader.Rest())[w..]
      ensures !ok ==> n == 0 && reader.Rest() == old(reader.Rest())
    {
      var data: seq<byte>;
      n := 0;
      ok, data := reader.Read(w);
      if ok {
        if conf.little && w != 1 {
          data := Reversed(data);
        }
        n := OfImage(conf, data);
      }
    }

    method DeserializeLengthField(w: nat) returns (code: Code, size: nat)
      requires reader.Valid()
      modifies reader
      ensures reader.Valid()
      ensures Decoded(code, size, reader.Rest()) == DecodeField(conf, w, old(reader.Rest()))
    {
      size := 0;
      if w != 0 {
        var ok;
        ok, size := ReadWrapper(w);
        if !ok {
          return NoBufferSpace, 0;
        }
      }
      code := if w != 0 && size == 0 then LengthError else Ok;
    }

    method DeserializeOne(s: Schema) returns (code: Code, item: Value)
      requires reader.Valid()
      modifies reader
      ensures reader.Valid()
      ensures Decoded(code, item, reader.Rest()) == Decode(conf, s, old(reader.Rest()))
      decreases s, 1
    {
      hide DecodeField, DecodeItems, DecodeInto, DecodeParts, DecodeMembers, DecodeAlternative, Blocks, OfWire, Repeat;
      item := Default(s);
      match s
      case Scalar(width) =>
        var ok, bits := ReadWrapper(width);
        if !ok {
          return NoBufferSpace, item;
        }
        code, item := Ok, Num(bits);
      case Text => code, item := DeserializeText();
      case Array(size, element) =>
        var items;
        code, items := DeserializeItems(element, size, Blocks(conf, element));
        item := Many(items);
      case Container(kind, element) =>
        var size, items;
        code, size := DeserializeLengthField(conf.arrayField);
        if code != Ok {
          return;
        }
        if kind.Set? || kind.Map? {
          code, items := DeserializeInto(kind, element, size);
        } else {
          code, items := DeserializeItems(element, size, kind == Vector && Blocks(conf, element));
        }
        item := Many(items);
      case Group(group, parts) =>
        var size, items;
        if group == Struct {
          code, size := DeserializeLengthField(conf.structField);
          if code != Ok {
            return;
          }
          items := DeserializeMembers(parts);
        } else {
          code, items := DeserializeMany(parts);
        }
        item := Many(items);
      case Variant(alternatives) =>
        var index, content;
        code, index := DeserializeLengthField(conf.unionField);
        if code != Ok {
          return;
        }
        if index >= Count(alternatives) {
          return InvalidBuffer, item;
        }
        content := DeserializeAlternative(alternatives, index);
        item := Choice(index, content);
      case Pointer(target) =>
        var content;
        code, content := DeserializeOne(target);
        code, item := Ok, Ref(content);
    }

    /** The size field counts one more than the characters, which are read into the resized
        string. */
    method DeserializeText() returns (code: Code, item: Value)
      requires reader.Valid()
      modifies reader
      ensures reader.Valid()
      ensures Decoded(code, item, reader.Rest()) == Decode(conf, Text, old(reader.Rest()))
    {
      hide DecodeField, Repeat;
      ghost var field := DecodeField(conf, conf.stringField, reader.Rest());
      FieldIsPositive(conf, conf.stringField, reader.Rest());
      var size, ok, chars;
      item := Str([]);
      code, size := DeserializeLengthField(conf.stringField);
      if code != Ok || size == 0 {
        return;
      }
      item := Str(Repeat<byte>(size - 1, 0));
      ok, chars := reader.Read(size - 1);
      if !ok {
        return NoBufferSpace, item;
      }
      code, item := Ok, Str(chars);
    }

    /** The items of an array, or of a container resized to `n`: one block, or one by one. */
    method DeserializeItems(e: Schema, n: nat, block: bool) returns (code: Code, items: seq<Value>)
      requires reader.Valid()
      modifies reader
      ensures reader.Valid()
      ensures Decoded(code, items, reader.Rest()) == DecodeItems(conf, e, n, old(reader.Rest()), block)
      decreases e, 3
    {
      hide Decode, DecodeEach, OfLayoutEach, Default, Repeat;
      if !block {
        code, items := DeserializeEach(e, n);
        return;
      }
      var ok, data := reader.Read(Times(n, SizeOf(e)));
      if !ok {
        return NoBufferSpace, Repeat(n, Default(e));
      }
      code, items := Ok, OfLayoutEach(conf, e, n, data);
    }

    /** The resized items one by one, until the first error. */
    method DeserializeEach(e: Schema, n: nat) returns (code: Code, items: seq<Value>)
      requires reader.Valid()
      modifies reader
      ensures reader.Valid()
      ensures Decoded(code, items, reader.Rest()) == DecodeEach(conf, e, n, old(reader.Rest()))
      decreases e, 2
    {
      hide Decode, Default, Behind;
      code, items := Ok, Repeat(n, Default(e));
      ghost var input := reader.Rest();
      ghost var done: seq<Value> := [];
      BehindNothing(DecodeEach(conf, e, n, input));
      for i := 0 to n
        invariant reader.Valid() && |done| == i && items == done + Repeat(n - i, Default(e)) && code == Ok
        invariant DecodeEach(conf, e, n, input) == Behind(done, DecodeEach(conf, e, n - i, reader.Rest()))
      {
        var item;
        code, item := DeserializeOne(e);
        items := items[i := item];
        assert items == done + ([item] + Repeat(n - i - 1, Default(e)));
        if code != Ok {
          BehindIs(done, Decoded(code, [item] + Repeat(n - i - 1, Default(e)), reader.Rest()));
          return;
        }
        BehindTwice(done, item, DecodeEach(conf, e, n - i - 1, reader.Rest()));
        done := done + [item];
      }
      BehindIs(done, Decoded(Ok, [], reader.Rest()));
    }

    /** `n` elements emplaced into an empty set or map. */
    method DeserializeInto(kind: ContainerKind, e: Schema, n: nat) returns (code: Code, items: seq<Value>)
      requires reader.Valid()
      modifies reader
      ensures reader.Valid()
      ensures Decoded(code, items, reader.Rest()) == DecodeInto(conf, kind, e, n, old(reader.Rest()), [])
      decreases e, 2
    {
      hide Decode, Emplace;
      code, items := Ok, [];
      ghost var input := reader.Rest();
      for i := 0 to n
        invariant reader.Valid() && code == Ok
        invariant DecodeInto(conf, kind, e, n, input, []) == DecodeInto(conf, kind, e, n - i, reader.Rest(), items)
      {
        var item;
        code, item := DeserializeOne(e);
        if code != Ok {
          return;
        }
        items := Emplace(kind, items, item);
      }
    }

    /** The parts of a pair or tuple, or the arguments of a call: stops at the first error. */
    method DeserializeMany(parts: Schemas) returns (code: Code, items: seq<Value>)
      requires reader.Valid()
      modifies reader
      ensures reader.Valid()
      ensures Decoded(code, items, reader.Rest()) == DecodeParts(conf, parts, old(reader.Rest()))
      decreases parts, 0
    {
      hide Decode, Default;
      if parts.Nil? {
        return Ok, [];
      }
      var first, others;
      code, first := DeserializeOne(parts.head);
      if code != Ok {
        return code, [first] + DefaultParts(parts.tail);
      }
      code, others := DeserializeMany(parts.tail);
      items := [first] + others;
    }

    /** The members of a struct: every one is read, and their return codes are dropped. */
    method DeserializeMembers(parts: Schemas) returns (items: seq<Value>)
      requires reader.Valid()
      modifies reader
      ensures reader.Valid()
      ensures Decoded(Ok, items, reader.Rest()) == DecodeMembers(conf, parts, old(reader.Rest()))
      decreases parts, 0
    {
      hide Decode;
      if parts.Nil? {
        return [];
      }
      var code, first := DeserializeOne(parts.head);
      var others := DeserializeMembers(parts.tail);
      items := [first] + others;
    }

    /** The alternative with the given index; its return code is dropped. */
    method DeserializeAlternative(alternatives: Schemas, index: nat) returns (item: Value)
      requires reader.Valid() && index < Count(alternatives)
      modifies reader
      ensures reader.Valid()
      ensures item == DecodeAlternative(conf, alternatives, index, old(reader.Rest())).value
      ensures reader.Rest() == DecodeAlternative(conf, alternatives, index, old(reader.Rest())).rest
      decreases alternatives, 0
    {
      hide Decode;
      if index == 0 {
        var code;
        code, item := DeserializeOne(alternatives.head);
      } else {
        item := DeserializeAlternative(alternatives.tail, index - 1);
      }
    }
  }

  function Behind(done: seq<Value>, d: Decoded<seq<Value>>): Decoded<seq<Value>> {
    Decoded(d.code, done + d.value, d.rest)
  }

  lemma BehindIs(done: seq<Value>, d: Decoded<seq<Value>>)
    ensures Behind(done, d) == Decoded(d.code, done + d.value, d.rest)
  {
  }

  lemma BehindNothing(d: Decoded<seq<Value>>)
    ensures Behind([], d) == d
  {
    assert [] + d.value == d.value;
  }

  lemma BehindTwice(done: seq<Value>, item: Value, d: Decoded<seq<Value>>)
    ensures Behind(done, Decoded(d.code, [item] + d.value, d.rest)) == Behind(done + [item], d)
  {
    assert done + ([item] + d.value) == done + [item] + d.value;
  }

  lemma FieldIsPositive(conf: Config, w: nat, input: seq<byte>)
    ensures var d := DecodeField(conf, w, input); d.code == Ok && w != 0 ==> d.value > 0
  {
  }
}
