/**
 What the serializer writes and what the deserializer reads, as functions.

 Every overload of `serialize_one_helper` and `deserialize_one_helper` is a case of `Encode` and
 `Decode`; the methods of `Serializer.dfy` are proved against them.
*/
module SerializerFormat {
  import opened WireFormat
  import opened Schemas

  datatype Code = Ok | NoBufferSpace | InvalidBuffer | LengthError

  /** The result of a read: its return code, the target afterwards and the unread bytes. */
  datatype Decoded<T> = Decoded(code: Code, value: T, rest: seq<byte>)

  /** Elements of this type are copied as one block of memory: nothing would have to be swapped,
      or there is nothing to swap. */
  predicate Blocks(conf: Config, e: Schema) {
    Trivial(e) && ((conf.little && conf.hostLittle) || SizeOf(e) == 1)
  }

  // ---------------------------------------------------------------------------------------
  // The size computed before writing

  datatype SizeInfo = SizeInfo(total: nat, lengthField: nat)

  function Plus(a: SizeInfo, b: SizeInfo): SizeInfo {
    SizeInfo(a.total + b.total, a.lengthField + b.lengthField)
  }

  /** `calculate_one_size`. */
  function SizeInfoOf(conf: Config, s: Schema, v: Value): SizeInfo
    decreases s, 0
  {
    match s
    case Scalar(width) => SizeInfo(width, 0)
    case Text => SizeInfo(|CharsOf(v)| + 1, conf.stringField)
    case Array(size, element) =>
      if Trivial(element) then SizeInfo(SizeOf(s), 0)
      else EachSizeInfo(conf, element, ItemsOf(v))
    case Container(kind, element) =>
      if kind == Vector && Trivial(element) then SizeInfo(Times(|ItemsOf(v)|, SizeOf(element)), conf.arrayField)
      else Plus(SizeInfo(0, conf.arrayField), EachSizeInfo(conf, element, ItemsOf(v)))
    case Group(group, parts) =>
      Plus(SizeInfo(0, if group == Struct then conf.structField else 0), PartsSizeInfo(conf, parts, ItemsOf(v)))
    case Variant(alternatives) =>
      Plus(SizeInfo(0, conf.unionField), AlternativeSizeInfo(conf, alternatives, IndexOf(v), ItemOf(v)))
    case Pointer(target) => SizeInfoOf(conf, target, ItemOf(v))
  }

  function EachSizeInfo(conf: Config, e: Schema, vs: seq<Value>): SizeInfo
    decreases e, |vs| + 1
  {
    if vs == [] then SizeInfo(0, 0)
    else Plus(SizeInfoOf(conf, e, vs[0]), EachSizeInfo(conf, e, vs[1..]))
  }

  function PartsSizeInfo(conf: Config, parts: Schemas, vs: seq<Value>): SizeInfo
    decreases parts, 0
  {
    if parts.Nil? || vs == [] then SizeInfo(0, 0)
    else Plus(SizeInfoOf(conf, parts.head, vs[0]), PartsSizeInfo(conf, parts.tail, vs[1..]))
  }

  function AlternativeSizeInfo(conf: Config, alternatives: Schemas, index: nat, v: Value): SizeInfo
    decreases alternatives, 0
  {
    if alternatives.Nil? then SizeInfo(0, 0)
    else if index == 0 then SizeInfoOf(conf, alternatives.head, v)
    else AlternativeSizeInfo(conf, alternatives.tail, index - 1, v)
  }

  /** `get_serialize_runtime_info` of one object. */
  function RuntimeInfo(conf: Config, s: Schema, v: Value): nat {
    SizeInfoOf(conf, s, v).total + SizeInfoOf(conf, s, v).lengthField
  }

  function CharsOf(v: Value): seq<byte> { if v.Str? then v.chars else [] }

  function ItemsOf(v: Value): seq<Value> { if v.Many? then v.items else [] }

  function IndexOf(v: Value): nat { if v.Choice? then v.index else 0 }

  function ItemOf(v: Value): Value {
    if v.Choice? then v.item else if v.Ref? then v.pointee else v
  }

  // ---------------------------------------------------------------------------------------
  // Writing

  function Encode(conf: Config, s: Schema, v: Value): seq<byte>
    decreases s, 0
  {
    match s
    case Scalar(width) => Wire(conf, width, if v.Num? then v.bits else 0)
    case Text => Wire(conf, conf.stringField, |CharsOf(v)| + 1) + CharsOf(v)
    case Array(_, element) => EncodeItems(conf, element, ItemsOf(v), Blocks(conf, element))
    case Container(kind, element) =>
      Wire(conf, conf.arrayField, |ItemsOf(v)|)
        + EncodeItems(conf, element, ItemsOf(v), kind == Vector && Blocks(conf, element))
    case Group(group, parts) =>
      (if group == Struct then Wire(conf, conf.structField, RuntimeInfo(conf, s, v)) else [])
        + EncodeParts(conf, parts, ItemsOf(v))
    case Variant(alternatives) =>
      Wire(conf, conf.unionField, IndexOf(v)) + EncodeAlternative(conf, alternatives, IndexOf(v), ItemOf(v))
    case Pointer(target) => Encode(conf, target, ItemOf(v))
  }

  function EncodeItems(conf: Config, e: Schema, vs: seq<Value>, block: bool): seq<byte>
    decreases e, |vs| + 2
  {
    if block then LayoutEach(conf, e, vs) else EncodeEach(conf, e, vs)
  }

  function EncodeEach(conf: Config, e: Schema, vs: seq<Value>): seq<byte>
    decreases e, |vs| + 1
  {
    if vs == [] then [] else Encode(conf, e, vs[0]) + EncodeEach(conf, e, vs[1..])
  }

  function EncodeParts(conf: Config, parts: Schemas, vs: seq<Value>): seq<byte>
    decreases parts, 0
  {
    if parts.Nil? || vs == [] then []
    else Encode(conf, parts.head, vs[0]) + EncodeParts(conf, parts.tail, vs[1..])
  }

  function EncodeAlternative(conf: Config, alternatives: Schemas, index: nat, v: Value): seq<byte>
    decreases alternatives, 0
  {
    if alternatives.Nil? then []
    else if index == 0 then Encode(conf, alternatives.head, v)
    else EncodeAlternative(conf, alternatives.tail, index - 1, v)
  }

  // ---------------------------------------------------------------------------------------
  // Reading, into freshly constructed targets

  /** `deserialize_length_field`: a zero in a field of non-zero width is an error. */
  function DecodeField(conf: Config, w: nat, input: seq<byte>): Decoded<nat> {
    if w == 0 then Decoded(Ok, 0, input)
    else if |input| < w then Decoded(NoBufferSpace, 0, input)
    else
      var n := OfWire(conf, input[..w]);
      Decoded(if n == 0 then LengthError else Ok, n, input[w..])
  }

  function Decode(conf: Config, s: Schema, input: seq<byte>): Decoded<Value>
    decreases s, 0
  {
    match s
    case Scalar(width) =>
      if |input| < width then Decoded(NoBufferSpace, Default(s), input)
      else Decoded(Ok, Num(OfWire(conf, input[..width])), input[width..])
    case Text => DecodeText(conf, DecodeField(conf, conf.stringField, input))
    case Array(size, element) => ToMany(DecodeItems(conf, element, size, input, Blocks(conf, element)))
    case Container(kind, element) =>
      var field := DecodeField(conf, conf.arrayField, input);
      if field.code != Ok then Decoded(field.code, Default(s), field.rest)
      else if kind.Set? || kind.Map? then ToMany(DecodeInto(conf, kind, element, field.value, field.rest, []))
      else ToMany(DecodeItems(conf, element, field.value, field.rest, kind == Vector && Blocks(conf, element)))
    case Group(group, parts) =>
      if group != Struct then ToMany(DecodeParts(conf, parts, input))
      else
        var field := DecodeField(conf, conf.structField, input);
        if field.code != Ok then Decoded(field.code, Default(s), field.rest)
        else ToMany(DecodeMembers(conf, parts, field.rest))
    case Variant(alternatives) =>
      var field := DecodeField(conf, conf.unionField, input);
      if field.code != Ok then Decoded(field.code, Default(s), field.rest)
      else if field.value >= Count(alternatives) then Decoded(InvalidBuffer, Default(s), field.rest)
      else
        var d := DecodeAlternative(conf, alternatives, field.value, field.rest);
        Decoded(Ok, Choice(field.value, d.value), d.rest)
    case Pointer(target) =>
      var d := Decode(conf, target, input);
      Decoded(Ok, Ref(d.value), d.rest)
  }

  function DecodeText(conf: Config, field: Decoded<nat>): Decoded<Value> {
    if field.code != Ok || field.value == 0 then Decoded(field.code, Str([]), field.rest)
    else if |field.rest| < field.value - 1 then Decoded(NoBufferSpace, Str(Repeat<byte>(field.value - 1, 0)), field.rest)
    else Decoded(Ok, Str(field.rest[..field.value - 1]), field.rest[field.value - 1..])
  }

  function ToMany(d: Decoded<seq<Value>>): Decoded<Value> {
    Decoded(d.code, Many(d.value), d.rest)
  }

  /** `n` elements of an array or of a container that has been resized to `n`. */
  function DecodeItems(conf: Config, e: Schema, n: nat, input: seq<byte>, block: bool): Decoded<seq<Value>>
    decreases e, n + 2
  {
    if !block then DecodeEach(conf, e, n, input)
    else
      var size := Times(n, SizeOf(e));
      if |input| < size then Decoded(NoBufferSpace, Repeat(n, Default(e)), input)
      else Decoded(Ok, OfLayoutEach(conf, e, n, input[..size]), input[size..])
  }

  function DecodeEach(conf: Config, e: Schema, n: nat, input: seq<byte>): Decoded<seq<Value>>
    decreases e, n + 1
  {
    if n == 0 then Decoded(Ok, [], input)
    else
      var d := Decode(conf, e, input);
      if d.code != Ok then Decoded(d.code, [d.value] + Repeat(n - 1, Default(e)), d.rest)
      else
        var ds := DecodeEach(conf, e, n - 1, d.rest);
        Decoded(ds.code, [d.value] + ds.value, ds.rest)
  }

  /** `emplace`: an element whose key is present is dropped. */
  function Emplace(kind: ContainerKind, items: seq<Value>, v: Value): seq<Value> {
    if HoldsKey(kind, items, v) then items else items + [v]
  }

  /** `n` elements put into a set or map. */
  function DecodeInto(conf: Config, kind: ContainerKind, e: Schema, n: nat, input: seq<byte>, items: seq<Value>)
    : Decoded<seq<Value>>
    decreases e, n + 1
  {
    if n == 0 then Decoded(Ok, items, input)
    else
      var d := Decode(conf, e, input);
      if d.code != Ok then Decoded(d.code, items, d.rest)
      else DecodeInto(conf, kind, e, n - 1, d.rest, Emplace(kind, items, d.value))
  }

  /** `deserialize_many`: stops at the first error. */
  function DecodeParts(conf: Config, parts: Schemas, input: seq<byte>): Decoded<seq<Value>>
    decreases parts, 0
  {
    if parts.Nil? then Decoded(Ok, [], input)
    else
      var d := Decode(conf, parts.head, input);
      if d.code != Ok then Decoded(d.code, [d.value] + DefaultParts(parts.tail), d.rest)
      else
        var ds := DecodeParts(conf, parts.tail, d.rest);
        Decoded(ds.code, [d.value] + ds.value, ds.rest)
  }

  /** The members of a struct: all are read, and their return codes dropped. */
  function DecodeMembers(conf: Config, parts: Schemas, input: seq<byte>): (r: Decoded<seq<Value>>)
    ensures r.code == Ok
    decreases parts, 0
  {
    if parts.Nil? then Decoded(Ok, [], input)
    else
      var d := Decode(conf, parts.head, input);
      var ds := DecodeMembers(conf, parts.tail, d.rest);
      Decoded(Ok, [d.value] + ds.value, ds.rest)
  }

  function DecodeAlternative(conf: Config, alternatives: Schemas, index: nat, input: seq<byte>): Decoded<Value>
    decreases alternatives, 0
  {
    if alternatives.Nil? then Decoded(Ok, Null, input)
    else if index == 0 then Decode(conf, alternatives.head, input)
    else DecodeAlternative(conf, alternatives.tail, index - 1, input)
  }
}
