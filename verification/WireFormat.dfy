/**
 Bytes, machine words and memory images, as the serializer puts them on the wire.
*/
module WireFormat {
  import opened Divisions

  type byte = b: nat | b < 256

  /** The serializer's configuration, and what it takes from the host: its byte order and the
      value of padding bytes, which C++ leaves unspecified. */
  datatype Config = Config(
    little: bool, hostLittle: bool, padding: byte,
    stringField: nat, arrayField: nat, unionField: nat, structField: nat)

  predicate WordWidth(w: nat) {
    w == 1 || w == 2 || w == 4 || w == 8
  }

  predicate ValidConfig(conf: Config) {
    && WordWidth(conf.stringField) && WordWidth(conf.arrayField)
    && (conf.unionField == 0 || WordWidth(conf.unionField))
    && (conf.structField == 0 || WordWidth(conf.structField))
  }

  /** How many numbers fit in `w` bytes. */
  function Power(w: nat): (p: nat)
    ensures p >= 1
    ensures w >= 1 ==> p >= 256
  {
    if w == 0 then 1 else 256 * Power(w - 1)
  }

  /** The low `w` bytes of a number, least significant first. */
  function Digits(w: nat, n: nat): (bs: seq<byte>)
    ensures |bs| == w
  {
    if w == 0 then [] else [n % 256] + Digits(w - 1, n / 256)
  }

  function Number(bs: seq<byte>): nat {
    if bs == [] then 0 else bs[0] + 256 * Number(bs[1..])
  }

  function Reversed(bs: seq<byte>): (r: seq<byte>)
    ensures |r| == |bs|
  {
    if bs == [] then [] else Reversed(bs[1..]) + [bs[0]]
  }

  /** A word in the host's memory. */
  function Image(conf: Config, w: nat, n: nat): (bs: seq<byte>)
    ensures |bs| == w
  {
    if conf.hostLittle then Digits(w, n) else Reversed(Digits(w, n))
  }

  function OfImage(conf: Config, bs: seq<byte>): nat {
    if conf.hostLittle then Number(bs) else Number(Reversed(bs))
  }

  /** `write_wrapper`: the little-endian configuration swaps the bytes of a word, whatever the
      host, and the big-endian one does not. */
  function Wire(conf: Config, w: nat, n: nat): (bs: seq<byte>)
    ensures |bs| == w
  {
    if conf.little && w != 1 then Reversed(Image(conf, w, n)) else Image(conf, w, n)
  }

  /** `read_wrapper`. */
  function OfWire(conf: Config, bs: seq<byte>): nat {
    if conf.little && |bs| != 1 then OfImage(conf, Reversed(bs)) else OfImage(conf, bs)
  }

  // ---------------------------------------------------------------------------------------
  // Reading back what was written

  lemma {:induction false} NumberOfDigits(w: nat, n: nat)
    requires n < Power(w)
    ensures Number(Digits(w, n)) == n
  {
    if w > 0 {
      assert n / 256 < Power(w - 1);
      NumberOfDigits(w - 1, n / 256);
      assert Digits(w, n)[1..] == Digits(w - 1, n / 256);
    }
  }

  /** A length that does not fit its field loses its high bytes. */
  lemma {:induction false} DigitsTruncate(w: nat, n: nat)
    ensures Digits(w, n) == Digits(w, n % Power(w))
  {
    if w > 0 {
      var p := Power(w - 1);
      SplitModulus(n, p);
      DigitsTruncate(w - 1, n / 256);
    }
  }

  lemma SplitModulus(n: nat, p: nat)
    requires p >= 1
    ensures n % (256 * p) % 256 == n % 256
    ensures n % (256 * p) / 256 == n / 256 % p
  {
    var q, r := n / 256, n % 256;
    var k, m := q / p, q % p;
    assert n == 256 * (k * p + m) + r;
    assert 256 * (k * p + m) + r == k * (256 * p) + (256 * m + r);
    assert 256 * m + r < 256 * p;
    assert n == k * (256 * p) + (256 * m + r) && 256 * m + r == m * 256 + r;
    DivModIs(256 * p, n, k, 256 * m + r);
    DivModIs(256, 256 * m + r, m, r);
  }

  lemma {:induction false} ReversedConcat(a: seq<byte>, b: seq<byte>)
    ensures Reversed(a + b) == Reversed(b) + Reversed(a)
  {
    if a == [] {
      assert a + b == b;
    } else {
      assert (a + b)[1..] == a[1..] + b;
      ReversedConcat(a[1..], b);
    }
  }

  lemma {:induction false} ReversedTwice(bs: seq<byte>)
    ensures Reversed(Reversed(bs)) == bs
  {
    if bs != [] {
      ReversedConcat(Reversed(bs[1..]), [bs[0]]);
      ReversedTwice(bs[1..]);
      assert bs == [bs[0]] + bs[1..];
    }
  }

  lemma ImageReadsBack(conf: Config, w: nat, n: nat)
    requires n < Power(w)
    ensures OfImage(conf, Image(conf, w, n)) == n
  {
    NumberOfDigits(w, n);
    ReversedTwice(Digits(w, n));
  }

  /** Both configurations read back the number they wrote, modulo the width of the field. */
  lemma WireReadsBack(conf: Config, w: nat, n: nat)
    ensures OfWire(conf, Wire(conf, w, n)) == n % Power(w)
  {
    DigitsTruncate(w, n);
    ImageReadsBack(conf, w, n % Power(w));
    ReversedTwice(Image(conf, w, n));
  }

  /** Words travel most significant byte first exactly if the configured order is the host's:
      a little-endian host with the little-endian configuration writes big-endian words. */
  lemma OrderOnTheWire(conf: Config, w: nat, n: nat)
    ensures Wire(conf, w, n) ==
      if conf.little == conf.hostLittle then Reversed(Digits(w, n)) else Digits(w, n)
  {
    ReversedTwice(Digits(w, n));
    if w == 1 {
      var one := Digits(1, n);
      assert one[1..] == [] && one == [one[0]];
    }
  }
}
