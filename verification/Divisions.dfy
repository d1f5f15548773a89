/**
 Quotients and remainders, from their uniqueness.
*/
module Divisions {

  lemma SmallDivMod(c: nat, v: nat)
    requires v < c
    ensures v / c == 0 && v % c == v
  {
  }

  lemma LapsAtLeast(d: nat, c: nat)
    requires d >= 1
    ensures d * c >= c
  {
    assert d * c == (d - 1) * c + c;
  }

  lemma DivModUnique(c: nat, q: nat, r: nat, q': nat, r': nat)
    requires r < c && r' < c && q * c + r == q' * c + r'
    ensures q == q' && r == r'
  {
    var d := if q >= q' then q - q' else q' - q;
    if q > q' {
      assert q * c - q' * c == d * c;
      LapsAtLeast(d, c);
    } else if q < q' {
      assert q' * c - q * c == d * c;
      LapsAtLeast(d, c);
    }
  }

  lemma DivModIs(c: nat, v: nat, q: nat, r: nat)
    requires r < c && v == q * c + r
    ensures v / c == q && v % c == r
  {
    DivModUnique(c, q, r, v / c, v % c);
  }

  lemma ModShift(c: nat, a: nat, b: nat)
    requires c >= 1
    ensures (a % c + b) % c == (a + b) % c
  {
    var q, r := (a % c + b) / c, (a % c + b) % c;
    assert a == (a / c) * c + a % c && a % c + b == q * c + r;
    assert (a / c + q) * c == (a / c) * c + q * c;
    DivModIs(c, a + b, a / c + q, r);
  }

  lemma DropLap(c: nat, v: nat)
    requires c >= 1 && v >= c
    ensures v / c == (v - c) / c + 1 && v % c == (v - c) % c
  {
    var q, r := (v - c) / c, (v - c) % c;
    assert v == (q + 1) * c + r && v == (v / c) * c + v % c;
    DivModUnique(c, q + 1, r, v / c, v % c);
  }

  lemma DivMod(c: nat, v: nat)
    requires c >= 1
    ensures v == (v / c) * c + v % c && 0 <= v % c < c && v / c >= 0
  {
  }
}
