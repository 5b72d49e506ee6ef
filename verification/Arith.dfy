/** Integer division by a variable, order and products of reals, and the conversion of a float to an int. */
module Arith {

  lemma ModuloStep(a: nat, l: nat)
    requires l > 0 && a % l == 0
    ensures (l + a) % l == 0
  {
    var k := a / l;
    assert a == l * k;
    assert l + a == l * (k + 1);
    MultipleHasNoRemainder(l, k + 1);
  }

  lemma {:induction false} MultipleHasNoRemainder(l: nat, k: nat)
    requires l > 0
    ensures (l * k) % l == 0
  {
    if k > 0 {
      MultipleHasNoRemainder(l, k - 1);
      assert l * k == l * (k - 1) + l;
      AddDivisor(l * (k - 1), l);
    }
  }

  lemma AddDivisor(a: nat, l: nat)
    requires l > 0
    ensures (a + l) % l == a % l
  {
    var q, r := a / l, a % l;
    assert a + l == l * (q + 1) + r;
    RemainderUnique(a + l, l, q + 1, r);
  }

  lemma RemainderUnique(x: nat, l: nat, q: nat, r: nat)
    requires l > 0 && x == l * q + r && r < l
    ensures x % l == r
  {
    var q', r' := x / l, x % l;
    assert x == l * q' + r';
    if q' < q {
      NextMultiple(l, q', q);
    } else if q' > q {
      NextMultiple(l, q, q');
    }
  }

  lemma NextMultiple(l: nat, a: int, b: int)
    requires a < b
    ensures l * a + l <= l * b
  {
    assert l * b == l * a + l + l * (b - a - 1);
  }

  lemma QuotientUnique(x: nat, l: nat, q: nat, r: nat)
    requires l > 0 && x == l * q + r && r < l
    ensures x / l == q && x % l == r
  {
    RemainderUnique(x, l, q, r);
    SameProduct(l, x / l, q);
  }

  lemma SameProduct(l: nat, a: int, b: int)
    requires l > 0 && l * a == l * b
    ensures a == b
  {
    if a < b {
      NextMultiple(l, a, b);
    } else if b < a {
      NextMultiple(l, b, a);
    }
  }

  lemma TimesLess(a: real, b: real, s: real)
    requires a < b && s > 0.0
    ensures a * s < b * s
  {
  }

  lemma TimesLessEq(a: real, b: real, s: real)
    requires a <= b && s >= 0.0
    ensures a * s <= b * s
  {
  }

  lemma SquareLess(a: real, b: real)
    requires 0.0 <= a < b
    ensures a * a < b * b
  {
    var p, r := b - a, b + a;
    assert p * r > 0.0;
    assert b * b - a * a == p * r;
  }

  lemma SquareZero(a: real, b: real)
    requires a * a + b * b == 0.0
    ensures a == 0.0
  {
    var s, t := a * a, b * b;
    if a > 0.0 {
      PositiveProduct(a, a, s);
    } else if a < 0.0 {
      PositiveProduct(-a, -a, s);
    }
    assert t >= 0.0;
  }

  lemma PositiveProduct(a: real, b: real, p: real)
    requires a > 0.0 && b > 0.0 && p == a * b
    ensures p > 0.0
  {
  }

  /** Conversion of a float to an int: the fraction is dropped. */
  function Truncate(r: real): int {
    if r >= 0.0 then r.Floor else -(-r).Floor
  }

  lemma TruncateBounds(r: real, n: int)
    ensures r <= n as real ==> Truncate(r) <= n
    ensures r >= n as real ==> Truncate(r) >= n
    ensures r == n as real ==> Truncate(r) == n
    ensures r >= 0.0 ==> Truncate(r) as real <= r
  {
  }

  /** A float sample read as an integer, after a nudge that absorbs an error just below it. */
  function ReadInt(x: real): int {
    Truncate(x + 0.001)
  }

  predicate BinarySample(x: real) {
    x == 0.0 || x == 1.0
  }

  /** A sample not more than a thousandth below a whole number is read as that number. */
  lemma ReadsNear(x: real, n: int)
    requires n > 0
    ensures ReadInt(x) == n <==> -0.001 <= x - n as real < 0.999
  {
  }

  lemma ReadsBits(x: real)
    ensures x == 0.0 ==> ReadInt(x) == 0
    ensures x == 1.0 ==> ReadInt(x) == 1
  {
  }
}
