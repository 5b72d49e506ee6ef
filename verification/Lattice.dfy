/** The normalised lattice filter: exact rotations keep the energy; the fixed-point code with floor
    shifts adds at most 3/2 to the norm of the state per section and sample. */
module Lattice {
  import opened Kernel
  import opened Arith
  import opened Vectors

  // ------------------------------------------------------------------ exact rotations

  function EnergyR(s: seq<real>): (e: real)
    ensures e >= 0.0
  {
    if s == [] then 0.0 else EnergyR(s[..|s| - 1]) + s[|s| - 1] * s[|s| - 1]
  }

  lemma EnergySnocR(s: seq<real>, v: real)
    ensures EnergyR(s + [v]) == EnergyR(s) + v * v
  {
    assert (s + [v])[..|s|] == s;
  }

  /** What an exact section stores, and what it hands on, for the old cell a and the input x. */
  function Kept(a: real, x: real, c: real, k: real): real {
    a * c + k * x
  }

  function Carried(a: real, x: real, c: real, k: real): real {
    x * c - k * a
  }

  /** One pass over sections i, i-1, ..., 1 with exact coefficients: the new contents of cells 0..i. */
  function PassR(xb: seq<real>, c: seq<real>, k: seq<real>, i: nat, x: real): (s: seq<real>)
    requires i <= |xb| && i <= |c| && i <= |k|
    ensures |s| == i + 1
  {
    if i == 0 then [x]
    else
      PassR(xb, c, k, i - 1, Carried(xb[i - 1], x, c[i - 1], k[i - 1])) + [Kept(xb[i - 1], x, c[i - 1], k[i - 1])]
  }

  lemma Rotation(a: real, x: real, c: real, k: real)
    requires c * c + k * k == 1.0
    ensures var u, v := Kept(a, x, c, k), Carried(a, x, c, k);
            u * u + v * v == a * a + x * x
  {
    var u, v := a * c + k * x, x * c - k * a;
    assert u * u + v * v == (a * a + x * x) * (c * c + k * k) by { Expand(a, x, c, k); }
  }

  lemma Expand(a: real, x: real, c: real, k: real)
    ensures (a * c + k * x) * (a * c + k * x) + (x * c - k * a) * (x * c - k * a) == (a * a + x * x) * (c * c + k * k)
  {
  }

  lemma PassStepR(xb: seq<real>, c: seq<real>, k: seq<real>, i: nat, x: real)
    requires 0 < i <= |xb| && i <= |c| && i <= |k|
    ensures PassR(xb, c, k, i, x)
         == PassR(xb, c, k, i - 1, Carried(xb[i - 1], x, c[i - 1], k[i - 1])) + [Kept(xb[i - 1], x, c[i - 1], k[i - 1])]
  {
    hide Carried, Kept;
  }

  lemma PassEndR(xb: seq<real>, c: seq<real>, k: seq<real>, x: real)
    ensures EnergyR(PassR(xb, c, k, 0, x)) == EnergyR(xb[..0]) + x * x
  {
    EnergySnocR([], x);
    assert [] + [x] == [x];
  }

  lemma EnergyOfPrefixR(xb: seq<real>, i: nat)
    requires 0 < i <= |xb|
    ensures EnergyR(xb[..i]) == EnergyR(xb[..i - 1]) + xb[i - 1] * xb[i - 1]
  {
    assert xb[..i] == xb[..i - 1] + [xb[i - 1]];
    EnergySnocR(xb[..i - 1], xb[i - 1]);
  }

  /** Exact coefficients: the energy of the new state is that of the old cells 0..n-1 and the input. */
  lemma {:induction false} ExactEnergy(xb: seq<real>, c: seq<real>, k: seq<real>, i: nat, x: real)
    requires i <= |xb| && i <= |c| && i <= |k|
    requires forall j | 0 <= j < i :: c[j] * c[j] + k[j] * k[j] == 1.0
    ensures EnergyR(PassR(xb, c, k, i, x)) == EnergyR(xb[..i]) + x * x
  {
    hide *;
    if i == 0 {
      PassEndR(xb, c, k, x);
    } else {
      var u, v := Kept(xb[i - 1], x, c[i - 1], k[i - 1]), Carried(xb[i - 1], x, c[i - 1], k[i - 1]);
      ExactEnergy(xb, c, k, i - 1, v);
      Rotation(xb[i - 1], x, c[i - 1], k[i - 1]);
      PassStepR(xb, c, k, i, x);
      EnergySnocR(PassR(xb, c, k, i - 1, v), u);
      EnergyOfPrefixR(xb, i);
    }
  }

  // ------------------------------------------------------------------ fixed point

  function Energy(s: seq<int>): (e: int)
    ensures e >= 0
  {
    if s == [] then 0 else Energy(s[..|s| - 1]) + s[|s| - 1] * s[|s| - 1]
  }

  /** Arithmetic right shift: division rounded down; scale is 2^regBits. */
  function Shift(v: int, scale: nat): int
    requires scale > 0
  {
    v / scale
  }

  function Pass(xb: seq<int>, c: seq<int>, k: seq<int>, scale: nat, i: nat, x: int): (s: seq<int>)
    requires i <= |xb| && i <= |c| && i <= |k| && scale > 0
    ensures |s| == i + 1
  {
    if i == 0 then [x]
    else
      Pass(xb, c, k, scale, i - 1, Shift(x * c[i - 1] - k[i - 1] * xb[i - 1], scale))
      + [Shift(xb[i - 1] * c[i - 1] + k[i - 1] * x, scale)]
  }

  /** Coefficient pairs of a quantised rotation never exceed the scale. */
  ghost predicate Contracting(c: seq<int>, k: seq<int>, scale: nat) {
    |c| == |k| && forall j | 0 <= j < |c| :: c[j] * c[j] + k[j] * k[j] <= scale * scale
  }

  /** Rounding a rotated pair down: with |(a, x)| part of an energy below B^2, the new total stays
      below (B + 3/2)^2. */
  lemma SectionBound(a: int, x: int, c: int, k: int, scale: nat, rest: int, B: real)
    requires scale > 0 && c * c + k * k <= scale * scale && rest >= 0 && B >= 0.0
    requires (rest + a * a + x * x) as real <= B * B
    ensures var a', x' := Shift(a * c + k * x, scale), Shift(x * c - k * a, scale);
            (rest + a' * a' + x' * x') as real <= (B + 1.5) * (B + 1.5)
  {
    var q := scale as real;
    var A, X := a * c + k * x, x * c - k * a;
    var a', x' := Shift(A, scale), Shift(X, scale);
    var u, v := A as real / q, X as real / q;
    FloorOf(A, scale);
    FloorOf(X, scale);
    RotatedNorm(a, x, c, k, scale);
    var d1, d2 := u - a' as real, v - x' as real;
    RoundedPair(u, v, d1, d2, rest as real, B);
  }

  lemma FloorOf(A: int, scale: nat)
    requires scale > 0
    ensures 0.0 <= A as real / scale as real - Shift(A, scale) as real < 1.0
  {
    var q, m := A / scale, A % scale;
    RealOf(A, scale, q, m);
    QuotientTimes(A as real, scale as real);
    RatioOf(A as real / scale as real, scale as real, q as real, m as real);
  }

  lemma RealOf(A: int, s: nat, q: int, m: nat)
    requires A == s * q + m
    ensures A as real == q as real * s as real + m as real
  {
    assert (s * q) as real == q as real * s as real;
  }

  lemma QuotientTimes(a: real, s: real)
    requires s > 0.0
    ensures a / s * s == a
  {
  }

  lemma RatioOf(t: real, s: real, q: real, m: real)
    requires 0.0 <= m < s && t * s == q * s + m
    ensures q <= t < q + 1.0
  {
    var d := t - q;
    assert d * s == m;
    if d < 0.0 {
      TimesLess(d, 0.0, s);
    } else if d >= 1.0 {
      TimesLessEq(1.0, d, s);
    }
  }

  lemma RotatedNorm(a: int, x: int, c: int, k: int, scale: nat)
    requires scale > 0 && c * c + k * k <= scale * scale
    ensures var u, v := (a * c + k * x) as real / scale as real, (x * c - k * a) as real / scale as real;
            u * u + v * v <= (a * a + x * x) as real
  {
    var q := scale as real;
    var A, X := a * c + k * x, x * c - k * a;
    var u, v := A as real / q, X as real / q;
    assert A * A + X * X == (a * a + x * x) * (c * c + k * k) by { ExpandInt(a, x, c, k); }
    ScaleInt(a * a + x * x, c * c + k * k, scale * scale);
    assert u * q == A as real && v * q == X as real;
    assert (u * u + v * v) * (q * q) == (A * A + X * X) as real by { SquareScaled(u, v, q, A, X); }
    CancelPositive(u * u + v * v, (a * a + x * x) as real, q * q);
  }

  lemma ExpandInt(a: int, x: int, c: int, k: int)
    ensures (a * c + k * x) * (a * c + k * x) + (x * c - k * a) * (x * c - k * a) == (a * a + x * x) * (c * c + k * k)
  {
  }

  lemma ScaleInt(e: int, s: int, t: int)
    requires e >= 0 && s <= t
    ensures e * s <= e * t
  {
  }

  lemma SquareScaled(u: real, v: real, q: real, A: int, X: int)
    requires u * q == A as real && v * q == X as real
    ensures (u * u + v * v) * (q * q) == (A * A + X * X) as real
  {
    assert (u * u + v * v) * (q * q) == (u * q) * (u * q) + (v * q) * (v * q);
    assert (A * A) as real == A as real * A as real;
    assert (X * X) as real == X as real * X as real;
  }

  lemma CancelPositive(a: real, b: real, s: real)
    requires s > 0.0 && a * s <= b * s
    ensures a <= b
  {
    if a > b {
      TimesLess(b, a, s);
    }
  }

  lemma RoundedPair(u: real, v: real, d1: real, d2: real, rest: real, B: real)
    requires 0.0 <= d1 < 1.0 && 0.0 <= d2 < 1.0 && rest >= 0.0 && B >= 0.0
    requires rest + u * u + v * v <= B * B
    ensures rest + (u - d1) * (u - d1) + (v - d2) * (v - d2) <= (B + 1.5) * (B + 1.5)
  {
    var p, r := AbsR(u), AbsR(v);
    SumBound(u, v, B);
    assert -(u * d1) <= p by { Damped(u, d1); }
    assert -(v * d2) <= r by { Damped(v, d2); }
    TimesLessEq(d1, 1.0, d1);
    TimesLessEq(d2, 1.0, d2);
    assert (u - d1) * (u - d1) == u * u - 2.0 * (u * d1) + d1 * d1;
    assert (v - d2) * (v - d2) == v * v - 2.0 * (v * d2) + d2 * d2;
    assert (B + 1.5) * (B + 1.5) == B * B + 3.0 * B + 2.25;
  }

  function AbsR(v: real): (a: real)
    ensures a >= 0.0
  {
    if v >= 0.0 then v else -v
  }

  lemma Damped(u: real, d: real)
    requires 0.0 <= d < 1.0
    ensures -(u * d) <= AbsR(u)
  {
    if u >= 0.0 {
      TimesLessEq(0.0, u, d);
    } else {
      TimesLessEq(d, 1.0, -u);
    }
  }

  /** |u| + |v| is at most 3/2 of the norm. */
  lemma SumBound(u: real, v: real, B: real)
    requires u * u + v * v <= B * B && B >= 0.0
    ensures AbsR(u) + AbsR(v) <= 1.5 * B
  {
    var p, r := AbsR(u), AbsR(v);
    assert p * p == u * u && r * r == v * v;
    assert (p - r) * (p - r) >= 0.0;
    assert (p + r) * (p + r) <= 2.0 * (p * p + r * r);
    var t, b := p + r, 1.5 * B;
    assert b * b == 2.25 * (B * B);
    if t > b {
      SquareLess(b, t);
    }
  }

  lemma EnergySnoc(s: seq<int>, v: int)
    ensures Energy(s + [v]) == Energy(s) + v * v
  {
    assert (s + [v])[..|s|] == s;
  }

  /** The square of B plus 3/2 for each of i sections. */
  ghost function Bound(B: real, i: nat): real {
    (B + 1.5 * i as real) * (B + 1.5 * i as real)
  }

  lemma BoundStep(B: real, i: nat)
    ensures Bound(B, 0) == B * B && Bound(B + 1.5, 0) == (B + 1.5) * (B + 1.5)
    ensures i > 0 ==> Bound(B + 1.5, i - 1) == Bound(B, i)
  {
    if i > 0 {
      assert B + 1.5 + 1.5 * (i - 1) as real == B + 1.5 * i as real;
    }
  }

  lemma PassStep(xb: seq<int>, c: seq<int>, k: seq<int>, scale: nat, i: nat, x: int)
    requires 0 < i <= |xb| && i <= |c| && i <= |k| && scale > 0
    ensures var a' := Shift(xb[i - 1] * c[i - 1] + k[i - 1] * x, scale);
            var x' := Shift(x * c[i - 1] - k[i - 1] * xb[i - 1], scale);
            Pass(xb, c, k, scale, i, x) == Pass(xb, c, k, scale, i - 1, x') + [a']
  {
    hide Shift;
  }

  lemma PassEnd(xb: seq<int>, c: seq<int>, k: seq<int>, scale: nat, x: int)
    requires scale > 0
    ensures Pass(xb, c, k, scale, 0, x) == [x] && Energy([x]) == x * x && Energy(xb[..0]) == 0
  {
    EnergySnoc([], x);
    assert [] + [x] == [x];
  }

  lemma EnergyOfPrefix(xb: seq<int>, i: nat)
    requires 0 < i <= |xb|
    ensures Energy(xb[..i]) == Energy(xb[..i - 1]) + xb[i - 1] * xb[i - 1]
  {
    assert xb[..i] == xb[..i - 1] + [xb[i - 1]];
    EnergySnoc(xb[..i - 1], xb[i - 1]);
  }

  /** One pass of the integer code: if the old state and the input are within norm B, the new state is
      within B + 3/2 per section; `rest` is energy already fixed outside these cells. */
  lemma {:induction false} PassEnergy(xb: seq<int>, c: seq<int>, k: seq<int>, scale: nat, i: nat, x: int, rest: int,
                                      B: real)
    requires scale > 0 && Contracting(c, k, scale) && i <= |xb| && i <= |c|
    requires rest >= 0 && B >= 0.0 && (Energy(xb[..i]) + x * x + rest) as real <= Bound(B, 0)
    ensures (Energy(Pass(xb, c, k, scale, i, x)) + rest) as real <= Bound(B, i)
  {
    hide Energy, Pass, Shift, Bound;
    if i == 0 {
      PassEnd(xb, c, k, scale, x);
    } else {
      var a, C, K := xb[i - 1], c[i - 1], k[i - 1];
      var a', x' := Shift(a * C + K * x, scale), Shift(x * C - K * a, scale);
      BoundStep(B, i);
      EnergyOfPrefix(xb, i);
      SectionBound(a, x, C, K, scale, Energy(xb[..i - 1]) + rest, B);
      assert a' * a' >= 0;
      PassEnergy(xb, c, k, scale, i - 1, x', rest + a' * a', B + 1.5);
      PassStep(xb, c, k, scale, i, x);
      EnergySnoc(Pass(xb, c, k, scale, i - 1, x'), a');
    }
  }

  function AbsI(v: int): (a: int)
    ensures a >= 0
  {
    if v >= 0 then v else -v
  }

  /** The state bound in the form the filter promises it: R, then R + |x| + 3n/2. */
  lemma PassBound(xb: seq<int>, c: seq<int>, k: seq<int>, scale: nat, n: nat, x: int, R: real)
    requires scale > 0 && Contracting(c, k, scale) && |xb| == n + 1 && n == |c| && R >= 0.0
    requires Energy(xb) as real <= R * R
    ensures Energy(Pass(xb, c, k, scale, n, x)) as real <= Bound(R + AbsI(x) as real, n)
  {
    hide Energy, Pass, Bound;
    assert xb[..n + 1] == xb;
    EnergyOfPrefix(xb, n + 1);
    EnergyAtStart(Energy(xb[..n]), xb[n], x, R, R + AbsI(x) as real);
    PassEnergy(xb, c, k, scale, n, x, 0, R + AbsI(x) as real);
  }

  lemma EnergyAtStart(e: int, last: int, x: int, R: real, B: real)
    requires R >= 0.0 && B == R + AbsI(x) as real && (e + last * last) as real <= R * R
    ensures (e + x * x + 0) as real <= Bound(B, 0)
  {
    hide Bound;
    assert last * last >= 0;
    SquareOfSum(R, AbsI(x) as real);
    assert (x * x) as real == AbsI(x) as real * AbsI(x) as real;
    BoundStep(B, 0);
  }

  lemma SquareOfSum(a: real, b: real)
    requires a >= 0.0 && b >= 0.0
    ensures a * a + b * b <= (a + b) * (a + b)
  {
    assert (a + b) * (a + b) == a * a + 2.0 * (a * b) + b * b;
    assert a * b >= 0.0;
  }

  /** The state after the quantised inputs xs, from rest. */
  function StateAfter(c: seq<int>, k: seq<int>, scale: nat, xs: seq<int>): (s: seq<int>)
    requires |c| == |k| && scale > 0
    ensures |s| == |c| + 1
  {
    if xs == [] then seq(|c| + 1, _ => 0)
    else Pass(StateAfter(c, k, scale, xs[..|xs| - 1]), c, k, scale, |c|, xs[|xs| - 1])
  }

  function TotalInput(xs: seq<int>): (t: int)
    ensures t >= 0
  {
    if xs == [] then 0 else TotalInput(xs[..|xs| - 1]) + AbsI(xs[|xs| - 1])
  }

  lemma {:induction false} EnergyOfZeros(n: nat)
    ensures Energy(seq(n, _ => 0)) == 0
  {
    if n > 0 {
      EnergyOfZeros(n - 1);
      assert seq(n, _ => 0) == seq(n - 1, _ => 0) + [0];
      EnergySnoc(seq(n - 1, _ => 0), 0);
    }
  }

  /** The sum of the input magnitudes plus 3n/2 for every sample. */
  ghost function Budget(xs: seq<int>, n: nat): (b: real)
    ensures b >= 0.0
  {
    if xs == [] then 0.0 else Budget(xs[..|xs| - 1], n) + AbsI(xs[|xs| - 1]) as real + 1.5 * n as real
  }

  lemma {:induction false} BudgetIs(xs: seq<int>, n: nat)
    ensures Budget(xs, n) == TotalInput(xs) as real + 1.5 * n as real * |xs| as real
  {
    if xs != [] {
      BudgetIs(xs[..|xs| - 1], n);
      OneMoreSample(1.5 * n as real, |xs|);
    }
  }

  /** Whole runs: the norm of the state never exceeds the sum of the input magnitudes plus 3n/2 for
      every sample. */
  lemma {:induction false} RunBound(c: seq<int>, k: seq<int>, scale: nat, xs: seq<int>)
    requires scale > 0 && Contracting(c, k, scale)
    ensures Energy(StateAfter(c, k, scale, xs)) as real <= Budget(xs, |c|) * Budget(xs, |c|)
  {
    hide Energy, Pass, Bound;
    if xs == [] {
      EnergyOfZeros(|c| + 1);
    } else {
      var before, x := xs[..|xs| - 1], xs[|xs| - 1];
      RunBound(c, k, scale, before);
      var R := Budget(before, |c|);
      PassBound(StateAfter(c, k, scale, before), c, k, scale, |c|, x, R);
      BoundIs(R + AbsI(x) as real, |c|, Budget(xs, |c|));
    }
  }

  lemma BoundIs(B: real, n: nat, t: real)
    requires t == B + 1.5 * n as real
    ensures Bound(B, n) == t * t
  {
  }

  lemma OneMoreSample(p: real, n: nat)
    requires n > 0
    ensures p * (n - 1) as real + p == p * n as real
  {
  }

  /** A coefficient as it is stored: scaled and truncated towards zero. */
  function Stored(value: real, scale: nat): int {
    Truncate(value * scale as real)
  }

  /** It is the coefficient in units of the scale without its fraction: never larger in size, and less than one
      smaller. */
  lemma StoredNear(value: real, scale: nat)
    ensures var s, v := Stored(value, scale) as real, value * scale as real;
            AbsR(s) <= AbsR(v) < AbsR(s) + 1.0 && (v >= 0.0 ==> s >= 0.0) && (v <= 0.0 ==> s <= 0.0)
  {
  }

  /** Reading a coefficient: both parts of a unit rotation are truncated towards zero, so the stored
      pair stays within the scale. */
  lemma StoredPair(value: real, root: real, scale: nat)
    requires scale > 0 && root >= 0.0 && root * root == 1.0 - value * value
    ensures Stored(root, scale) * Stored(root, scale) + Stored(value, scale) * Stored(value, scale) <= scale * scale
  {
    hide *;
    StoredSquare(value, scale);
    StoredSquare(root, scale);
    ScaledPair(value, root, scale as real);
    ScaledSquare(Stored(root, scale), Stored(value, scale), scale, root * scale as real, value * scale as real);
  }

  lemma StoredSquare(value: real, scale: nat)
    ensures (Stored(value, scale) * Stored(value, scale)) as real <= (value * scale as real) * (value * scale as real)
  {
    hide Truncate;
    TruncateSquare(value * scale as real);
  }

  lemma ScaledSquare(c: int, k: int, scale: nat, p: real, r: real)
    requires (c * c) as real <= p * p && (k * k) as real <= r * r
    requires p * p + r * r == scale as real * scale as real
    ensures c * c + k * k <= scale * scale
  {
    var cc, kk, ss := c * c, k * k, scale * scale;
    assert ss as real == scale as real * scale as real;
    assert (cc + kk) as real == cc as real + kk as real;
    assert (cc + kk) as real <= ss as real;
  }

  lemma ScaledPair(value: real, root: real, q: real)
    requires root * root == 1.0 - value * value
    ensures (value * q) * (value * q) + (root * q) * (root * q) == q * q
  {
    assert (value * q) * (value * q) == (value * value) * (q * q);
    assert (root * q) * (root * q) == (root * root) * (q * q);
  }

  lemma TruncateSquare(r: real)
    ensures (Truncate(r) * Truncate(r)) as real <= r * r
  {
    var t := AbsI(Truncate(r)) as real;
    assert t <= AbsR(r);
    TimesLessEq(t, AbsR(r), t);
    TimesLessEq(t, AbsR(r), AbsR(r));
    assert (Truncate(r) * Truncate(r)) as real == t * t;
    assert AbsR(r) * AbsR(r) == r * r;
  }

  /** The cast binds before the scaling: a sample below 1 in magnitude is read as zero. */
  function QuantiseInput(xf: real, quant: nat, range: int): int
    requires range != 0
  {
    Truncate((Truncate(xf) * quant) as real / (2.0 * range as real))
  }

  lemma SmallInputsVanish(xf: real, quant: nat, range: int)
    requires range != 0 && -1.0 < xf < 1.0
    ensures QuantiseInput(xf, quant, range) == 0
  {
    assert Truncate(xf) == 0;
    assert 0.0 / (2.0 * range as real) == 0.0;
  }

  /** The sample the quantiser is meant for: scaled first, then truncated. */
  function ScaledInput(xf: real, quant: nat, range: int): int
    requires range != 0
  {
    Truncate(xf * quant as real / (2.0 * range as real))
  }

  lemma RealProduct(a: int, b: int)
    ensures (a * b) as real == a as real * b as real
  {
  }

  lemma QuotientCompares(a: real, s: real, b: real)
    requires s > 0.0
    ensures a / s < b <==> a < b * s
  {
    var t := a / s;
    QuotientTimes(a, s);
    if t < b {
      TimesLess(t, b, s);
    } else {
      TimesLessEq(b, t, s);
    }
  }

  /** The whole part of a quotient, by whole-number bounds. */
  lemma QuotientTruncates(a: real, k: nat, n: nat)
    requires k > 0 && (n * k) as real <= a < ((n + 1) * k) as real
    ensures Truncate(a / k as real) == n
  {
    RealProduct(n, k);
    RealProduct(n + 1, k);
    QuotientCompares(a, k as real, n as real);
    QuotientCompares(a, k as real, (n + 1) as real);
  }

  lemma QuotientPart(a: real, k: nat) returns (n: nat)
    requires k > 0 && a >= 0.0
    ensures (n * k) as real <= a < ((n + 1) * k) as real
  {
    QuotientCompares(a, k as real, 0.0);
    n := (a / k as real).Floor;
    RealProduct(n, k);
    RealProduct(n + 1, k);
    QuotientCompares(a, k as real, n as real);
    QuotientCompares(a, k as real, (n + 1) as real);
  }

  /** Dropping the fraction before a division by a whole number changes nothing. */
  lemma FloorFirst(x: real, k: nat)
    requires x >= 0.0 && k > 0
    ensures Truncate(Truncate(x) as real / k as real) == Truncate(x / k as real)
  {
    hide Truncate;
    var n := QuotientPart(x, k);
    TruncateWithin(x, n * k, (n + 1) * k);
    QuotientTruncates(x, k, n);
    QuotientTruncates(Truncate(x) as real, k, n);
  }

  lemma TruncateWithin(x: real, low: nat, high: nat)
    requires low as real <= x < high as real
    ensures low <= Truncate(x) < high && Truncate(x) as real <= x
  {
  }

  lemma TimesCommon(z: real, k: real, q: real, x: real, d: real)
    requires z * k == x && d == q * k
    ensures z * d == x * q
  {
    assert z * (q * k) == (z * k) * q;
  }

  lemma OneQuotient(a: real, d: real, z: real)
    requires d > 0.0 && z * d == a
    ensures a / d == z
  {
    QuotientCompares(a, d, z);
    if a / d > z {
      TimesLess(z, a / d, d);
      QuotientTimes(a, d);
    }
  }

  /** What is read, by a quotient known to be w. */
  lemma CodedIs(xf: real, quant: nat, range: int, w: real)
    requires range > 0 && w * (2.0 * range as real) == (Truncate(xf) * quant) as real
    ensures QuantiseInput(xf, quant, range) == Truncate(w)
  {
    hide Truncate;
    OneQuotient((Truncate(xf) * quant) as real, 2.0 * range as real, w);
  }

  lemma ScaledIs(xf: real, quant: nat, range: int, w: real)
    requires range > 0 && w * (2.0 * range as real) == xf * quant as real
    ensures ScaledInput(xf, quant, range) == Truncate(w)
  {
    hide Truncate;
    OneQuotient(xf * quant as real, 2.0 * range as real, w);
  }

  lemma BetweenMultiples(d: nat, l: nat) returns (n: nat)
    requires l > 0 && d % l != 0
    ensures n * l < d < (n + 1) * l
  {
    n := d / l;
    assert d == l * n + d % l;
  }

  /** An input on which the two differ when the number of levels does not divide twice the range: the
      smallest sample that should be read as one. */
  lemma FirstStepVanishes(quant: nat, range: int)
    requires quant > 0 && range > 0 && (2 * range) % quant != 0
    ensures QuantiseInput((2 * range) as real / quant as real, quant, range) == 0
    ensures ScaledInput((2 * range) as real / quant as real, quant, range) == 1
  {
    hide *;
    var n := BetweenMultiples(2 * range, quant);
    FirstStep(2 * range, quant, range, n, (2 * range) as real / quant as real, n * quant);
  }

  lemma FirstStep(d: nat, quant: nat, range: int, n: nat, xf: real, m: nat)
    requires quant > 0 && range > 0 && d == 2 * range && m == n * quant && m < d < (n + 1) * quant
    requires xf == d as real / quant as real
    ensures QuantiseInput(xf, quant, range) == 0 && ScaledInput(xf, quant, range) == 1
  {
    hide *;
    QuotientTruncates(d as real, quant, n);
    QuotientTimes(d as real, quant as real);
    QuotientTimes(m as real, d as real);
    QuotientTruncates(m as real, d, 0);
    CodedIs(xf, quant, range, m as real / d as real);
    ScaledIs(xf, quant, range, 1.0);
    TruncatesWhole(1);
  }

  lemma TruncatesWhole(n: int)
    ensures Truncate(n as real) == n
  {
  }

  /** Both readings are odd in the sample and in the range. */
  lemma OddReadings(xf: real, quant: nat, range: int)
    requires range != 0
    ensures QuantiseInput(-xf, quant, range) == -QuantiseInput(xf, quant, range) == QuantiseInput(xf, quant, -range)
    ensures ScaledInput(-xf, quant, range) == -ScaledInput(xf, quant, range) == ScaledInput(xf, quant, -range)
  {
    var d, t := 2.0 * range as real, Truncate(xf);
    OddTruncate(xf);
    OddTimes(t, quant);
    OddQuotient((t * quant) as real, d);
    OddQuotient(xf * quant as real, d);
    assert 2.0 * (-range) as real == -d;
    OddReal(xf, quant as real);
    hide Truncate;
  }

  lemma OddTruncate(x: real)
    ensures Truncate(-x) == -Truncate(x)
  {
  }

  lemma OddTimes(t: int, q: int)
    ensures (-t) * q == -(t * q) && ((-t) * q) as real == -((t * q) as real)
  {
  }

  lemma OddReal(x: real, q: real)
    ensures (-x) * q == -(x * q)
  {
  }

  lemma OddQuotient(a: real, d: real)
    requires d != 0.0
    ensures Truncate((-a) / d) == -Truncate(a / d) == Truncate(a / (-d))
  {
    NegatedQuotient(a, d);
    OddTruncate(a / d);
  }

  lemma NegatedQuotient(a: real, d: real)
    requires d != 0.0
    ensures (-a) / d == -(a / d) == a / (-d)
  {
  }

  ghost predicate ReadsRight(xf: real, quant: nat, range: int)
    requires range != 0
  {
    QuantiseInput(xf, quant, range) == ScaledInput(xf, quant, range)
  }

  /** Where the levels divide twice the range, truncating first is harmless. */
  lemma DividesReadsRight(xf: real, quant: nat, range: int)
    requires quant > 0 && range > 0 && (2 * range) % quant == 0 && xf >= 0.0
    ensures QuantiseInput(xf, quant, range) == ScaledInput(xf, quant, range)
  {
    hide *;
    var k := 2 * range / quant;
    var q, d, t := quant as real, 2.0 * range as real, Truncate(xf);
    assert 2 * range == quant * k && k > 0;
    RealProduct(quant, k);
    RealProduct(t, quant);
    QuotientTimes(xf, k as real);
    QuotientTimes(t as real, k as real);
    TimesCommon(xf / k as real, k as real, q, xf, d);
    TimesCommon(t as real / k as real, k as real, q, t as real, d);
    CodedIs(xf, quant, range, t as real / k as real);
    ScaledIs(xf, quant, range, xf / k as real);
    FloorFirst(xf, k);
  }

  /** The cast before the scaling is harmless for every sample exactly when the number of levels divides
      twice the range. */
  lemma QuantiserExactly(quant: nat, range: int)
    requires quant > 0 && range != 0
    ensures (forall xf :: ReadsRight(xf, quant, range)) <==> (2 * range) % quant == 0
  {
    hide QuantiseInput, ScaledInput;
    var r := if range > 0 then range else -range;
    SignlessRemainder(range, quant);
    if (2 * r) % quant == 0 {
      forall xf
        ensures ReadsRight(xf, quant, range)
      {
        var x := if xf >= 0.0 then xf else -xf;
        DividesReadsRight(x, quant, r);
        OddReadings(x, quant, r);
        OddReadings(-x, quant, r);
      }
    } else {
      var xf := (2 * r) as real / quant as real;
      FirstStepVanishes(quant, r);
      OddReadings(xf, quant, r);
      assert !ReadsRight(xf, quant, range);
    }
  }

  lemma SignlessRemainder(range: int, quant: nat)
    requires quant > 0
    ensures (2 * range) % quant == 0 <==> (2 * -range) % quant == 0
  {
    if (2 * range) % quant == 0 {
      NegatedMultiple(2 * range, quant);
    }
    if (2 * -range) % quant == 0 {
      NegatedMultiple(2 * -range, quant);
    }
  }

  lemma NegatedMultiple(a: int, l: nat)
    requires l > 0 && a % l == 0
    ensures (-a) % l == 0
  {
    var k := a / l;
    assert a == l * k && -a == l * -k;
    var q, r := (-a) / l, (-a) % l;
    assert -a == l * q + r;
    if q < -k {
      NextMultiple(l, q, -k);
    } else if q > -k {
      NextMultiple(l, -k, q);
    }
  }

  // ------------------------------------------------------------------ the block

  class Fxnl {
    const n: nat
    const scale: nat
    const quant: nat
    const quantRange: int
    const wsc: real
    const wnorm: real
    const k: array<int>
    const c: array<int>
    const nu: array<int>
    const xb: array<int>
    ghost var seen: seq<int>

    ghost predicate Valid()
      reads this, k, c, nu, xb
    {
      && scale > 0 && quant > 0 && quantRange != 0 && wnorm != 0.0
      && k.Length == c.Length == n && nu.Length == xb.Length == n + 1
      && xb != k && xb != c && xb != nu
      && Contracting(c[..], k[..], scale)
      && xb[..] == StateAfter(c[..], k[..], scale, seen)
    }

    /** Reads the filter: each reflection coefficient and the root of one minus its square are stored
        scaled and truncated, and the state starts at rest. */
    constructor (ks: seq<real>, roots: seq<real>, nus: seq<real>, regScale: nat, quantLevels: nat, range: int,
                 outScale: real, norm: real)
      requires regScale > 0 && quantLevels > 0 && range != 0 && norm != 0.0
      requires |ks| == |roots| && |nus| == |ks| + 1
      requires forall j | 0 <= j < |ks| :: roots[j] >= 0.0 && roots[j] * roots[j] == 1.0 - ks[j] * ks[j]
      ensures Valid() && seen == [] && n == |ks| && scale == regScale && quant == quantLevels && quantRange == range
      ensures wsc == outScale && wnorm == norm && fresh(k) && fresh(c) && fresh(nu) && fresh(xb)
      ensures forall j | 0 <= j < n :: k[j] == Stored(ks[j], scale) && c[j] == Stored(roots[j], scale)
      ensures forall j | 0 <= j <= n :: nu[j] == Stored(nus[j], scale)
    {
      hide Stored, Energy;
      n, scale, quant, quantRange, wsc, wnorm := |ks|, regScale, quantLevels, range, outScale, norm;
      k := new int[|ks|](i requires 0 <= i < |ks| => Stored(ks[i], regScale));
      c := new int[|ks|](i requires 0 <= i < |ks| && |roots| == |ks| => Stored(roots[i], regScale));
      nu := new int[|nus|](i requires 0 <= i < |nus| => Stored(nus[i], regScale));
      xb := new int[|ks| + 1](_ => 0);
      seen := [];
      new;
      forall j | 0 <= j < |ks|
        ensures c[j] * c[j] + k[j] * k[j] <= scale * scale
      {
        StoredPair(ks[j], roots[j], scale);
      }
    }

    /** The promise about every reachable state of the block. */
    lemma StateWithinBudget()
      requires Valid()
      ensures Energy(xb[..]) as real <= Budget(seen, n) * Budget(seen, n)
    {
      hide Energy, Budget, StateAfter, Contracting;
      RunBound(c[..], k[..], scale, seen);
    }

    /** The in-place pass: cells are overwritten from the last one down. */
    method RunSections(x: int)
      requires scale > 0 && k.Length == c.Length == n && xb.Length == n + 1 && xb != k && xb != c
      modifies xb
      ensures xb[..] == Pass(old(xb[..]), c[..], k[..], scale, n, x)
    {
      hide Shift, Pass;
      var xfq, m := x, 0;
      ghost var before, C, K := xb[..], c[..], k[..];
      ghost var all := Pass(before, C, K, scale, n, x);
      assert xb[n + 1..] == [] && all + [] == all;
      while m < n
        invariant 0 <= m <= n && c[..] == C && k[..] == K
        invariant xb[..n - m + 1] == before[..n - m + 1]
        invariant all == Pass(before, C, K, scale, n - m, xfq) + xb[n - m + 1..]
      {
        var i := n - m;
        PassStep(before, C, K, scale, i, xfq);
        assert xb[i - 1] == before[i - 1] && c[i - 1] == C[i - 1] && k[i - 1] == K[i - 1];
        var r := Shift(xb[i - 1] * c[i - 1] + k[i - 1] * xfq, scale);
        ghost var tail := xb[i + 1..];
        xb[i] := r;
        xfq := Shift(xfq * c[i - 1] - k[i - 1] * xb[i - 1], scale);
        assert xb[i..] == [r] + tail;
        m := m + 1;
      }
      PassEnd(before, C, K, scale, xfq);
      xb[0] := xfq;
      assert xb[..] == [xfq] + xb[1..];
    }

    /** The state takes in one quantised sample. */
    method Advance(x: int)
      requires Valid()
      modifies xb, this`seen
      ensures Valid() && seen == old(seen) + [x]
    {
      hide Contracting, StateAfter, Shift, Pass;
      RunSections(x);
      UnfoldState(c[..], k[..], scale, seen, x);
      seen := seen + [x];
    }

    /** The float sample put out for one state. */
    function Scaled(sum: int): real
      requires scale > 0 && wnorm != 0.0 && quant > 0
    {
      Shift(sum, scale) as real * wsc / wnorm * quantRange as real * 2.0 / quant as real
    }

    /** Output t of the run. */
    ghost function OutputAt(xs: seq<int>, t: nat): real
      requires t < |xs| && Valid()
      reads this, k, c, nu, xb
    {
      Scaled(DotInt(StateAfter(c[..], k[..], scale, xs[..t + 1]), nu[..], n + 1))
    }

    ghost function Outputs(xs: seq<int>): (y: seq<real>)
      requires Valid()
      reads this, k, c, nu, xb
      ensures |y| == |xs|
    {
      seq(|xs|, t requires 0 <= t < |xs| && Valid() reads this, k, c, nu, xb => OutputAt(xs, t))
    }

    method Output() returns (y: real)
      requires Valid() && seen != []
      ensures y == OutputAt(seen, |seen| - 1)
    {
      hide StateAfter, Contracting, Shift;
      var sum, m := 0, 0;
      while m < n + 1
        invariant 0 <= m <= n + 1 && sum == DotInt(xb[..], nu[..], m)
      {
        sum := sum + xb[m] * nu[m];
        m := m + 1;
      }
      assert seen[..|seen| - 1 + 1] == seen;
      return Scaled(sum);
    }

    lemma OutputsSnoc(before: seq<int>, x: int)
      requires Valid()
      ensures Outputs(before + [x]) == Outputs(before) + [OutputAt(before + [x], |before|)]
    {
      hide StateAfter, Contracting, Shift;
      forall t: nat | t < |before|
        ensures OutputAt(before + [x], t) == OutputAt(before, t)
      {
        assert (before + [x])[..t + 1] == before[..t + 1];
      }
    }

    /** One sample: quantised, passed through the lattice, and answered. */
    method Respond(xf: real, out: OutBuffer<real>) returns (full: bool)
      requires Valid()
      modifies xb, this`seen, out
      ensures Valid() && seen == old(seen) + [QuantiseInput(xf, quant, quantRange)]
      ensures Outputs(seen) == old(Outputs(seen)) + [OutputAt(seen, |seen| - 1)]
      ensures out.cells == old(out.cells) + (if full then [] else [OutputAt(seen, |seen| - 1)])
    {
      hide Contracting, StateAfter, QuantiseInput;
      ghost var before, y0 := seen, Outputs(seen);
      var x := QuantiseInput(xf, quant, quantRange);
      Advance(x);
      assert Outputs(before) == y0;
      OutputsSnoc(before, x);
      var y := Output();
      full := out.Put(y);
    }

    lemma OutputsLength(xs: seq<int>)
      requires Valid()
      ensures |Outputs(xs)| == |xs|
    {
    }

    lemma HasRange()
      requires Valid()
      ensures quantRange != 0
    {
    }

    /** One visit with float buffers: every sample is quantised, passed through the lattice and
        answered with the weighted sum of the state it leaves. */
    method MainCode(inp: InBuffer<real>, out: OutBuffer<real>) returns (status: int, ghost used: seq<real>)
      requires Valid()
      modifies xb, this`seen, inp, out
      ensures Valid() && (status == 0 || status == 99) && quantRange != 0
      ensures old(inp.pending) == used + inp.pending && seen == old(seen) + Quantised(used, quant, quantRange)
      ensures var y := Outputs(seen)[|old(seen)|..];
              if status == 0 then inp.pending == [] && out.cells == old(out.cells) + y
              else y != [] && out.cells == old(out.cells) + y[..|y| - 1]
    {
      hide *;
      HasRange();
      used := [];
      ghost var s0 := seen;
      OutputsLength(s0);
      QuantisedSnoc([], 0.0, quant, quantRange);
      while inp.pending != []
        invariant Valid() && old(inp.pending) == used + inp.pending
        invariant seen == s0 + Quantised(used, quant, quantRange) && |Outputs(seen)| == |seen|
        invariant out.cells == old(out.cells) + Outputs(seen)[|s0|..]
        decreases |inp.pending|
      {
        var xf := inp.Take();
        ghost var y0 := Outputs(seen);
        QuantisedSnoc(used, xf, quant, quantRange);
        used := used + [xf];
        var full := Respond(xf, out);
        OutputsLength(seen);
        LastCell(y0, OutputAt(seen, |seen| - 1), |s0|);
        if full {
          return 99, used;
        }
      }
      return 0, used;
    }
  }

  lemma QuantisedSnoc(xs: seq<real>, x: real, quant: nat, range: int)
    requires range != 0
    ensures Quantised(xs + [x], quant, range) == Quantised(xs, quant, range) + [QuantiseInput(x, quant, range)]
    ensures Quantised([], quant, range) == []
  {
    hide QuantiseInput;
  }

  function Quantised(xs: seq<real>, quant: nat, range: int): (q: seq<int>)
    requires range != 0
    ensures |q| == |xs|
  {
    seq(|xs|, i requires 0 <= i < |xs| => QuantiseInput(xs[i], quant, range))
  }

  lemma UnfoldState(c: seq<int>, k: seq<int>, scale: nat, xs: seq<int>, x: int)
    requires |c| == |k| && scale > 0
    ensures StateAfter(c, k, scale, xs + [x]) == Pass(StateAfter(c, k, scale, xs), c, k, scale, |c|, x)
  {
    assert (xs + [x])[..|xs|] == xs;
  }
}
