/** The lattice against its direct form: with exact rotations the state obeys the all-pole difference equation of
    the polynomial its reflection coefficients generate, and the fixed-point code stays near that state. */
module LatticeForm {
  import opened Arith
  import opened Vectors
  import opened DelayLine
  import opened Lattice

  /** The state of the exact lattice after the samples xs, from rest. */
  ghost function StateR(c: seq<real>, k: seq<real>, xs: seq<real>): (s: seq<real>)
    requires |c| == |k|
    ensures |s| == |c| + 1
  {
    if xs == [] then seq(|c| + 1, _ => 0.0)
    else PassR(StateR(c, k, xs[..|xs| - 1]), c, k, |c|, xs[|xs| - 1])
  }

  // ------------------------------------------------------------------ the direct form

  /** What enters section i during a pass, counted from the input end. */
  ghost function Inner(xb: seq<real>, c: seq<real>, k: seq<real>, x: real, i: nat): real
    requires |c| == |k| && |xb| == |c| + 1 && i <= |c|
    decreases |c| - i
  {
    if i == |c| then x
    else
      var y := Inner(xb, c, k, x, i + 1);
      Carried(xb[i], y, c[i], k[i])
  }

  lemma {:induction false} PassInside(xb: seq<real>, c: seq<real>, k: seq<real>, x: real, i: nat)
    requires |c| == |k| && |xb| == |c| + 1 && i <= |c|
    ensures PassR(xb, c, k, |c|, x)[..i + 1] == PassR(xb, c, k, i, Inner(xb, c, k, x, i))
    decreases |c| - i
  {
    hide PassR;
    var all := PassR(xb, c, k, |c|, x);
    PassLengthR(xb, c, k, |c|, x);
    if i < |c| {
      PassInside(xb, c, k, x, i + 1);
      var y := Inner(xb, c, k, x, i + 1);
      PassStepR(xb, c, k, i + 1, y);
      PassLengthR(xb, c, k, i, Inner(xb, c, k, x, i));
      assert all[..i + 1] == all[..i + 2][..i + 1];
    } else {
      assert all[..i + 1] == all;
    }
  }

  lemma PassLengthR(xb: seq<real>, c: seq<real>, k: seq<real>, i: nat, x: real)
    requires i <= |xb| && i <= |c| && i <= |k|
    ensures |PassR(xb, c, k, i, x)| == i + 1
  {
  }

  /** The cells after a pass. */
  lemma PassCell(xb: seq<real>, c: seq<real>, k: seq<real>, x: real, i: nat)
    requires |c| == |k| && |xb| == |c| + 1 && i <= |c|
    ensures PassR(xb, c, k, |c|, x)[i]
         == if i == 0 then Inner(xb, c, k, x, 0) else Kept(xb[i - 1], Inner(xb, c, k, x, i), c[i - 1], k[i - 1])
  {
    PassInside(xb, c, k, x, i);
    var y := Inner(xb, c, k, x, i);
    if i > 0 {
      PassStepR(xb, c, k, i, y);
    }
    assert PassR(xb, c, k, |c|, x)[i] == PassR(xb, c, k, |c|, x)[..i + 1][i];
  }

  /** Cell i after sample t, and what entered section i at sample t; zero before the run. */
  ghost function Cell(c: seq<real>, k: seq<real>, xs: seq<real>, i: nat, t: int): real
    requires |c| == |k| && i <= |c| && t < |xs|
  {
    if t < 0 then 0.0 else StateR(c, k, xs[..t + 1])[i]
  }

  ghost function Entering(c: seq<real>, k: seq<real>, xs: seq<real>, i: nat, t: int): real
    requires |c| == |k| && i <= |c| && t < |xs|
  {
    if t < 0 then 0.0 else Inner(StateR(c, k, xs[..t]), c, k, xs[t], i)
  }

  lemma StateStep(c: seq<real>, k: seq<real>, xs: seq<real>, t: nat)
    requires |c| == |k| && t < |xs|
    ensures StateR(c, k, xs[..t + 1]) == PassR(StateR(c, k, xs[..t]), c, k, |c|, xs[t])
    ensures forall i: nat | i <= |c| :: StateR(c, k, xs[..t])[i] == Cell(c, k, xs, i, t - 1)
  {
    hide PassR;
    assert xs[..t + 1][..t] == xs[..t];
  }

  /** One section at one sample: what comes in, what goes on, what is stored and what was stored before. */
  lemma SectionAt(c: seq<real>, k: seq<real>, xs: seq<real>, i: nat, t: int)
    requires |c| == |k| && 0 < i <= |c| && t < |xs|
    ensures var a, x := Cell(c, k, xs, i - 1, t - 1), Entering(c, k, xs, i, t);
            && Entering(c, k, xs, i - 1, t) == Carried(a, x, c[i - 1], k[i - 1])
            && Cell(c, k, xs, i, t) == Kept(a, x, c[i - 1], k[i - 1])
  {
    hide PassR, StateR;
    if t >= 0 {
      StateStep(c, k, xs, t);
      PassCell(StateR(c, k, xs[..t]), c, k, xs[t], i);
    }
  }

  lemma EndsAt(c: seq<real>, k: seq<real>, xs: seq<real>, t: int)
    requires |c| == |k| && t < |xs|
    ensures Entering(c, k, xs, 0, t) == Cell(c, k, xs, 0, t)
    ensures t >= 0 ==> Entering(c, k, xs, |c|, t) == xs[t]
  {
    hide PassR, StateR;
    if t >= 0 {
      StateStep(c, k, xs, t);
      PassCell(StateR(c, k, xs[..t]), c, k, xs[t], 0);
    }
  }

  /** p[0] f(t) + p[1] f(t-1) + ... */
  ghost function Apply(p: seq<real>, f: int -> real, t: int): real {
    if p == [] then 0.0 else p[0] * f(t) + Apply(p[1..], f, t - 1)
  }

  ghost function Reversed(p: seq<real>): (q: seq<real>)
    ensures |q| == |p|
  {
    seq(|p|, i requires 0 <= i < |p| => p[|p| - 1 - i])
  }

  /** p + g*q, coefficient by coefficient. */
  ghost function Plus(p: seq<real>, g: real, q: seq<real>): (s: seq<real>)
    requires |p| == |q|
    ensures |s| == |p|
  {
    seq(|p|, i requires 0 <= i < |p| => p[i] + g * q[i])
  }

  /** The polynomial of the first i reflection coefficients, by Levinson's step-up recursion. */
  ghost function Predictor(k: seq<real>, i: nat): (p: seq<real>)
    requires i <= |k|
    ensures |p| == i + 1
  {
    if i == 0 then [1.0]
    else
      var p := Predictor(k, i - 1);
      Plus(p + [0.0], k[i - 1], [0.0] + Reversed(p))
  }

  /** Its first coefficient is one and its last the last reflection coefficient. */
  lemma {:induction false} PredictorEnds(k: seq<real>, i: nat)
    requires i <= |k|
    ensures Predictor(k, i)[0] == 1.0 && (i > 0 ==> Predictor(k, i)[i] == k[i - 1])
  {
    if i > 0 {
      PredictorEnds(k, i - 1);
    }
  }

  lemma PredictorStep(k: seq<real>, i: nat)
    requires 0 < i <= |k|
    ensures var p := Predictor(k, i - 1);
            && Predictor(k, i) == Plus(p + [0.0], k[i - 1], [0.0] + Reversed(p))
            && Reversed(Predictor(k, i)) == Plus([0.0] + Reversed(p), k[i - 1], p + [0.0])
  {
    hide Predictor, Plus, Reversed;
    PredictorUnfold(k, i);
    MirrorOfPlus(Predictor(k, i - 1), k[i - 1]);
  }

  lemma PredictorUnfold(k: seq<real>, i: nat)
    requires 0 < i <= |k|
    ensures Predictor(k, i) == Plus(Predictor(k, i - 1) + [0.0], k[i - 1], [0.0] + Reversed(Predictor(k, i - 1)))
    ensures |Predictor(k, i - 1)| == |Reversed(Predictor(k, i - 1))| == i
  {
  }

  lemma MirrorOfPlus(p: seq<real>, g: real)
    requires |Reversed(p)| == |p|
    ensures Reversed(Plus(p + [0.0], g, [0.0] + Reversed(p))) == Plus([0.0] + Reversed(p), g, p + [0.0])
  {
    var a, b := p + [0.0], [0.0] + Reversed(p);
    forall j | 0 <= j < |a|
      ensures Reversed(Plus(a, g, b))[j] == Plus(b, g, a)[j]
    {
      MirrorCells(p, |p| - j);
      MirrorCells(p, j);
    }
    assert |Reversed(Plus(a, g, b))| == |Plus(b, g, a)|;
  }

  lemma MirrorCells(p: seq<real>, j: nat)
    requires j <= |p|
    ensures ([0.0] + Reversed(p))[j] == (p + [0.0])[|p| - j]
  {
  }

  lemma {:induction false} ApplyPlus(p: seq<real>, g: real, q: seq<real>, f: int -> real, t: int)
    requires |p| == |q|
    ensures Apply(Plus(p, g, q), f, t) == Apply(p, f, t) + g * Apply(q, f, t)
    decreases |p|
  {
    if p != [] {
      ApplyPlus(p[1..], g, q[1..], f, t - 1);
      PlusTail(p, g, q);
      hide Plus;
      Gathered(p[0], g, q[0], f(t), Apply(p[1..], f, t - 1), Apply(q[1..], f, t - 1));
    }
  }

  lemma PlusTail(p: seq<real>, g: real, q: seq<real>)
    requires |p| == |q| > 0
    ensures |Plus(p, g, q)| == |p| && Plus(p, g, q)[0] == p[0] + g * q[0]
    ensures Plus(p, g, q)[1..] == Plus(p[1..], g, q[1..])
  {
    var s, r := Plus(p, g, q)[1..], Plus(p[1..], g, q[1..]);
    assert |s| == |r|;
    forall j | 0 <= j < |r|
      ensures s[j] == r[j]
    {
      assert p[1..][j] == p[j + 1] && q[1..][j] == q[j + 1];
    }
  }

  lemma Gathered(a: real, g: real, b: real, v: real, r: real, s: real)
    ensures (a + g * b) * v + (r + g * s) == (a * v + r) + g * (b * v + s)
  {
  }

  lemma {:induction false} ApplyPadded(p: seq<real>, f: int -> real, t: int)
    ensures Apply(p + [0.0], f, t) == Apply(p, f, t)
    decreases |p|
  {
    if p == [] {
      assert (p + [0.0])[1..] == [];
    } else {
      assert (p + [0.0])[1..] == p[1..] + [0.0];
      ApplyPadded(p[1..], f, t - 1);
    }
  }

  lemma ApplyDelayed(p: seq<real>, f: int -> real, t: int)
    ensures Apply([0.0] + p, f, t) == Apply(p, f, t - 1)
  {
    assert ([0.0] + p)[1..] == p;
  }

  lemma {:induction false} ApplyBefore(p: seq<real>, f: int -> real, t: int)
    requires t < 0 && forall m: int | m < 0 :: f(m) == 0.0
    ensures Apply(p, f, t) == 0.0
    decreases |p|
  {
    if p != [] {
      ApplyBefore(p[1..], f, t - 1);
    }
  }

  /** The product of the first i cosines. */
  ghost function Product(c: seq<real>, i: nat): real
    requires i <= |c|
  {
    if i == 0 then 1.0 else Product(c, i - 1) * c[i - 1]
  }

  ghost predicate Rotations(c: seq<real>, k: seq<real>) {
    |c| == |k| && forall j | 0 <= j < |c| :: c[j] * c[j] + k[j] * k[j] == 1.0
  }

  /** Cell 0 over the run. */
  ghost function Core(c: seq<real>, k: seq<real>, xs: seq<real>): int -> real
    requires |c| == |k|
  {
    t => if t < |xs| then Cell(c, k, xs, 0, t) else 0.0
  }

  /** The arithmetic of one section, all signals written over cell 0. */
  lemma LadderStep(g: real, c: real, k: real, inn: real, on: real, was: real, cell: real, p: real, q: real)
    requires c * c + k * k == 1.0
    requires on == Carried(was, inn, c, k) && cell == Kept(was, inn, c, k)
    requires g * on == p && g * was == q
    ensures (g * c) * inn == p + k * q && (g * c) * cell == q + k * p
  {
    assert inn * c == on + k * was;
    assert (g * c) * inn == g * (on + k * was);
    assert c * cell == (c * c) * was + k * (inn * c);
    assert c * cell == (c * c + k * k) * was + k * on;
    assert (g * c) * cell == g * (c * cell);
    assert g * (was + k * on) == g * was + k * (g * on);
  }

  /** Every signal inside the lattice is a combination of the last values of cell 0: what enters section i by the
      polynomial of the first i reflection coefficients, what is stored behind it by its mirror image. */
  lemma {:induction false} Ladder(c: seq<real>, k: seq<real>, xs: seq<real>, i: nat, t: int)
    requires |c| == |k| && Rotations(c, k) && i <= |c| && t < |xs|
    ensures Product(c, i) * Entering(c, k, xs, i, t) == Apply(Predictor(k, i), Core(c, k, xs), t)
    ensures Product(c, i) * Cell(c, k, xs, i, t) == Apply(Reversed(Predictor(k, i)), Core(c, k, xs), t)
    decreases i
  {
    hide *;
    if i == 0 {
      LadderEnd(c, k, xs, t);
    } else {
      Ladder(c, k, xs, i - 1, t);
      Ladder(c, k, xs, i - 1, t - 1);
      SectionAt(c, k, xs, i, t);
      UnitPair(c, k, i - 1);
      var p, f := Predictor(k, i - 1), Core(c, k, xs);
      LadderStep(Product(c, i - 1), c[i - 1], k[i - 1], Entering(c, k, xs, i, t), Entering(c, k, xs, i - 1, t),
                 Cell(c, k, xs, i - 1, t - 1), Cell(c, k, xs, i, t), Apply(p, f, t), Apply(Reversed(p), f, t - 1));
      ProductStep(c, i);
      PredictorStep(k, i);
      PredictorLength(k, i - 1);
      ApplyPlus(p + [0.0], k[i - 1], [0.0] + Reversed(p), f, t);
      ApplyPlus([0.0] + Reversed(p), k[i - 1], p + [0.0], f, t);
      ApplyPadded(p, f, t);
      ApplyDelayed(Reversed(p), f, t);
    }
  }

  lemma PredictorLength(k: seq<real>, i: nat)
    requires i <= |k|
    ensures |Predictor(k, i)| == |Reversed(Predictor(k, i))| == i + 1
  {
  }

  lemma ProductStep(c: seq<real>, i: nat)
    requires 0 < i <= |c|
    ensures Product(c, i) == Product(c, i - 1) * c[i - 1]
  {
  }

  lemma UnitPair(c: seq<real>, k: seq<real>, j: nat)
    requires |c| == |k| && Rotations(c, k) && j < |c|
    ensures c[j] * c[j] + k[j] * k[j] == 1.0
  {
  }

  lemma LadderEnd(c: seq<real>, k: seq<real>, xs: seq<real>, t: int)
    requires |c| == |k| && t < |xs|
    ensures Product(c, 0) * Entering(c, k, xs, 0, t) == Apply(Predictor(k, 0), Core(c, k, xs), t)
    ensures Product(c, 0) * Cell(c, k, xs, 0, t) == Apply(Reversed(Predictor(k, 0)), Core(c, k, xs), t)
  {
    hide Entering, Cell;
    EndsAt(c, k, xs, t);
    var f := Core(c, k, xs);
    assert Reversed([1.0]) == [1.0];
    assert Apply([1.0], f, t) == f(t) by { assert [1.0][1..] == []; }
  }

  /** The exact lattice is an all-pole filter: cell 0 obeys the difference equation whose coefficients are the
      predictor's, driven by the input times the product of the cosines, and cell i holds the mirror image of
      the i-th predictor applied to cell 0. */
  lemma DirectForm(c: seq<real>, k: seq<real>, xs: seq<real>, i: nat, t: nat)
    requires |c| == |k| && Rotations(c, k) && i <= |c| && t < |xs|
    ensures Apply(Predictor(k, |c|), Core(c, k, xs), t) == Product(c, |c|) * xs[t]
    ensures Product(c, i) * StateR(c, k, xs[..t + 1])[i] == Apply(Reversed(Predictor(k, i)), Core(c, k, xs), t)
  {
    hide *;
    Ladder(c, k, xs, |c|, t);
    Ladder(c, k, xs, i, t);
    EndsAt(c, k, xs, t);
    CellIs(c, k, xs, i, t);
  }

  lemma CellIs(c: seq<real>, k: seq<real>, xs: seq<real>, i: nat, t: nat)
    requires |c| == |k| && i <= |c| && t < |xs|
    ensures Cell(c, k, xs, i, t) == StateR(c, k, xs[..t + 1])[i]
  {
  }

  // ------------------------------------------------------------------ the fixed-point code stays near

  ghost function Reals(s: seq<int>): (r: seq<real>)
    ensures |r| == |s|
  {
    seq(|s|, i requires 0 <= i < |s| => s[i] as real)
  }

  /** Coefficients as the code means them. */
  ghost function Unscaled(s: seq<int>, scale: nat): (r: seq<real>)
    requires scale > 0
    ensures |r| == |s|
  {
    seq(|s|, i requires 0 <= i < |s| => s[i] as real / scale as real)
  }

  /** A stored pair of coefficients and the pair it stands for. */
  ghost predicate ShrinkingPair(c: int, k: int, scale: nat, p: real, q: real) {
    && scale > 0 && c * c + k * k <= scale * scale
    && p == c as real / scale as real && q == k as real / scale as real
  }

  lemma PairShrinks(c: int, k: int, scale: nat, p: real, q: real)
    requires ShrinkingPair(c, k, scale, p, q)
    ensures p * p + q * q <= 1.0
  {
    var s := scale as real;
    QuotientBack(p, c as real, s);
    QuotientBack(q, k as real, s);
    RealSquares(c, k, scale, c * c, k * k, scale * scale);
    WithinScale(p, q, s, c as real, k as real);
  }

  lemma QuotientBack(p: real, c: real, s: real)
    requires s > 0.0 && p == c / s
    ensures p * s == c
  {
  }

  lemma RealSquares(c: int, k: int, s: int, cc: int, kk: int, ss: int)
    requires cc == c * c && kk == k * k && ss == s * s && cc + kk <= ss
    ensures c as real * c as real + k as real * k as real <= s as real * s as real
  {
    RealProduct(c, c);
    RealProduct(k, k);
    RealProduct(s, s);
    assert cc as real + kk as real <= ss as real;
  }

  lemma WithinScale(p: real, q: real, s: real, c: real, k: real)
    requires s > 0.0 && p * s == c && q * s == k && c * c + k * k <= s * s
    ensures p * p + q * q <= 1.0
  {
    SquaresScaled(p, q, s, c, k);
    var n := s * s;
    PositiveProduct(s, s, n);
    CancelPositive(p * p + q * q, 1.0, n);
  }

  lemma SquaresScaled(p: real, q: real, s: real, c: real, k: real)
    requires p * s == c && q * s == k
    ensures (p * p + q * q) * (s * s) == c * c + k * k
  {
    assert (p * p + q * q) * (s * s) == (p * s) * (p * s) + (q * s) * (q * s);
  }

  lemma Differences(a: real, x: real, u: real, y: real, p: real, q: real)
    ensures Kept(a - u, x - y, p, q) == Kept(a, x, p, q) - Kept(u, y, p, q)
    ensures Carried(a - u, x - y, p, q) == Carried(a, x, p, q) - Carried(u, y, p, q)
  {
  }

  lemma ShrunkNorm(d: real, e: real, p: real, q: real)
    requires p * p + q * q <= 1.0
    ensures Square(Kept(d, e, p, q)) + Square(Carried(d, e, p, q)) <= Square(d) + Square(e)
  {
    var n := Square(d) + Square(e);
    Expand(d, e, p, q);
    SquareNonNegative(d);
    SquareNonNegative(e);
    TimesLessEq(p * p + q * q, 1.0, n);
  }

  /** The same two results as the code computes them. */
  function KeptInt(a: int, x: int, c: int, k: int, scale: nat): int
    requires scale > 0
  {
    Shift(a * c + k * x, scale)
  }

  function CarriedInt(a: int, x: int, c: int, k: int, scale: nat): int
    requires scale > 0
  {
    Shift(x * c - k * a, scale)
  }

  lemma PassStepInt(xb: seq<int>, c: seq<int>, k: seq<int>, scale: nat, i: nat, x: int)
    requires 0 < i <= |xb| && i <= |c| && i <= |k| && scale > 0
    ensures Pass(xb, c, k, scale, i, x)
         == Pass(xb, c, k, scale, i - 1, CarriedInt(xb[i - 1], x, c[i - 1], k[i - 1], scale))
            + [KeptInt(xb[i - 1], x, c[i - 1], k[i - 1], scale)]
  {
    hide Pass, Shift;
    PassStep(xb, c, k, scale, i, x);
  }

  /** The integer section rounds the exact one down. */
  lemma Rounds(a: int, x: int, c: int, k: int, scale: nat, p: real, q: real)
    requires ShrinkingPair(c, k, scale, p, q)
    ensures 0.0 <= Kept(a as real, x as real, p, q) - KeptInt(a, x, c, k, scale) as real < 1.0
    ensures 0.0 <= Carried(a as real, x as real, p, q) - CarriedInt(a, x, c, k, scale) as real < 1.0
  {
    hide Shift, Kept, Carried;
    var s := scale as real;
    QuotientBack(p, c as real, s);
    QuotientBack(q, k as real, s);
    ScaledResults(a as real, x as real, c as real, k as real, p, q, s);
    IntegerResults(a, x, c, k);
    RoundsDown(Kept(a as real, x as real, p, q), a * c + k * x, scale);
    RoundsDown(Carried(a as real, x as real, p, q), x * c - k * a, scale);
  }

  lemma RoundsDown(r: real, A: int, scale: nat)
    requires scale > 0 && r * scale as real == A as real
    ensures 0.0 <= r - Shift(A, scale) as real < 1.0
  {
    hide Shift;
    OneQuotient(A as real, scale as real, r);
    FloorOf(A, scale);
  }

  lemma ScaledResults(a: real, x: real, c: real, k: real, p: real, q: real, s: real)
    requires p * s == c && q * s == k
    ensures Kept(a, x, p, q) * s == a * c + k * x && Carried(a, x, p, q) * s == x * c - k * a
  {
    assert (a * p + q * x) * s == a * (p * s) + (q * s) * x;
    assert (x * p - q * a) * s == x * (p * s) - (q * s) * a;
  }

  lemma IntegerResults(a: int, x: int, c: int, k: int)
    ensures (a * c + k * x) as real == a as real * c as real + k as real * x as real
    ensures (x * c - k * a) as real == x as real * c as real - k as real * a as real
  {
    RealProduct(a, c);
    RealProduct(k, x);
    RealProduct(x, c);
    RealProduct(k, a);
  }

  /** One section: the distance between the integer pair and the real pair grows by at most 3/2. */
  lemma SectionTracks(a: int, x: int, u: real, y: real, c: int, k: int, scale: nat, p: real, q: real, rest: real,
                      B: real)
    requires scale > 0 && ShrinkingPair(c, k, scale, p, q) && rest >= 0.0 && B >= 0.0
    requires rest + Off(a, u) + Off(x, y) <= Bound(B, 0)
    ensures rest + Off(KeptInt(a, x, c, k, scale), Kept(u, y, p, q))
                 + Off(CarriedInt(a, x, c, k, scale), Carried(u, y, p, q)) <= Bound(B + 1.5, 0)
  {
    hide *;
    PairShrinks(c, k, scale, p, q);
    ShrunkNorm(a as real - u, x as real - y, p, q);
    Differences(a as real, x as real, u, y, p, q);
    Rounds(a, x, c, k, scale, p, q);
    OffIs(a, u);
    OffIs(x, y);
    OffIs(KeptInt(a, x, c, k, scale), Kept(u, y, p, q));
    OffIs(CarriedInt(a, x, c, k, scale), Carried(u, y, p, q));
    NearPair(Kept(a as real - u, x as real - y, p, q), Carried(a as real - u, x as real - y, p, q),
             KeptInt(a, x, c, k, scale) as real - Kept(u, y, p, q),
             CarriedInt(a, x, c, k, scale) as real - Carried(u, y, p, q), rest, B);
  }

  lemma OffIs(a: int, u: real)
    ensures Off(a, u) == Square(a as real - u)
  {
    hide Square;
  }

  lemma NearPair(f: real, g: real, m: real, n: real, rest: real, B: real)
    requires 0.0 <= f - m < 1.0 && 0.0 <= g - n < 1.0 && rest >= 0.0 && B >= 0.0
    requires rest + Square(f) + Square(g) <= Bound(B, 0)
    ensures rest + Square(m) + Square(n) <= Bound(B + 1.5, 0)
  {
    BoundStep(B, 0);
    hide Bound;
    RoundedPair(f, g, f - m, g - n, rest, B);
    assert f - (f - m) == m && g - (g - n) == n;
  }

  function Square(d: real): real {
    d * d
  }

  /** The squared difference of an integer from a real number. */
  function Off(a: int, u: real): (d: real)
    ensures d >= 0.0
  {
    Square(a as real - u)
  }

  /** The squared distance of the first n cells. */
  ghost function Gap(s: seq<int>, r: seq<real>, n: nat): (d: real)
    requires n <= |s| && n <= |r|
    ensures d >= 0.0
  {
    Distance2(Reals(s), r, n)
  }

  lemma GapSnoc(s: seq<int>, r: seq<real>, a: int, u: real)
    requires |s| == |r|
    ensures Gap(s + [a], r + [u], |s| + 1) == Gap(s, r, |s|) + Off(a, u)
  {
    assert Reals(s + [a]) == Reals(s) + [a as real];
    DistancePrefix(Reals(s) + [a as real], r + [u], Reals(s), r, |s|);
  }

  lemma GapOfPrefix(xb: seq<int>, yb: seq<real>, i: nat)
    requires 0 < i <= |xb| && i <= |yb|
    ensures Gap(xb, yb, i) == Gap(xb, yb, i - 1) + Off(xb[i - 1], yb[i - 1]) && Gap(xb, yb, i - 1) >= 0.0
    ensures Off(xb[i - 1], yb[i - 1]) >= 0.0
  {
  }

  lemma OnlyInput(xb: seq<int>, yb: seq<real>, c: seq<int>, k: seq<int>, scale: nat, i: nat, x: int, y: real)
    requires scale > 0 && i == 0
    ensures Gap(Pass(xb, c, k, scale, i, x), PassR(yb, Unscaled(c, scale), Unscaled(k, scale), i, y), i + 1)
         == Gap(xb, yb, i) + Off(x, y)
  {
    GapSnoc([], [], x, y);
    assert [] + [x] == [x] && [] + [y] == [y];
  }

  /** One pass from nearby states: the distance grows by at most 3/2 for every section. */
  lemma {:induction false} PassTracks(xb: seq<int>, yb: seq<real>, c: seq<int>, k: seq<int>, scale: nat, i: nat, x: int,
                                      y: real, rest: real, B: real)
    requires scale > 0 && Contracting(c, k, scale) && |c| == |k| && i <= |xb| && i <= |yb| && i <= |c|
    requires rest >= 0.0 && B >= 0.0 && Gap(xb, yb, i) + Off(x, y) + rest <= Bound(B, 0)
    ensures var s, r := Pass(xb, c, k, scale, i, x), PassR(yb, Unscaled(c, scale), Unscaled(k, scale), i, y);
            |s| == |r| == i + 1 && Gap(s, r, i + 1) + rest <= Bound(B, i)
    decreases i
  {
    hide *;
    UnscaledLengths(c, k, scale);
    PassLengths(xb, yb, c, k, Unscaled(c, scale), Unscaled(k, scale), scale, i, x, y);
    if i == 0 {
      OnlyInput(xb, yb, c, k, scale, i, x, y);
    } else {
      Coefficients(c, k, scale, i - 1);
      var a, u, p, q := xb[i - 1], yb[i - 1], Unscaled(c, scale)[i - 1], Unscaled(k, scale)[i - 1];
      var d := Off(KeptInt(a, x, c[i - 1], k[i - 1], scale), Kept(u, y, p, q));
      GapOfPrefix(xb, yb, i);
      SectionTracks(a, x, u, y, c[i - 1], k[i - 1], scale, p, q, Gap(xb, yb, i - 1) + rest, B);
      OffNonNegative(KeptInt(a, x, c[i - 1], k[i - 1], scale), Kept(u, y, p, q));
      PassTracks(xb, yb, c, k, scale, i - 1, CarriedInt(a, x, c[i - 1], k[i - 1], scale), Carried(u, y, p, q), rest + d,
                 B + 1.5);
      BothPassed(xb, yb, c, k, scale, i, x, y);
      BoundStep(B, i);
    }
  }

  lemma BothPassed(xb: seq<int>, yb: seq<real>, c: seq<int>, k: seq<int>, scale: nat, i: nat, x: int, y: real)
    requires scale > 0 && 0 < i <= |xb| && i <= |yb| && i <= |c| == |k|
    ensures var C, K := Unscaled(c, scale), Unscaled(k, scale);
            var a', u' := KeptInt(xb[i - 1], x, c[i - 1], k[i - 1], scale), Kept(yb[i - 1], y, C[i - 1], K[i - 1]);
            var x' := CarriedInt(xb[i - 1], x, c[i - 1], k[i - 1], scale);
            var y' := Carried(yb[i - 1], y, C[i - 1], K[i - 1]);
            Gap(Pass(xb, c, k, scale, i, x), PassR(yb, C, K, i, y), i + 1)
            == Gap(Pass(xb, c, k, scale, i - 1, x'), PassR(yb, C, K, i - 1, y'), i) + Off(a', u')
  {
    hide Pass, PassR, Gap, Off, Unscaled, Kept, Carried, KeptInt, CarriedInt;
    var C, K := Unscaled(c, scale), Unscaled(k, scale);
    var x' := CarriedInt(xb[i - 1], x, c[i - 1], k[i - 1], scale);
    var y' := Carried(yb[i - 1], y, C[i - 1], K[i - 1]);
    PassLengths(xb, yb, c, k, C, K, scale, i - 1, x', y');
    PassStepInt(xb, c, k, scale, i, x);
    PassStepR(yb, C, K, i, y);
    GapSnoc(Pass(xb, c, k, scale, i - 1, x'), PassR(yb, C, K, i - 1, y'),
            KeptInt(xb[i - 1], x, c[i - 1], k[i - 1], scale), Kept(yb[i - 1], y, C[i - 1], K[i - 1]));
  }

  lemma UnscaledLengths(c: seq<int>, k: seq<int>, scale: nat)
    requires scale > 0
    ensures |Unscaled(c, scale)| == |c| && |Unscaled(k, scale)| == |k|
  {
  }

  lemma Coefficients(c: seq<int>, k: seq<int>, scale: nat, j: nat)
    requires scale > 0 && Contracting(c, k, scale) && j < |c|
    ensures |c| == |k| == |Unscaled(c, scale)| == |Unscaled(k, scale)|
    ensures ShrinkingPair(c[j], k[j], scale, Unscaled(c, scale)[j], Unscaled(k, scale)[j])
  {
  }

  lemma PassLengths(xb: seq<int>, yb: seq<real>, c: seq<int>, k: seq<int>, C: seq<real>, K: seq<real>, scale: nat,
                    i: nat, x: int, y: real)
    requires i <= |xb| && i <= |yb| && i <= |c| && i <= |k| && i <= |C| && i <= |K| && scale > 0
    ensures |Pass(xb, c, k, scale, i, x)| == |PassR(yb, C, K, i, y)| == i + 1
  {
  }

  lemma OffNonNegative(a: int, u: real)
    ensures Off(a, u) >= 0.0
  {
  }

  lemma NoOffset(x: int)
    ensures Off(x, x as real) == 0.0
  {
  }

  lemma SquareNonNegative(d: real)
    ensures Square(d) >= 0.0
  {
  }

  /** Whole runs: after m samples the integer state is within 3/2 per section and sample of the state the exact
      lattice with the stored coefficients has after the same samples. */
  lemma {:induction false} StateTracks(c: seq<int>, k: seq<int>, scale: nat, xs: seq<int>)
    requires scale > 0 && Contracting(c, k, scale)
    ensures |Unscaled(c, scale)| == |Unscaled(k, scale)| == |c| == |k|
    ensures var s, r := StateAfter(c, k, scale, xs), StateR(Unscaled(c, scale), Unscaled(k, scale), Reals(xs));
            |s| == |r| == |c| + 1 && Gap(s, r, |c| + 1) <= Bound(0.0, |c| * |xs|)
  {
    hide Pass, PassR, Bound, Gap, Off;
    var C, K := Unscaled(c, scale), Unscaled(k, scale);
    if xs == [] {
      StartTogether(c, k, scale, C, K, xs);
    } else {
      var b, x := xs[..|xs| - 1], xs[|xs| - 1];
      StateTracks(c, k, scale, b);
      var s, r := StateAfter(c, k, scale, b), StateR(C, K, Reals(b));
      assert Reals(xs)[..|xs| - 1] == Reals(b);
      LastDropped(s, r, |c|);
      NoOffset(x);
      BoundSplit(|c|, |b|);
      PassTracks(s, r, c, k, scale, |c|, x, x as real, 0.0, Growth(|c|, |b|));
    }
  }

  ghost function Growth(n: nat, m: nat): (g: real)
    ensures g >= 0.0
  {
    1.5 * (n * m) as real
  }

  lemma BoundSplit(n: nat, m: nat)
    ensures Bound(0.0, n * m) == Bound(Growth(n, m), 0) && Bound(Growth(n, m), n) == Bound(0.0, n * (m + 1))
  {
    assert n * (m + 1) == n * m + n;
    assert Growth(n, m) + 1.5 * n as real == 1.5 * (n * m + n) as real;
  }

  lemma LastDropped(s: seq<int>, r: seq<real>, n: nat)
    requires |s| == |r| == n + 1
    ensures Gap(s, r, n) <= Gap(s, r, n + 1)
  {
    hide *;
    GapOfPrefix(s, r, n + 1);
  }

  lemma StartTogether(c: seq<int>, k: seq<int>, scale: nat, C: seq<real>, K: seq<real>, xs: seq<int>)
    requires scale > 0 && |c| == |k| == |C| == |K| && xs == []
    ensures |StateAfter(c, k, scale, xs)| == |StateR(C, K, Reals(xs))| == |c| + 1
    ensures Gap(StateAfter(c, k, scale, xs), StateR(C, K, Reals(xs)), |c| + 1) <= Bound(0.0, |c| * |xs|)
  {
    var r := StateR(C, K, Reals(xs));
    assert Reals(StateAfter(c, k, scale, xs)) == r;
    NoDistance(r, |c| + 1);
    hide StateR, StateAfter;
  }

  // ------------------------------------------------------------------ the samples put out

  /** The size of one quantisation step. */
  ghost function Step(quant: nat, range: int): real
    requires quant > 0
  {
    2.0 * range as real / quant as real
  }

  /** A whole number of steps. */
  ghost function Restored(v: int, quant: nat, range: int): real
    requires quant > 0
  {
    v as real * Step(quant, range)
  }

  lemma Regrouped(v: real, w: real, n: real, r: real, q: real)
    requires n != 0.0 && q != 0.0
    ensures v * w / n * r * 2.0 / q == (w / n) * (v * (2.0 * r / q))
  {
    var y, s := w / n, 2.0 * r / q;
    assert v * w / n == v * y;
    assert v * y * r * 2.0 / q == (v * y) * s;
  }

  /** A state sum as it is put out: the whole number left by the shift, in steps, scaled. */
  lemma OutputIs(f: Fxnl, xs: seq<int>, t: nat)
    requires f.Valid() && t < |xs|
    ensures var sum := DotInt(StateAfter(f.c[..], f.k[..], f.scale, xs[..t + 1]), f.nu[..], f.n + 1);
            f.OutputAt(xs, t)
            == (f.wsc / f.wnorm) * Restored(Shift(sum, f.scale), f.quant, f.quantRange)
  {
    hide Shift, StateAfter, DotInt, Contracting;
    var sum := DotInt(StateAfter(f.c[..], f.k[..], f.scale, xs[..t + 1]), f.nu[..], f.n + 1);
    Regrouped(Shift(sum, f.scale) as real, f.wsc, f.wnorm, f.quantRange as real, f.quant as real);
  }

  lemma {:induction false} DotUnscaled(a: seq<int>, b: seq<int>, scale: nat, n: nat)
    requires scale > 0 && n <= |a| && n <= |b|
    ensures Dot(Reals(a), Unscaled(b, scale), n) * scale as real == DotInt(a, b, n) as real
  {
    if n > 0 {
      DotUnscaled(a, b, scale, n - 1);
      var s, u := scale as real, Unscaled(b, scale)[n - 1];
      QuotientBack(u, b[n - 1] as real, s);
      RealProduct(a[n - 1], b[n - 1]);
      OneMoreTerm(Dot(Reals(a), Unscaled(b, scale), n - 1), a[n - 1] as real, u, s);
      hide Reals, Unscaled;
    }
  }

  lemma OneMoreTerm(p: real, a: real, u: real, s: real)
    ensures (p + a * u) * s == p * s + a * (u * s)
  {
  }

  /** Every sample put out is, up to the final rounding down, the weighted sum of a state near the exact one: it is
      s steps, scaled, where s plus a fraction differs from the sum the exact lattice gives by at most the length
      of the weights times 3/2 for every section and sample. */
  lemma OutputTracks(f: Fxnl, xs: seq<int>, t: nat) returns (s: int, d: real)
    requires f.Valid() && t < |xs|
    ensures var C, K, w := Unscaled(f.c[..], f.scale), Unscaled(f.k[..], f.scale), Unscaled(f.nu[..], f.scale);
            && |C| == |K| == f.n && |w| == f.n + 1
            && f.OutputAt(xs, t) == (f.wsc / f.wnorm) * Restored(s, f.quant, f.quantRange)
            && 0.0 <= d < 1.0
            && Square(s as real + d - Dot(StateR(C, K, Reals(xs[..t + 1])), w, f.n + 1))
               <= Bound(0.0, f.n * (t + 1)) * Dot(w, w, f.n + 1)
  {
    hide Shift, StateAfter, StateR, DotInt, Dot, Contracting, Bound, Unscaled, Restored, Reals;
    var c, k, nu, seen := f.c[..], f.k[..], f.nu[..], xs[..t + 1];
    UnscaledLengths(c, k, f.scale);
    UnscaledLengths(nu, nu, f.scale);
    var sum := DotInt(StateAfter(c, k, f.scale, seen), nu, f.n + 1);
    OutputIs(f, xs, t);
    s := Shift(sum, f.scale);
    var z := Dot(Reals(StateAfter(c, k, f.scale, seen)), Unscaled(nu, f.scale), f.n + 1);
    DotUnscaled(StateAfter(c, k, f.scale, seen), nu, f.scale, f.n + 1);
    RoundsDown(z, sum, f.scale);
    d := z - s as real;
    SumTracks(c, k, nu, f.scale, seen);
  }

  lemma SumTracks(c: seq<int>, k: seq<int>, nu: seq<int>, scale: nat, xs: seq<int>)
    requires scale > 0 && Contracting(c, k, scale) && |c| == |k| && |nu| == |c| + 1
    ensures var C, K, w := Unscaled(c, scale), Unscaled(k, scale), Unscaled(nu, scale);
            Square(Dot(Reals(StateAfter(c, k, scale, xs)), w, |c| + 1) - Dot(StateR(C, K, Reals(xs)), w, |c| + 1))
            <= Bound(0.0, |c| * |xs|) * Dot(w, w, |c| + 1)
  {
    hide *;
    UnscaledLengths(c, k, scale);
    UnscaledLengths(nu, nu, scale);
    StateTracks(c, k, scale, xs);
    var s, r := Reals(StateAfter(c, k, scale, xs)), StateR(Unscaled(c, scale), Unscaled(k, scale), Reals(xs));
    var w := Unscaled(nu, scale);
    GapIs(StateAfter(c, k, scale, xs), r, |c| + 1);
    NearDots(s, r, w, |c| + 1, Bound(0.0, |c| * |xs|));
  }

  lemma GapIs(s: seq<int>, r: seq<real>, n: nat)
    requires n <= |s| && n <= |r|
    ensures Gap(s, r, n) == Distance2(Reals(s), r, n) && |Reals(s)| == |s|
  {
  }

  lemma NearDots(s: seq<real>, r: seq<real>, w: seq<real>, n: nat, B: real)
    requires n <= |s| && n <= |r| && n <= |w| && Distance2(s, r, n) <= B
    ensures Square(Dot(s, w, n) - Dot(r, w, n)) <= B * Dot(w, w, n)
  {
    hide Dot, Distance2;
    DotsNear(s, r, w, n);
    TimesLessEq(Distance2(s, r, n), B, Dot(w, w, n));
  }

  /** Coefficients of sections that do not turn: the lattice is a delay line. */
  ghost predicate Straight(c: seq<int>, k: seq<int>, scale: nat) {
    |c| == |k| && forall j | 0 <= j < |c| :: c[j] == scale && k[j] == 0
  }

  lemma StoredUnits(scale: nat)
    ensures Stored(1.0, scale) == scale && Stored(0.0, scale) == 0
  {
  }

  lemma {:induction false} StraightPass(xb: seq<int>, c: seq<int>, k: seq<int>, scale: nat, i: nat, x: int)
    requires scale > 0 && Straight(c, k, scale) && i <= |xb| && i <= |c| == |k|
    ensures Pass(xb, c, k, scale, i, x) == [x] + xb[..i]
  {
    if i > 0 {
      WholeShift(xb[i - 1], x, scale);
      hide Shift;
      StraightPass(xb, c, k, scale, i - 1, x);
      PassStep(xb, c, k, scale, i, x);
    }
  }

  lemma WholeShift(a: int, x: int, scale: nat)
    requires scale > 0
    ensures Shift(a * scale + 0 * x, scale) == a && Shift(x * scale - 0 * a, scale) == x && Shift(a * scale, scale) == a
  {
    hide Shift;
    ShiftBack(a, scale, a * scale);
    ShiftBack(x, scale, x * scale);
  }

  lemma ShiftBack(a: int, scale: nat, p: int)
    requires scale > 0 && p == a * scale
    ensures Shift(p, scale) == a
  {
    var q, r := p / scale, p % scale;
    assert p == scale * q + r;
    if q < a {
      NextMultiple(scale, q, a);
    } else if q > a {
      NextMultiple(scale, a, q);
    }
  }

  lemma {:induction false} StraightState(c: seq<int>, k: seq<int>, scale: nat, xs: seq<int>)
    requires scale > 0 && Straight(c, k, scale) && |c| == |k|
    ensures StateAfter(c, k, scale, xs) == Line(xs, |c| + 1, 0)
  {
    hide Pass, Straight;
    if xs != [] {
      var b, x := xs[..|xs| - 1], xs[|xs| - 1];
      StraightState(c, k, scale, b);
      StraightPass(StateAfter(c, k, scale, b), c, k, scale, |c|, x);
      assert xs == b + [x];
      LineSnoc(b, x, |c|, 0);
    }
  }

  /** All of the weight on cell j. */
  ghost predicate OnlyCell(nu: seq<int>, j: nat, scale: nat) {
    j < |nu| && forall i | 0 <= i < |nu| :: nu[i] == if i == j then scale else 0
  }

  lemma {:induction false} OneCell(s: seq<int>, nu: seq<int>, j: nat, scale: nat, n: nat)
    requires OnlyCell(nu, j, scale) && n <= |s| == |nu|
    ensures DotInt(s, nu, n) == if j < n then s[j] * scale else 0
  {
    if n > 0 {
      OneCell(s, nu, j, scale, n - 1);
    }
  }

  /** With straight sections and the weight on cell j, output t is the quantised sample j places back, in steps. */
  lemma DelaysExactly(f: Fxnl, xs: seq<int>, t: nat, j: nat)
    requires f.Valid() && t < |xs| && Straight(f.c[..], f.k[..], f.scale) && OnlyCell(f.nu[..], j, f.scale)
    ensures f.OutputAt(xs, t)
         == (f.wsc / f.wnorm) * Restored(if j <= t then xs[t - j] else 0, f.quant, f.quantRange)
  {
    hide StateAfter, DotInt, Shift, Contracting, Restored, Straight;
    var seen, n := xs[..t + 1], f.n + 1;
    OutputIs(f, xs, t);
    StraightState(f.c[..], f.k[..], f.scale, seen);
    OneCell(Line(seen, n, 0), f.nu[..], j, f.scale, n);
    WholeShift(Line(seen, n, 0)[j], 0, f.scale);
  }

  lemma QuotientOf(a: real, d: real, w: real)
    requires d != 0.0 && w * d == a
    ensures a / d == w
  {
  }

  lemma ReadsAs(xf: real, quant: nat, range: int, w: real)
    requires range != 0 && w * (2.0 * range as real) == xf * quant as real
    ensures ScaledInput(xf, quant, range) == Truncate(w)
  {
    hide Truncate;
    QuotientOf(xf * quant as real, 2.0 * range as real, w);
  }

  lemma StepTimes(x: real, y: real, s: real, q: real, d: real)
    requires s * q == d && d != 0.0 && y * s == x
    ensures x * d == (x * s) * q && y * d == x * q
  {
    assert y * (s * q) == (y * s) * q;
  }

  lemma StepFacts(quant: nat, range: int)
    requires quant > 0 && range != 0
    ensures Step(quant, range) * quant as real == 2.0 * range as real && Step(quant, range) != 0.0
  {
    QuotientBack(Step(quant, range), 2.0 * range as real, quant as real);
  }

  lemma InSteps(x: real, y: real, z: real, quant: nat, range: int)
    requires quant > 0 && range != 0 && y * Step(quant, range) == x && z == x * Step(quant, range)
    ensures ScaledInput(z, quant, range) == Truncate(x)
    ensures ScaledInput(x, quant, range) == Truncate(y)
  {
    hide Truncate, Step, ScaledInput;
    var s, d := Step(quant, range), 2.0 * range as real;
    StepFacts(quant, range);
    StepTimes(x, y, s, quant as real, d);
    ReadsAs(z, quant, range, x);
    ReadsAs(x, quant, range, y);
  }

  lemma QuotientBy(x: real, s: real) returns (y: real)
    requires s != 0.0
    ensures y * s == x
  {
    y := x / s;
  }

  /** A whole number of steps is read as that number. */
  lemma RequantisedExactly(v: int, quant: nat, range: int)
    requires quant > 0 && range != 0
    ensures ScaledInput(Restored(v, quant, range), quant, range) == v
  {
    hide Step, ScaledInput, Truncate;
    StepFacts(quant, range);
    var y := QuotientBy(v as real, Step(quant, range));
    InSteps(v as real, y, Restored(v, quant, range), quant, range);
    TruncatesWhole(v);
  }

  /** Where the cast before the scaling is harmless, a sample is read to less than a step. */
  lemma ReadWithinStep(xf: real, quant: nat, range: int)
    requires quant > 0 && range != 0 && (2 * range) % quant == 0
    ensures AbsR(Restored(QuantiseInput(xf, quant, range), quant, range) - xf) < AbsR(Step(quant, range))
  {
    hide QuantiseInput, ScaledInput, Step, ReadsRight, Truncate, AbsR;
    QuantiserExactly(quant, range);
    ReadsRightIs(xf, quant, range);
    StepFacts(quant, range);
    var y := QuotientBy(xf, Step(quant, range));
    InSteps(xf, y, xf * Step(quant, range), quant, range);
    var n := QuantiseInput(xf, quant, range);
    LessThanOne(n, y, Step(quant, range), xf, Restored(n, quant, range));
  }

  lemma ReadsRightIs(xf: real, quant: nat, range: int)
    requires range != 0 && forall x :: ReadsRight(x, quant, range)
    ensures QuantiseInput(xf, quant, range) == ScaledInput(xf, quant, range)
  {
    assert ReadsRight(xf, quant, range);
  }

  lemma LessThanOne(n: int, r: real, s: real, x: real, z: real)
    requires s != 0.0 && r * s == x && n == Truncate(r) && z == n as real * s
    ensures AbsR(z - x) < AbsR(s)
  {
    var d := n as real - r;
    FractionLost(r, n);
    hide *;
    OneProduct(n as real, r, s, d);
    FractionOf(d, s, z - x);
  }

  lemma FractionLost(r: real, n: int)
    requires n == Truncate(r)
    ensures -1.0 < n as real - r < 1.0
  {
  }

  lemma OneProduct(a: real, b: real, s: real, d: real)
    requires d == a - b
    ensures a * s - b * s == d * s
  {
  }

  lemma FractionOf(d: real, s: real, e: real)
    requires -1.0 < d < 1.0 && s != 0.0 && e == d * s
    ensures AbsR(e) < AbsR(s)
  {
    if s > 0.0 {
      SmallPart(d, s, e);
    } else {
      SmallPart(-d, -s, e);
    }
  }

  lemma SmallPart(d: real, s: real, e: real)
    requires -1.0 < d < 1.0 && s > 0.0 && e == d * s
    ensures -s < e < s
  {
    TimesLess(d, 1.0, s);
    TimesLess(-1.0, d, s);
  }

  lemma UnitRatio(a: real, b: real)
    requires a == b && b != 0.0
    ensures a / b == 1.0
  {
  }

  /** Samples in, samples out: with straight sections, the weight on cell j, equal scale and norm and a number of
      levels that divides twice the range, output t is the input j samples before to less than one step. */
  lemma PassesSamples(f: Fxnl, used: seq<real>, t: nat, j: nat)
    requires f.Valid() && j <= t < |used| && Straight(f.c[..], f.k[..], f.scale) && OnlyCell(f.nu[..], j, f.scale)
    requires f.wsc == f.wnorm && f.quantRange != 0 && (2 * f.quantRange) % f.quant == 0
    ensures AbsR(f.OutputAt(Quantised(used, f.quant, f.quantRange), t) - used[t - j])
            < AbsR(Step(f.quant, f.quantRange))
  {
    hide Straight, OnlyCell, Contracting, StateAfter, QuantiseInput, Step, Restored, DotInt, Shift;
    var xs := Quantised(used, f.quant, f.quantRange);
    DelaysExactly(f, xs, t, j);
    UnitRatio(f.wsc, f.wnorm);
    ReadWithinStep(used[t - j], f.quant, f.quantRange);
  }
}
