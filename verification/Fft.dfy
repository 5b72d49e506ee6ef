/** The mixed-radix complex transform: factorisation, the recursive worker and its radix-2 and
    radix-4 butterflies, each working in place on an array, proved equal to polynomial evaluation
    at the powers of the root of unity. */
module Fft {
  import opened Complex
  import opened Dft

  /** One entry pair of the factor table: the radix and the length left after dividing by it. */
  datatype Stage = Stage(p: nat, m: nat)

  ghost predicate Splits(s: Stage, n: nat) {
    s.p * s.m == n
  }

  /** The length that entry i divides. */
  ghost function Before(factors: seq<Stage>, n: nat, i: nat): nat
    requires i < |factors|
  {
    if i == 0 then n else factors[i - 1].m
  }

  /** factors[0] divides n, each later entry divides what the entry before it left, and exactly
      the last one leaves 1. */
  ghost predicate Chain(factors: seq<Stage>, n: nat) {
    && |factors| > 0
    && factors[|factors| - 1].m == 1
    && forall i | 0 <= i < |factors| ::
         && Splits(factors[i], Before(factors, n, i))
         && (i + 1 < |factors| ==> factors[i].m > 1)
  }

  ghost predicate SmallRadices(factors: seq<Stage>) {
    forall i | 0 <= i < |factors| :: factors[i].p == 2 || factors[i].p == 4
  }

  function FloorSqrt(n: nat): (r: nat)
  {
    if n == 0 then 0
    else
      var r := FloorSqrt(n - 1);
      if (r + 1) * (r + 1) <= n then r + 1 else r
  }

  /** The part of the factor table already written: it leaves `left` of n. */
  ghost predicate Partial(factors: seq<Stage>, n: nat, left: nat) {
    && (factors == [] ==> left == n)
    && (factors != [] ==> factors[|factors| - 1].m == left)
    && forall i | 0 <= i < |factors| ::
         && Splits(factors[i], Before(factors, n, i))
         && (i + 1 < |factors| ==> factors[i].m > 1)
  }

  function Remainder(n: nat, p: nat): nat
    requires p > 0
  {
    n % p
  }

  lemma RemainderSelf(n: nat)
    requires n > 0
    ensures Remainder(n, n) == 0 && Remainder(n, 1) == 0
  {
  }

  method NextRadix(n: nat, p0: nat, floorSqrt: nat) returns (p: nat)
    requires n > 0 && p0 > 0
    requires p0 == 2 || p0 == 4 || p0 % 2 == 1
    ensures p > 0 && Remainder(n, p) == 0
    ensures p == p0 || p == n || p == 2 || p % 2 == 1
    ensures p == p0 || p == n || p > 1
    ensures Remainder(n, p0) == 0 ==> p == p0
    ensures p0 == 4 && Remainder(n, 4) != 0 && Remainder(n, 2) == 0 ==> p == 2 || p == n
  {
    hide Remainder;
    RemainderSelf(n);
    p := p0;
    while Remainder(n, p) != 0
      invariant p > 0
      invariant p == p0 || p == n || p == 2 || p % 2 == 1
      invariant p == p0 || p == n || 1 < p <= floorSqrt
      invariant p != p0 ==> Remainder(n, p0) != 0
      invariant p0 == 4 && Remainder(n, 4) != 0 && Remainder(n, 2) == 0 ==> p == 4 || p == 2 || p == n
      decreases if p == 4 && p != n then 1 else 0, if p == n then 0 else 1, floorSqrt + p0 + 4 - p
    {
      p := if p == 4 then 2 else if p == 2 then 3 else p + 2;
      if p > floorSqrt {
        p := n;
      }
    }
  }

  lemma PartialExtend(factors: seq<Stage>, n0: nat, n: nat, p: nat)
    requires Partial(factors, n0, n) && p > 0 && n > 0 && n % p == 0
    requires factors != [] ==> n > 1
    ensures n / p > 0 && Partial(factors + [Stage(p, n / p)], n0, n / p)
    ensures p > 1 ==> n / p < n
  {
    DivideOut(n, p);
    var longer := factors + [Stage(p, n / p)];
    forall i | 0 <= i < |longer|
      ensures Splits(longer[i], Before(longer, n0, i))
      ensures i + 1 < |longer| ==> longer[i].m > 1
    {
      if i < |factors| {
        assert longer[i] == factors[i];
        assert i == 0 || longer[i - 1] == factors[i - 1];
      }
    }
  }

  lemma DivideOut(n: nat, p: nat)
    requires p > 0 && n > 0 && n % p == 0
    ensures n / p > 0 && Splits(Stage(p, n / p), n)
    ensures p > 1 ==> n / p < n
    ensures n / p > 1 ==> n > p
  {
    DivMod(n, p);
    QuotientSmaller(p, n / p);
  }

  lemma DivMod(n: nat, p: nat)
    requires p > 0
    ensures n == p * (n / p) + n % p
  {
  }

  lemma QuotientSmaller(p: nat, d: int)
    requires p > 0 && p * d > 0
    ensures d > 0
    ensures p > 1 ==> d < p * d
    ensures d > 1 ==> p * d > p
  {
  }

  /** What division by the chosen radix leaves of a power of two. */
  lemma PowerOfTwoDivided(k: nat, n: nat, p: nat)
    requires n == Pow2(k) && p > 0 && n % p == 0
    requires n % 4 == 0 ==> p == 4
    requires n % 4 == 2 ==> p == 2 || p == n
    requires n == 1 ==> p == 1
    ensures n / p == Pow2(if k <= 1 then 0 else k - 2)
    ensures p == if k == 0 then 1 else if k == 1 then 2 else 4
  {
    if k == 1 {
      assert Pow2(0) == 1;
    }
    if k >= 2 {
      assert Pow2(k) == 2 * Pow2(k - 1);
      assert Pow2(k - 1) == 2 * Pow2(k - 2);
    }
  }

  /** What the factoring loop keeps; k is the exponent left when n0 == 2^e. */
  ghost predicate Factoring(factors: seq<Stage>, n0: nat, n: nat, p: nat, e: nat, k: nat) {
    && n > 0 && p > 0 && Partial(factors, n0, n)
    && (factors == [] ==> n == n0 && p == 4)
    && (n0 == 1 && factors != [] ==> factors == [Stage(1, 1)])
    && (n > 1 ==> p == 2 || p == 4 || p % 2 == 1)
    && (n > 1 ==> p > 1)
    && (n0 == Pow2(e) ==> n == Pow2(k) && (n > 1 ==> p == 4) && (e > 0 ==> SmallRadices(factors)))
  }

  lemma FactorStep(factors: seq<Stage>, n0: nat, n: nat, p0: nat, e: nat, k: nat, p: nat)
    requires Factoring(factors, n0, n, p0, e, k) && (factors == [] || n > 1)
    requires p > 0 && Remainder(n, p) == 0
    requires p == p0 || p == n || p == 2 || p % 2 == 1
    requires p == p0 || p == n || p > 1
    requires Remainder(n, p0) == 0 ==> p == p0
    requires p0 == 4 && Remainder(n, 4) != 0 && Remainder(n, 2) == 0 ==> p == 2 || p == n
    ensures n / p > 0 && Factoring(factors + [Stage(p, n / p)], n0, n / p, p, e, if k <= 1 then 0 else k - 2)
    ensures n / p < n || n == 1
  {
    PartialExtend(factors, n0, n, p);
    DivideOut(n, p);
    if n0 == Pow2(e) {
      PowerOfTwoDivided(k, n, p);
    }
    FactorStepTo(factors, n0, n, p0, e, k, p, n / p);
  }

  lemma FactorStepTo(factors: seq<Stage>, n0: nat, n: nat, p0: nat, e: nat, k: nat, p: nat, d: nat)
    requires Factoring(factors, n0, n, p0, e, k) && (factors == [] || n > 1)
    requires d > 0 && p > 0 && Partial(factors + [Stage(p, d)], n0, d)
    requires d > 1 ==> n > p
    requires n > p ==> p == 2 || p == 4 || p % 2 == 1
    requires n == 1 ==> p == 1 && d == 1
    requires n > 1 ==> p > 1
    requires n0 == Pow2(e) ==>
               d == Pow2(if k <= 1 then 0 else k - 2) && p == if k == 0 then 1 else if k == 1 then 2 else 4
    ensures Factoring(factors + [Stage(p, d)], n0, d, p, e, if k <= 1 then 0 else k - 2)
  {
    assert e > 0 ==> Pow2(e) == 2 * Pow2(e - 1);
  }

  /** The factor table of n: a chain down to 1, with radices 2 and 4 only when n is a power of two
      greater than 1, and the single entry (1, 1) when n is 1. */
  method Factor(n0: nat, ghost e: nat) returns (factors: seq<Stage>)
    requires n0 > 0
    ensures Chain(factors, n0)
    ensures n0 == Pow2(e) && e > 0 ==> SmallRadices(factors)
    ensures n0 == 1 ==> factors == [Stage(1, 1)]
  {
    var n, p := n0, 4;
    var floorSqrt := FloorSqrt(n0);
    factors := [];
    ghost var k := e;
    var more := true;
    while more
      invariant Factoring(factors, n0, n, p, e, k)
      invariant more <==> factors == [] || n > 1
      decreases n, more
    {
      ghost var p0 := p;
      p := NextRadix(n, p, floorSqrt);
      FactorStep(factors, n0, n, p0, e, k, p);
      k := if k <= 1 then 0 else k - 2;
      n := n / p;
      factors := factors + [Stage(p, n)];
      more := n > 1;
    }
  }

  // ------------------------------------------------------------------ butterflies

  ghost predicate Twiddles(tw: seq<Cx>, w: Cx) {
    forall i | 0 <= i < |tw| :: tw[i] == Pow(w, i)
  }

  /** Everything outside [lo, hi) is as it was. */
  ghost predicate OutsideSame(a: seq<Cx>, b: seq<Cx>, lo: nat, hi: nat) {
    |a| == |b| && forall i | 0 <= i < |a| && !(lo <= i < hi) :: a[i] == b[i]
  }

  /** Step u of a radix-2 butterfly over two runs of m cells from lo. */
  ghost predicate Did2(before: seq<Cx>, after: seq<Cx>, lo: nat, m: nat, w: Cx, step: nat, u: nat) {
    && u < m && lo + 2 * m <= |before| == |after|
    && SumAndDifference(after[lo + u], after[lo + m + u], before[lo + u],
                        Mul(before[lo + m + u], Turn(w, 1, step, u)))
  }

  /** Step u of a radix-4 butterfly over four runs of m cells from lo. */
  ghost predicate Did4(before: seq<Cx>, after: seq<Cx>, lo: nat, m: nat, w: Cx, step: nat, q: Cx, u: nat) {
    && u < m && lo + 4 * m <= |before| == |after|
    && Butterfly(after[lo + u], after[lo + m + u], after[lo + 2 * m + u], after[lo + 3 * m + u], before[lo + u],
                 Mul(before[lo + m + u], Turn(w, 1, step, u)), Mul(before[lo + 2 * m + u], Turn(w, 2, step, u)),
                 Mul(before[lo + 3 * m + u], Turn(w, 3, step, u)), q)
  }

  /** The twiddle w^(k*step*u). */
  ghost function Turn(w: Cx, k: nat, step: nat, u: nat): Cx {
    Pow(w, k * (step * u))
  }

  function QuarterOf(inverse: bool): Cx {
    if inverse then BACKWARD else FORWARD
  }

  ghost predicate SumAndDifference(g0: Cx, g1: Cx, f: Cx, s: Cx) {
    g0 == Add(f, s) && g1 == Sub(f, s)
  }

  method Butterfly2(out: array<Cx>, lo: nat, fstride: nat, tw: seq<Cx>, m: nat, ghost w: Cx)
    requires m > 0 && lo + 2 * m <= out.Length
    requires fstride * (m - 1) < |tw| && Twiddles(tw, w)
    modifies out
    ensures OutsideSame(out[..], old(out[..]), lo, lo + 2 * m)
    ensures forall u: nat | u < m :: Did2(old(out[..]), out[..], lo, m, w, fstride, u)
  {
    hide Mul, Pow;
    var u, t1 := 0, 0;
    while u < m
      invariant 0 <= u <= m && t1 == fstride * u
      invariant forall i | 0 <= i < out.Length && !(lo <= i < lo + u) && !(lo + m <= i < lo + m + u) ::
                  out[i] == old(out[i])
      invariant forall v: nat | v < u ::
                  SumAndDifference(out[lo + v], out[lo + m + v], old(out[lo + v]),
                                   Mul(old(out[lo + m + v]), Turn(w, 1, fstride, v)))
    {
      IndexBound(fstride, u, m - 1);
      var t := Mul(out[lo + m + u], tw[t1]);
      out[lo + m + u] := Sub(out[lo + u], t);
      out[lo + u] := Add(out[lo + u], t);
      t1 := t1 + fstride;
      u := u + 1;
    }
  }

  lemma IndexBound(s: nat, u: nat, m: nat)
    requires u <= m
    ensures 0 <= s * u <= s * m
    ensures s * u + s == s * (u + 1)
  {
  }

  /** The four values a radix-4 butterfly puts in place of f0..f3. */
  ghost predicate Butterfly(g0: Cx, g1: Cx, g2: Cx, g3: Cx, f0: Cx, s0: Cx, s1: Cx, s2: Cx, q: Cx) {
    && g0 == Add(Add(f0, s1), Add(s0, s2))
    && g1 == Add(Sub(f0, s1), Mul(q, Sub(s0, s2)))
    && g2 == Sub(Add(f0, s1), Add(s0, s2))
    && g3 == Sub(Sub(f0, s1), Mul(q, Sub(s0, s2)))
  }

  lemma QuarterTurn(d: Cx, s: Cx, inverse: bool)
    ensures var q := QuarterOf(inverse);
            && Add(d, Mul(q, s)) == (if inverse then Cx(d.re - s.im, d.im + s.re) else Cx(d.re + s.im, d.im - s.re))
            && Sub(d, Mul(q, s)) == (if inverse then Cx(d.re + s.im, d.im - s.re) else Cx(d.re - s.im, d.im + s.re))
  {
  }

  method Butterfly4At(out: array<Cx>, a: nat, b: nat, c: nat, d: nat, tw1: Cx, tw2: Cx, tw3: Cx, inverse: bool)
    requires a < b < c < d < out.Length
    modifies out
    ensures forall i | 0 <= i < out.Length && i != a && i != b && i != c && i != d :: out[i] == old(out[i])
    ensures Butterfly(out[a], out[b], out[c], out[d], old(out[a]), Mul(old(out[b]), tw1), Mul(old(out[c]), tw2),
                      Mul(old(out[d]), tw3), QuarterOf(inverse))
  {
    hide Mul, Butterfly;
    var s0 := Mul(out[b], tw1);
    var s1 := Mul(out[c], tw2);
    var s2 := Mul(out[d], tw3);
    var s5 := Sub(out[a], s1);
    out[a] := Add(out[a], s1);
    var s3 := Add(s0, s2);
    var s4 := Sub(s0, s2);
    out[c] := Sub(out[a], s3);
    out[a] := Add(out[a], s3);
    if inverse {
      out[b] := Cx(s5.re - s4.im, s5.im + s4.re);
      out[d] := Cx(s5.re + s4.im, s5.im - s4.re);
    } else {
      out[b] := Cx(s5.re + s4.im, s5.im - s4.re);
      out[d] := Cx(s5.re - s4.im, s5.im + s4.re);
    }
    ButterflyStep(out[a], out[b], out[c], out[d], old(out[a]), s0, s1, s2, inverse);
  }

  method Butterfly4(out: array<Cx>, lo: nat, fstride: nat, tw: seq<Cx>, inverse: bool, m: nat, ghost w: Cx)
    requires m > 0 && lo + 4 * m <= out.Length
    requires 3 * (fstride * (m - 1)) < |tw| && Twiddles(tw, w)
    modifies out
    ensures OutsideSame(out[..], old(out[..]), lo, lo + 4 * m)
    ensures forall u: nat | u < m ::
              Did4(old(out[..]), out[..], lo, m, w, fstride, QuarterOf(inverse), u)
  {
    hide Mul, Pow, Butterfly;
    var u, t1, t2, t3 := 0, 0, 0, 0;
    while u < m
      invariant 0 <= u <= m && t1 == fstride * u && t2 == 2 * t1 && t3 == 3 * t1
      invariant forall i | 0 <= i < out.Length && !(lo <= i < lo + u) && !(lo + m <= i < lo + m + u)
                           && !(lo + 2 * m <= i < lo + 2 * m + u) && !(lo + 3 * m <= i < lo + 3 * m + u) ::
                  out[i] == old(out[i])
      invariant forall v: nat | v < u ::
                  Butterfly(out[lo + v], out[lo + m + v], out[lo + 2 * m + v], out[lo + 3 * m + v], old(out[lo + v]),
                            Mul(old(out[lo + m + v]), Turn(w, 1, fstride, v)),
                            Mul(old(out[lo + 2 * m + v]), Turn(w, 2, fstride, v)),
                            Mul(old(out[lo + 3 * m + v]), Turn(w, 3, fstride, v)),
                            QuarterOf(inverse))
    {
      IndexBound(fstride, u, m - 1);
      Butterfly4At(out, lo + u, lo + m + u, lo + 2 * m + u, lo + 3 * m + u, tw[t1], tw[t2], tw[t3], inverse);
      t1, t2, t3 := t1 + fstride, t2 + fstride * 2, t3 + fstride * 3;
      u := u + 1;
    }
  }

  lemma ButterflyStep(g0: Cx, g1: Cx, g2: Cx, g3: Cx, f0: Cx, s0: Cx, s1: Cx, s2: Cx, inverse: bool)
    requires g0 == Add(Add(f0, s1), Add(s0, s2)) && g2 == Sub(Add(f0, s1), Add(s0, s2))
    requires var d, s := Sub(f0, s1), Sub(s0, s2);
             && g1 == (if inverse then Cx(d.re - s.im, d.im + s.re) else Cx(d.re + s.im, d.im - s.re))
             && g3 == (if inverse then Cx(d.re + s.im, d.im - s.re) else Cx(d.re - s.im, d.im + s.re))
    ensures Butterfly(g0, g1, g2, g3, f0, s0, s1, s2, QuarterOf(inverse))
  {
    QuarterTurn(Sub(f0, s1), Sub(s0, s2), inverse);
  }

  // ------------------------------------------------------------------ the recursive worker

  ghost function At(f: seq<Cx>, i: nat): Cx {
    if i < |f| then f[i] else ZERO
  }

  /** n samples of f from `off`, `step` apart. */
  ghost function Strided(f: seq<Cx>, off: nat, step: nat, n: nat): (s: seq<Cx>)
    ensures |s| == n
  {
    seq(n, j requires 0 <= j < n => At(f, off + step * j))
  }

  /** The transform of n strided samples, with the root w^step. */
  ghost function StridedDft(f: seq<Cx>, off: nat, step: nat, n: nat, w: Cx): (s: seq<Cx>) {
    seq(n, k requires 0 <= k < n => Eval(Strided(f, off, step, n), Pow(w, step * k)))
  }

  /** The first r of the p interleaved sub-transforms, one after the other. */
  ghost function Phases(f: seq<Cx>, off: nat, step: nat, p: nat, m: nat, w: Cx, r: nat): (s: seq<Cx>)
    ensures |s| == r * m
  {
    if r == 0 then []
    else
      assert (r - 1) * m + m == r * m;
      Phases(f, off, step, p, m, w, r - 1) + StridedDft(f, off + (r - 1) * step, step * p, m, w)
  }

  lemma StrideIndex(step: nat, j: nat)
    ensures step * (2 * j) == (step * 2) * j
    ensures step * (2 * j + 1) == step + (step * 2) * j
    ensures step * (4 * j) == (step * 4) * j == 4 * (step * j)
    ensures step * (4 * j + 1) == step + (step * 4) * j
    ensures step * (4 * j + 2) == 2 * step + (step * 4) * j
    ensures step * (4 * j + 3) == 3 * step + (step * 4) * j
    ensures step * (3 * j) == 3 * (step * j) && step * (2 * j) == 2 * (step * j)
  {
  }

  lemma StridedSplit2(f: seq<Cx>, off: nat, step: nat, m: nat)
    ensures Even(Strided(f, off, step, 2 * m)) == Strided(f, off, step * 2, m)
    ensures Odd(Strided(f, off, step, 2 * m)) == Strided(f, off + step, step * 2, m)
  {
    var x := Strided(f, off, step, 2 * m);
    forall j: nat | j < m
      ensures Even(x)[j] == Strided(f, off, step * 2, m)[j]
      ensures Odd(x)[j] == Strided(f, off + step, step * 2, m)[j]
    {
      StrideIndex(step, j);
    }
  }

  lemma StridedSplit4(f: seq<Cx>, off: nat, step: nat, m: nat)
    ensures var x := Strided(f, off, step, 4 * m);
            && Phase(x, 0) == Strided(f, off, step * 4, m)
            && Phase(x, 1) == Strided(f, off + step, step * 4, m)
            && Phase(x, 2) == Strided(f, off + 2 * step, step * 4, m)
            && Phase(x, 3) == Strided(f, off + 3 * step, step * 4, m)
  {
    var x := Strided(f, off, step, 4 * m);
    forall j: nat | j < m
      ensures Phase(x, 0)[j] == Strided(f, off, step * 4, m)[j]
      ensures Phase(x, 1)[j] == Strided(f, off + step, step * 4, m)[j]
      ensures Phase(x, 2)[j] == Strided(f, off + 2 * step, step * 4, m)[j]
      ensures Phase(x, 3)[j] == Strided(f, off + 3 * step, step * 4, m)[j]
    {
      StrideIndex(step, j);
    }
  }

  lemma Combine2(f: seq<Cx>, off: nat, step: nat, m: nat, e: nat, q: Cx, w: Cx, u: nat, t: nat)
    requires t == step * u
    requires e >= 1 && m == Pow2(e - 1) && Quarter(q) && Root(Pow(w, step), e, q) && u < m
    ensures var g := StridedDft(f, off, step, 2 * m, w);
            var f0 := StridedDft(f, off, step * 2, m, w)[u];
            SumAndDifference(g[u], g[m + u], f0, Mul(StridedDft(f, off + step, step * 2, m, w)[u], Pow(w, t)))
  {
    hide Mul, Pow, Eval, Root, Strided, Pow2, Even, Odd, StridedDft;
    PowTwice(e);
    StridedSplit2(f, off, step, m);
    var x := Strided(f, off, step, 2 * m);
    Radix2(x, Pow(w, step), e, q, u);
    StridedBin(f, off, step, 2 * m, w, u);
    StridedBin(f, off, step, 2 * m, w, m + u);
    StridedBin(f, off, step * 2, m, w, u);
    StridedBin(f, off + step, step * 2, m, w, u);
    StridedPowers(w, step, u);
  }

  lemma StridedPowers(w: Cx, step: nat, u: nat)
    ensures Pow(Pow(w, step), u) == Pow(w, step * u)
    ensures Pow(Pow(w, step), 2 * u) == Pow(Pow(w, step * 2), u)
  {
    hide *;
    PowPow(w, step * 2, u);
    PowPow(w, step, u);
    PowPow(w, step, 2 * u);
    StrideIndex(step, u);
  }

  lemma StridedBin(f: seq<Cx>, off: nat, step: nat, n: nat, w: Cx, k: nat)
    requires k < n
    ensures StridedDft(f, off, step, n, w)[k] == Eval(Strided(f, off, step, n), Pow(Pow(w, step), k))
  {
    PowPow(w, step, k);
  }

  lemma Combine4(f: seq<Cx>, off: nat, step: nat, m: nat, e: nat, q: Cx, w: Cx, u: nat, t: nat)
    requires t == step * u
    requires e >= 2 && m == Pow2(e - 2) && Quarter(q) && Root(Pow(w, step), e, q) && u < m
    ensures var g := StridedDft(f, off, step, 4 * m, w);
            Butterfly(g[u], g[m + u], g[2 * m + u], g[3 * m + u],
                      StridedDft(f, off, step * 4, m, w)[u],
                      Mul(StridedDft(f, off + step, step * 4, m, w)[u], Pow(w, t)),
                      Mul(StridedDft(f, off + 2 * step, step * 4, m, w)[u], Pow(w, 2 * t)),
                      Mul(StridedDft(f, off + 3 * step, step * 4, m, w)[u], Pow(w, 3 * t)), q)
  {
    hide Mul, Pow, Eval, Root, Strided;
    PowTwice(e);
    PowTwice(e - 1);
    StridedSplit4(f, off, step, m);
    Radix4(Strided(f, off, step, 4 * m), Pow(w, step), e, q, u);
    PowPow(w, step, u);
    PowPow(w, step, 2 * u);
    PowPow(w, step, 3 * u);
    PowPow(w, step, 4 * u);
    PowPow(w, step, u + m);
    PowPow(w, step, u + 2 * m);
    PowPow(w, step, u + 3 * m);
    StrideIndex(step, u);
  }

  lemma PhasesAt(f: seq<Cx>, off: nat, step: nat, p: nat, m: nat, w: Cx, u: nat)
    requires u < m
    ensures p >= 2 ==> var s := Phases(f, off, step, p, m, w, 2);
            && s[u] == StridedDft(f, off, step * p, m, w)[u]
            && s[m + u] == StridedDft(f, off + step, step * p, m, w)[u]
    ensures p == 4 ==> var s := Phases(f, off, step, p, m, w, 4);
            && s[u] == StridedDft(f, off, step * p, m, w)[u]
            && s[m + u] == StridedDft(f, off + step, step * p, m, w)[u]
            && s[2 * m + u] == StridedDft(f, off + 2 * step, step * p, m, w)[u]
            && s[3 * m + u] == StridedDft(f, off + 3 * step, step * p, m, w)[u]
  {
    hide StridedDft;
    assert Phases(f, off, step, p, m, w, 0) == [];
    var s1 := Phases(f, off, step, p, m, w, 1);
    assert s1 == [] + StridedDft(f, off + 0 * step, step * p, m, w);
    var s2 := Phases(f, off, step, p, m, w, 2);
    assert s2 == s1 + StridedDft(f, off + 1 * step, step * p, m, w);
    if p == 4 {
      var s3 := Phases(f, off, step, p, m, w, 3);
      assert s3 == s2 + StridedDft(f, off + 2 * step, step * p, m, w);
      var s4 := Phases(f, off, step, p, m, w, 4);
      assert s4 == s3 + StridedDft(f, off + 3 * step, step * p, m, w);
    }
  }

  /** The bins a butterfly step produces are the ones of the longer transform. */
  ghost predicate Bins2(a: seq<Cx>, g: seq<Cx>, lo: nat, m: nat, u: nat) {
    u < m && lo + 2 * m <= |a| && |g| == 2 * m && a[lo + u] == g[u] && a[lo + m + u] == g[m + u]
  }

  ghost predicate Bins4(a: seq<Cx>, g: seq<Cx>, lo: nat, m: nat, u: nat) {
    && u < m && lo + 4 * m <= |a| && |g| == 4 * m
    && a[lo + u] == g[u] && a[lo + m + u] == g[m + u]
    && a[lo + 2 * m + u] == g[2 * m + u] && a[lo + 3 * m + u] == g[3 * m + u]
  }

  lemma AllBins2(a: seq<Cx>, g: seq<Cx>, lo: nat, m: nat)
    requires lo + 2 * m <= |a| && |g| == 2 * m
    requires forall u: nat | u < m :: Bins2(a, g, lo, m, u)
    ensures a[lo..lo + 2 * m] == g
  {
    forall i: nat | i < 2 * m
      ensures a[lo..lo + 2 * m][i] == g[i]
    {
      assert Bins2(a, g, lo, m, if i < m then i else i - m);
    }
  }

  lemma AllBins4(a: seq<Cx>, g: seq<Cx>, lo: nat, m: nat)
    requires lo + 4 * m <= |a| && |g| == 4 * m
    requires forall u: nat | u < m :: Bins4(a, g, lo, m, u)
    ensures a[lo..lo + 4 * m] == g
  {
    forall i: nat | i < 4 * m
      ensures a[lo..lo + 4 * m][i] == g[i]
    {
      assert Bins4(a, g, lo, m,
                   if i < m then i else if i < 2 * m then i - m else if i < 3 * m then i - 2 * m else i - 3 * m);
    }
  }

  lemma Stage2At(before: seq<Cx>, after: seq<Cx>, lo: nat, f: seq<Cx>, off: nat, step: nat, m: nat, e: nat, q: Cx,
                 w: Cx, u: nat)
    requires Did2(before, after, lo, m, w, step, u)
    requires before[lo..lo + 2 * m] == Phases(f, off, step, 2, m, w, 2)
    requires e >= 1 && m == Pow2(e - 1) && Quarter(q) && Root(Pow(w, step), e, q)
    ensures Bins2(after, StridedDft(f, off, step, 2 * m, w), lo, m, u)
  {
    hide Mul, Pow, Root, Pow2, Eval, Phases, Strided;
    var s := before[lo..lo + 2 * m];
    assert s[u] == before[lo + u] && s[m + u] == before[lo + m + u];
    assert |StridedDft(f, off, step, 2 * m, w)| == 2 * m;
    hide StridedDft;
    assert 1 * (step * u) == step * u;
    PhasesAt(f, off, step, 2, m, w, u);
    Combine2(f, off, step, m, e, q, w, u, step * u);
  }

  lemma Stage4At(before: seq<Cx>, after: seq<Cx>, lo: nat, f: seq<Cx>, off: nat, step: nat, m: nat, e: nat, q: Cx,
                 w: Cx, u: nat)
    requires Did4(before, after, lo, m, w, step, q, u)
    requires before[lo..lo + 4 * m] == Phases(f, off, step, 4, m, w, 4)
    requires e >= 2 && m == Pow2(e - 2) && Quarter(q) && Root(Pow(w, step), e, q)
    ensures Bins4(after, StridedDft(f, off, step, 4 * m, w), lo, m, u)
  {
    hide Mul, Pow, Root, Pow2, Eval, Phases, Strided;
    var s := before[lo..lo + 4 * m];
    assert s[u] == before[lo + u] && s[m + u] == before[lo + m + u];
    assert s[2 * m + u] == before[lo + 2 * m + u] && s[3 * m + u] == before[lo + 3 * m + u];
    assert |StridedDft(f, off, step, 4 * m, w)| == 4 * m;
    hide StridedDft;
    assert 1 * (step * u) == step * u;
    PhasesAt(f, off, step, 4, m, w, u);
    Combine4(f, off, step, m, e, q, w, u, step * u);
  }

  lemma Stage2(before: seq<Cx>, after: seq<Cx>, lo: nat, f: seq<Cx>, off: nat, step: nat, m: nat, e: nat, q: Cx, w: Cx)
    requires lo + 2 * m <= |before| == |after| && before[lo..lo + 2 * m] == Phases(f, off, step, 2, m, w, 2)
    requires forall u: nat | u < m :: Did2(before, after, lo, m, w, step, u)
    requires e >= 1 && m == Pow2(e - 1) && Quarter(q) && Root(Pow(w, step), e, q)
    ensures after[lo..lo + 2 * m] == StridedDft(f, off, step, 2 * m, w)
  {
    var g := StridedDft(f, off, step, 2 * m, w);
    assert |g| == 2 * m;
    hide *;
    forall u: nat | u < m
      ensures Bins2(after, g, lo, m, u)
    {
      Stage2At(before, after, lo, f, off, step, m, e, q, w, u);
    }
    AllBins2(after, g, lo, m);
  }

  lemma Stage4(before: seq<Cx>, after: seq<Cx>, lo: nat, f: seq<Cx>, off: nat, step: nat, m: nat, e: nat, q: Cx, w: Cx)
    requires lo + 4 * m <= |before| == |after| && before[lo..lo + 4 * m] == Phases(f, off, step, 4, m, w, 4)
    requires forall u: nat | u < m :: Did4(before, after, lo, m, w, step, q, u)
    requires e >= 2 && m == Pow2(e - 2) && Quarter(q) && Root(Pow(w, step), e, q)
    ensures after[lo..lo + 4 * m] == StridedDft(f, off, step, 4 * m, w)
  {
    var g := StridedDft(f, off, step, 4 * m, w);
    assert |g| == 4 * m;
    hide *;
    forall u: nat | u < m
      ensures Bins4(after, g, lo, m, u)
    {
      Stage4At(before, after, lo, f, off, step, m, e, q, w, u);
    }
    AllBins4(after, g, lo, m);
  }

  /** What the table says about entry s of a power-of-two plan. */
  lemma StageOf(stages: seq<Stage>, E: nat, s: nat, e: nat)
    requires Chain(stages, Pow2(E)) && s < |stages| && Before(stages, Pow2(E), s) == Pow2(e)
    requires if E == 0 then stages == [Stage(1, 1)] else SmallRadices(stages)
    ensures var p, m := stages[s].p, stages[s].m;
            || (E == 0 && e == 0 && p == 1 && m == 1)
            || (e >= 1 && p == 2 && m == Pow2(e - 1))
            || (e >= 2 && p == 4 && m == Pow2(e - 2))
    ensures (stages[s].m == 1) == (s + 1 == |stages|)
    ensures s + 1 < |stages| ==> Before(stages, Pow2(E), s + 1) == stages[s].m
  {
  }

  lemma StepPower(E: nat, e: nat, d: nat)
    requires d <= 2 && d <= e <= E
    ensures Pow2(E - e) * Pow2(d) == Pow2(E - (e - d))
  {
    if d == 2 {
      PowTwice(E - e + 2);
      PowTwice(E - e + 1);
    } else if d == 1 {
      PowTwice(E - e + 1);
    }
    assert Pow2(0) == 1 && Pow2(1) == 2 && Pow2(2) == 4;
  }

  lemma RoomFor(p: nat, m: nat, r: nat)
    requires r < p
    ensures r * m + m == (r + 1) * m <= p * m
  {
  }

  lemma CursorMoves(p: nat, m: nat, r: nat)
    requires r <= p && m > 0
    ensures r * m == p * m <==> r == p
    ensures r * m <= p * m
  {
  }

  lemma OneSample(f: seq<Cx>, off: nat, step: nat, w: Cx)
    requires off < |f|
    ensures StridedDft(f, off, step, 1, w) == [f[off]]
  {
    hide Mul, Pow;
    var s := Strided(f, off, step, 1);
    assert step * 0 == 0;
    assert s == [f[off]] && s[1..] == [];
    var z := Pow(w, step * 0);
    assert Eval(s[1..], z) == ZERO;
    MulUnit(z);
    assert Eval(s, z) == f[off];
  }

  lemma PhasesStep(f: seq<Cx>, off: nat, step: nat, p: nat, m: nat, w: Cx, r: nat)
    ensures Phases(f, off, step, p, m, w, r + 1)
         == Phases(f, off, step, p, m, w, r) + StridedDft(f, off + r * step, step * p, m, w)
  {
  }

  /** The tables of a configured transform of length 2^E. */
  ghost predicate Configured(stages: seq<Stage>, tw: seq<Cx>, inverse: bool, w: Cx, E: nat) {
    && |tw| == Pow2(E) && Twiddles(tw, w) && Root(w, E, QuarterOf(inverse))
    && Chain(stages, Pow2(E))
    && (if E == 0 then stages == [Stage(1, 1)] else SmallRadices(stages))
  }

  /** Entry s of the factor table is the next stage of a sub-transform of length 2^e that starts at
      input offset `off` with input step `fstride`. */
  ghost predicate Current(stages: seq<Stage>, s: nat, E: nat, e: nat, off: nat, fstride: nat) {
    && e <= E && fstride == Pow2(E - e) && off < fstride
    && s < |stages| && Before(stages, Pow2(E), s) == Pow2(e)
  }

  /** The radix and remaining length of the current stage, as powers of two. */
  lemma StageSizes(stages: seq<Stage>, tw: seq<Cx>, inverse: bool, w: Cx, E: nat, s: nat, e: nat, off: nat,
                   fstride: nat)
    returns (d: nat)
    requires Configured(stages, tw, inverse, w, E) && Current(stages, s, E, e, off, fstride)
    ensures s < |stages| && d <= e <= E && d <= 2
    ensures var p, m := stages[s].p, stages[s].m;
            && p == Pow2(d) && m == Pow2(e - d) && p * m == Pow2(e) && m > 0
            && p == (if d == 0 then 1 else if d == 1 then 2 else 4)
            && (d == 0 ==> m == 1)
            && (m == 1) == (s + 1 == |stages|)
            && fstride * p == Pow2(E - (e - d)) <= Pow2(E)
  {
    hide Root, Twiddles, Pow, Mul, SmallRadices, Chain;
    StageOf(stages, E, s, e);
    d := if stages[s].p == 1 then 0 else if stages[s].p == 2 then 1 else 2;
    assert Pow2(0) == 1 && Pow2(1) == 2 && Pow2(2) == 4;
    StepPower(E, e, d);
    Pow2Monotone(E - (e - d), e - d);
  }

  lemma NextStage(stages: seq<Stage>, E: nat, s: nat, e: nat, d: nat, off: nat, fstride: nat, r: nat)
    requires Current(stages, s, E, e, off, fstride) && d <= e
    requires stages[s].m == Pow2(e - d) && fstride * stages[s].p == Pow2(E - (e - d)) && r < stages[s].p
    ensures off + r * fstride < fstride * stages[s].p
    ensures s + 1 < |stages| ==> Current(stages, s + 1, E, e - d, off + r * fstride, fstride * stages[s].p)
  {
    RoomFor(stages[s].p, fstride, r);
  }

  /** The root and the twiddle indices a butterfly of this stage uses. */
  lemma StageTwiddles(stages: seq<Stage>, tw: seq<Cx>, inverse: bool, w: Cx, E: nat, s: nat, e: nat, off: nat,
                      fstride: nat)
    requires Configured(stages, tw, inverse, w, E) && Current(stages, s, E, e, off, fstride)
    ensures Quarter(QuarterOf(inverse)) && Root(Pow(w, fstride), e, QuarterOf(inverse)) && Twiddles(tw, w)
    ensures |tw| == fstride * Pow2(e)
  {
    RootPower(w, E, QuarterOf(inverse), E - e);
    Pow2Add(E - e, e);
  }

  lemma {:induction false} Pow2Add(a: nat, b: nat)
    ensures Pow2(a + b) == Pow2(a) * Pow2(b)
  {
    if a > 0 {
      Pow2Add(a - 1, b);
    }
  }

  lemma Pow2Monotone(a: nat, b: nat)
    ensures Pow2(a) <= Pow2(a + b)
  {
    Pow2Add(a, b);
  }

  lemma TwiddleRange(fstride: nat, p: nat, m: nat, size: nat)
    requires m > 0 && fstride > 0 && size == fstride * (p * m) && (p == 2 || p == 4)
    ensures fstride * (m - 1) < size
    ensures p == 4 ==> 3 * (fstride * (m - 1)) < size
  {
    var a, b := fstride * (m - 1), fstride * m;
    assert b == a + fstride;
    assert size == p * b;
  }

  /** The recursive worker: out[lo..lo+2^e] becomes the transform of 2^e samples of f, `fstride`
      apart from `off`; nothing else in `out` changes. Stage s of the plan is the current one. */
  method Work(out: array<Cx>, lo: nat, f: seq<Cx>, off: nat, fstride: nat, stages: seq<Stage>, s: nat,
              tw: seq<Cx>, inverse: bool, ghost w: Cx, ghost E: nat, ghost e: nat)
    requires Configured(stages, tw, inverse, w, E) && Current(stages, s, E, e, off, fstride)
    requires |f| == Pow2(E) && lo + Pow2(e) <= out.Length
    modifies out
    ensures out[lo..lo + Pow2(e)] == StridedDft(f, off, fstride, Pow2(e), w)
    ensures OutsideSame(out[..], old(out[..]), lo, lo + Pow2(e))
    decreases |stages| - s, 2
  {
    hide Configured, Current, Chain, Before, Phases, StridedDft, Did2, Did4, Pow, Mul, Root, Pow2, Twiddles;
    ghost var d := StageSizes(stages, tw, inverse, w, E, s, e, off, fstride);
    var p, m := stages[s].p, stages[s].m;
    WorkPhases(out, lo, f, off, fstride, stages, s, tw, inverse, w, E, e, d);
    ghost var mid := out[..];
    StageTwiddles(stages, tw, inverse, w, E, s, e, off, fstride);
    if p == 2 {
      TwiddleRange(fstride, p, m, |tw|);
      Butterfly2(out, lo, fstride, tw, m, w);
      Stage2(mid, out[..], lo, f, off, fstride, m, e, QuarterOf(inverse), w);
    } else if p == 4 {
      TwiddleRange(fstride, p, m, |tw|);
      Butterfly4(out, lo, fstride, tw, inverse, m, w);
      Stage4(mid, out[..], lo, f, off, fstride, m, e, QuarterOf(inverse), w);
    } else {
      SinglePhase(f, off, fstride, w);
    }
  }

  lemma SinglePhase(f: seq<Cx>, off: nat, step: nat, w: Cx)
    ensures Phases(f, off, step, 1, 1, w, 1) == StridedDft(f, off, step, 1, w)
  {
    assert Phases(f, off, step, 1, 1, w, 0) == [];
    assert off + 0 * step == off && step * 1 == step;
  }

  /** The cursors of the worker after r sub-transforms. */
  ghost predicate Cursor(lo: nat, fo: nat, end: nat, off: nat, ff: nat, step: nat, p: nat, m: nat, r: nat) {
    && fo == lo + r * m && end == lo + p * m && ff == off + r * step
    && r <= p && fo <= end
  }

  lemma CursorStep(lo: nat, fo: nat, end: nat, off: nat, ff: nat, step: nat, p: nat, m: nat, r: nat)
    requires Cursor(lo, fo, end, off, ff, step, p, m, r) && off < step && m > 0
    ensures fo == end <==> r == p
    ensures lo <= fo && r <= p
    ensures r < p ==> fo + m <= end && ff < step * p && Cursor(lo, fo + m, end, off, ff + step, step, p, m, r + 1)
  {
    CursorMoves(p, m, r);
    if r < p {
      RoomFor(p, m, r);
      RoomFor(p, step, r);
    }
  }

  lemma CursorStart(lo: nat, off: nat, step: nat, p: nat, m: nat)
    ensures Cursor(lo, lo, lo + p * m, off, off, step, p, m, 0)
  {
    assert 0 * m == 0 && 0 * step == 0 && p * m >= 0;
  }

  lemma NothingOutside(a: seq<Cx>, lo: nat, hi: nat)
    ensures OutsideSame(a, a, lo, hi)
  {
  }

  lemma CurrentOffset(stages: seq<Stage>, s: nat, E: nat, e: nat, off: nat, fstride: nat)
    requires Current(stages, s, E, e, off, fstride)
    ensures off < fstride
  {
  }

  /** One sub-transform of length m: a single sample is copied, a longer one is a call of the worker on the
      next stage. */
  method OnePhase(out: array<Cx>, fo: nat, f: seq<Cx>, ff: nat, step: nat, m: nat, stages: seq<Stage>, s: nat,
                  tw: seq<Cx>, inverse: bool, ghost w: Cx, ghost E: nat, ghost e: nat)
    requires Configured(stages, tw, inverse, w, E) && |f| == Pow2(E) && fo + m <= out.Length && m == Pow2(e) > 0
    requires m == 1 ==> ff < |f|
    requires m != 1 ==> s + 1 < |stages| && Current(stages, s + 1, E, e, ff, step)
    modifies out
    ensures out[fo..fo + m] == StridedDft(f, ff, step, m, w)
    ensures OutsideSame(out[..], old(out[..]), fo, fo + m)
    decreases |stages| - s, 0
  {
    hide *;
    if m == 1 {
      ghost var before := out[..];
      out[fo] := f[ff];
      OneSample(f, ff, step, w);
      OutsideOne(before, out[..], fo);
    } else {
      Work(out, fo, f, ff, step, stages, s + 1, tw, inverse, w, E, e);
    }
  }

  /** The loop of the worker: the p interleaved sub-transforms, one after the other. */
  method WorkPhases(out: array<Cx>, lo: nat, f: seq<Cx>, off: nat, fstride: nat, stages: seq<Stage>, s: nat,
                    tw: seq<Cx>, inverse: bool, ghost w: Cx, ghost E: nat, ghost e: nat, ghost d: nat)
    requires Configured(stages, tw, inverse, w, E) && Current(stages, s, E, e, off, fstride) && s < |stages|
    requires |f| == Pow2(E) && lo + stages[s].p * stages[s].m <= out.Length
    requires d <= e <= E && stages[s].m == Pow2(e - d) > 0
    requires fstride * stages[s].p == Pow2(E - (e - d)) <= Pow2(E)
    requires stages[s].m == 1 <==> s + 1 == |stages|
    modifies out
    ensures var p, m := stages[s].p, stages[s].m;
            && out[lo..lo + p * m] == Phases(f, off, fstride, p, m, w, p)
            && OutsideSame(out[..], old(out[..]), lo, lo + p * m)
    decreases |stages| - s, 1
  {
    hide *;
    var p, m := stages[s].p, stages[s].m;
    var fo: nat, ff: nat := lo, off;
    var step, end := fstride * p, lo + p * m;
    ghost var r: nat := 0;
    CurrentOffset(stages, s, E, e, off, fstride);
    NoPhases(f, off, fstride, p, m, w);
    NothingOutside(out[..], lo, end);
    CursorStart(lo, off, fstride, p, m);
    CursorStep(lo, fo, end, off, ff, fstride, p, m, r);
    while fo != end
      invariant Cursor(lo, fo, end, off, ff, fstride, p, m, r)
      invariant lo <= fo <= end && r <= p && (fo == end <==> r == p)
      invariant out[lo..fo] == Phases(f, off, fstride, p, m, w, r)
      invariant OutsideSame(out[..], old(out[..]), lo, end)
      decreases p - r
    {
      CursorStep(lo, fo, end, off, ff, fstride, p, m, r);
      PhaseAtCursor(f, lo, fo, end, off, ff, fstride, p, m, r, w);
      NextAtCursor(stages, E, s, e, d, lo, fo, end, off, ff, fstride, p, m, r);
      ghost var before := out[..];
      OnePhase(out, fo, f, ff, step, m, stages, s, tw, inverse, w, E, e - d);
      OutsideStep(out[..], before, old(out[..]), fo, m, lo, end);
      r := r + 1;
      fo, ff := fo + m, ff + fstride;
      CursorStep(lo, fo, end, off, ff, fstride, p, m, r);
    }
  }

  lemma PhaseAtCursor(f: seq<Cx>, lo: nat, fo: nat, end: nat, off: nat, ff: nat, step: nat, p: nat, m: nat, r: nat,
                      w: Cx)
    requires Cursor(lo, fo, end, off, ff, step, p, m, r)
    ensures Phases(f, off, step, p, m, w, r + 1)
         == Phases(f, off, step, p, m, w, r) + StridedDft(f, ff, step * p, m, w)
  {
    PhasesStep(f, off, step, p, m, w, r);
  }

  lemma NextAtCursor(stages: seq<Stage>, E: nat, s: nat, e: nat, d: nat, lo: nat, fo: nat, end: nat, off: nat,
                     ff: nat, fstride: nat, p: nat, m: nat, r: nat)
    requires Cursor(lo, fo, end, off, ff, fstride, p, m, r) && r < p
    requires Current(stages, s, E, e, off, fstride) && d <= e && p == stages[s].p && m == stages[s].m
    requires m == Pow2(e - d) && fstride * p == Pow2(E - (e - d))
    ensures s + 1 < |stages| ==> Current(stages, s + 1, E, e - d, ff, fstride * p)
  {
    NextStage(stages, E, s, e, d, off, fstride, r);
  }

  lemma OutsideOne(before: seq<Cx>, after: seq<Cx>, i: nat)
    requires i < |before| == |after| && after == before[i := after[i]]
    ensures OutsideSame(after, before, i, i + 1)
  {
  }

  lemma OutsideStep(after: seq<Cx>, before: seq<Cx>, first: seq<Cx>, fo: nat, m: nat, lo: nat, hi: nat)
    requires OutsideSame(after, before, fo, fo + m) && OutsideSame(before, first, lo, hi)
    requires lo <= fo && fo + m <= hi && fo + m <= |before|
    ensures OutsideSame(after, first, lo, hi)
    ensures after[lo..fo + m] == before[lo..fo] + after[fo..fo + m]
  {
  }

  lemma NoPhases(f: seq<Cx>, off: nat, step: nat, p: nat, m: nat, w: Cx)
    ensures Phases(f, off, step, p, m, w, 0) == [] && 0 * m == 0 && 0 * step == 0
  {
  }
}
