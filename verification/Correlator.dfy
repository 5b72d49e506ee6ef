/** The matched correlator: taps reversed in place, a complex delay line, and the peak its output has
    exactly when the window equals the taps. */
module Correlator {
  import opened Arith
  import opened Complex
  import opened Kernel
  import opened DelayLine

  // ------------------------------------------------------------------ complex inner products

  /** x[0] conj(h[0]) + ... + x[n-1] conj(h[n-1]). */
  function Inner(x: seq<Cx>, h: seq<Cx>, n: nat): Cx
    requires n <= |x| && n <= |h|
  {
    if n == 0 then ZERO else Add(Inner(x, h, n - 1), Mul(x[n - 1], Conj(h[n - 1])))
  }

  function Norm2(a: Cx): (r: real)
    ensures r >= 0.0
  {
    a.re * a.re + a.im * a.im
  }

  ghost function Energy(x: seq<Cx>, n: nat): (e: real)
    requires n <= |x|
    ensures e >= 0.0
  {
    if n == 0 then 0.0 else Energy(x, n - 1) + Norm2(x[n - 1])
  }

  lemma {:induction false} InnerFront(x: seq<Cx>, h: seq<Cx>, n: nat)
    requires 0 < n <= |x| && n <= |h|
    ensures Inner(x, h, n) == Add(Mul(x[0], Conj(h[0])), Inner(x[1..], h[1..], n - 1))
  {
    hide Mul, Conj;
    if n > 1 {
      InnerFront(x, h, n - 1);
    }
  }

  lemma {:induction false} InnerOfPrefix(x: seq<Cx>, h: seq<Cx>, m: nat, n: nat)
    requires n <= m <= |x| && m <= |h|
    ensures Inner(x[..m], h[..m], n) == Inner(x, h, n)
  {
    hide Mul, Conj;
    if n > 0 {
      InnerOfPrefix(x, h, m, n - 1);
    }
  }

  /** Reversing both arguments does not change the inner product. */
  lemma {:induction false} InnerReversed(x: seq<Cx>, h: seq<Cx>)
    requires |x| == |h|
    ensures Inner(Reverse(x), Reverse(h), |x|) == Inner(x, h, |x|)
  {
    hide Mul, Conj, Add;
    if x != [] {
      var m := |x| - 1;
      InnerReversed(x[..m], h[..m]);
      InnerFront(Reverse(x), Reverse(h), |x|);
      assert Reverse(x)[1..] == Reverse(x[..m]) && Reverse(h)[1..] == Reverse(h[..m]);
      InnerOfPrefix(x, h, m, m);
      AddComm(Mul(x[m], Conj(h[m])), Inner(x, h, m));
    }
  }

  lemma AddComm(a: Cx, b: Cx)
    ensures Add(a, b) == Add(b, a)
  {
  }

  // ------------------------------------------------------------------ Cauchy-Schwarz

  /** A number whose square is at most p*q lies below their mean. */
  lemma BelowMean(r: real, p: real, q: real)
    requires p >= 0.0 && q >= 0.0 && r * r <= p * q
    ensures 2.0 * r <= p + q
  {
    var s := p + q;
    if 2.0 * r > s {
      assert (p - q) * (p - q) >= 0.0;
      assert s * s == (p - q) * (p - q) + 4.0 * (p * q);
      SquareLess(s, 2.0 * r);
    }
  }

  lemma NormOfProduct(a: Cx, b: Cx)
    ensures Norm2(Mul(a, b)) == Norm2(a) * Norm2(b) && Norm2(Conj(a)) == Norm2(a)
  {
  }

  /** The real part of s conj(t), squared, is at most |s|^2 |t|^2. */
  lemma CrossTerm(s: Cx, t: Cx)
    ensures (s.re * t.re + s.im * t.im) * (s.re * t.re + s.im * t.im) <= Norm2(s) * Norm2(t)
  {
    var d := s.re * t.im - s.im * t.re;
    assert d * d >= 0.0;
    assert (s.re * t.re + s.im * t.im) * (s.re * t.re + s.im * t.im) + d * d == Norm2(s) * Norm2(t);
  }

  lemma NormOfSum(s: Cx, t: Cx)
    ensures Norm2(Add(s, t)) == Norm2(s) + Norm2(t) + 2.0 * (s.re * t.re + s.im * t.im)
  {
  }

  lemma Products(s: real, a: real, b: real, u: real, v: real)
    requires 0.0 <= s <= a * b && u >= 0.0 && v >= 0.0 && a >= 0.0 && b >= 0.0
    ensures s * (u * v) <= (a * v) * (b * u) && a * v >= 0.0 && b * u >= 0.0
  {
    assert u * v >= 0.0;
    TimesLessEq(s, a * b, u * v);
    assert (a * v) * (b * u) == (a * b) * (u * v);
  }

  /** One more term keeps |sum|^2 within the product of the energies. */
  lemma SchwarzStep(s: Cx, t: Cx, a: real, b: real, u: real, v: real)
    requires a >= 0.0 && b >= 0.0 && u >= 0.0 && v >= 0.0
    requires Norm2(s) <= a * b && Norm2(t) == u * v
    ensures Norm2(Add(s, t)) <= (a + u) * (b + v)
  {
    hide Norm2;
    var r := s.re * t.re + s.im * t.im;
    NormNonNegative(s);
    CrossTerm(s, t);
    Products(Norm2(s), a, b, u, v);
    BelowMean(r, a * v, b * u);
    NormOfSum(s, t);
    assert (a + u) * (b + v) == a * b + a * v + b * u + u * v;
  }

  lemma NormNonNegative(s: Cx)
    ensures Norm2(s) >= 0.0
  {
  }

  lemma {:induction false} CauchySchwarz(x: seq<Cx>, h: seq<Cx>, n: nat)
    requires n <= |x| && n <= |h|
    ensures Norm2(Inner(x, h, n)) <= Energy(x, n) * Energy(h, n)
  {
    hide Mul, Conj, Norm2, Add;
    if n == 0 {
      NormOfZero();
    } else {
      CauchySchwarz(x, h, n - 1);
      NormOfProduct(x[n - 1], Conj(h[n - 1]));
      NormOfProduct(h[n - 1], h[n - 1]);
      NormNonNegative(x[n - 1]);
      NormNonNegative(h[n - 1]);
      SchwarzStep(Inner(x, h, n - 1), Mul(x[n - 1], Conj(h[n - 1])), Energy(x, n - 1), Energy(h, n - 1),
                  Norm2(x[n - 1]), Norm2(h[n - 1]));
    }
  }

  lemma NormOfZero()
    ensures Norm2(ZERO) == 0.0
  {
  }

  // ------------------------------------------------------------------ the peak

  lemma {:induction false} InnerWithItself(h: seq<Cx>, n: nat)
    requires n <= |h|
    ensures Inner(h, h, n) == Real(Energy(h, n))
  {
    if n > 0 {
      InnerWithItself(h, n - 1);
      TimesOwnConj(h[n - 1]);
    }
  }

  lemma TimesOwnConj(a: Cx)
    ensures Mul(a, Conj(a)) == Real(Norm2(a))
  {
  }

  ghost function Distance(x: seq<Cx>, h: seq<Cx>, n: nat): (d: real)
    requires n <= |x| && n <= |h|
    ensures d >= 0.0
  {
    if n == 0 then 0.0 else Distance(x, h, n - 1) + Norm2(Sub(x[n - 1], h[n - 1]))
  }

  lemma SquareOfDifference(a: Cx, b: Cx)
    ensures Norm2(Sub(a, b)) == Norm2(a) + Norm2(b) - 2.0 * Mul(a, Conj(b)).re
  {
  }

  lemma {:induction false} DistanceIs(x: seq<Cx>, h: seq<Cx>, n: nat)
    requires n <= |x| && n <= |h|
    ensures Distance(x, h, n) == Energy(x, n) + Energy(h, n) - 2.0 * Inner(x, h, n).re
  {
    hide Mul, Conj, Norm2;
    if n > 0 {
      DistanceIs(x, h, n - 1);
      SquareOfDifference(x[n - 1], h[n - 1]);
    }
  }

  lemma {:induction false} NoDistance(x: seq<Cx>, h: seq<Cx>, n: nat)
    requires n <= |x| && n <= |h| && Distance(x, h, n) == 0.0
    ensures x[..n] == h[..n]
  {
    hide Norm2, Sub;
    if n > 0 {
      NormNonNegative(Sub(x[n - 1], h[n - 1]));
      NoDistance(x, h, n - 1);
      NormZero(Sub(x[n - 1], h[n - 1]));
      SubZero(x[n - 1], h[n - 1]);
      assert x[..n] == x[..n - 1] + [x[n - 1]] && h[..n] == h[..n - 1] + [h[n - 1]];
    }
  }

  lemma SubZero(a: Cx, b: Cx)
    requires Sub(a, b) == ZERO
    ensures a == b
  {
  }

  lemma NormZero(a: Cx)
    requires Norm2(a) == 0.0
    ensures a == ZERO
  {
    SquareZero(a.re, a.im);
    SquareZero(a.im, a.re);
  }

  /** No window of at most the energy of the taps gives the peak value but the taps themselves. */
  lemma PeakExactly(x: seq<Cx>, h: seq<Cx>)
    requires |x| == |h| && Energy(x, |h|) <= Energy(h, |h|)
    ensures Inner(x, h, |h|).re >= Energy(h, |h|) <==> x == h
  {
    hide *;
    var n := |h|;
    InnerWithItself(h, n);
    RealParts(Energy(h, n));
    DistanceIs(x, h, n);
    DistanceNonNegative(x, h, n);
    assert x[..n] == x && h[..n] == h;
    if Inner(x, h, n).re >= Energy(h, n) {
      NoDistance(x, h, n);
    }
  }

  lemma RealParts(r: real)
    ensures Real(r).re == r
  {
  }

  lemma DistanceNonNegative(x: seq<Cx>, h: seq<Cx>, n: nat)
    requires n <= |x| && n <= |h|
    ensures Distance(x, h, n) >= 0.0
  {
  }

  /** The product with a turned or scaled window is turned and scaled in the same way. */
  lemma {:induction false} InnerScaled(u: Cx, x: seq<Cx>, h: seq<Cx>, n: nat)
    requires n <= |x| && n <= |h|
    ensures |ScaleBy(u, x)| == |x| && Inner(ScaleBy(u, x), h, n) == Mul(u, Inner(x, h, n))
  {
    hide Mul, Conj, Add;
    if n == 0 {
      MulUnit(u);
    } else {
      InnerScaled(u, x, h, n - 1);
      MulAssoc(u, x[n - 1], Conj(h[n - 1]));
      MulAdd(u, Inner(x, h, n - 1), Mul(x[n - 1], Conj(h[n - 1])));
    }
  }

  // ------------------------------------------------------------------ the block

  /** The last n samples, oldest first. */
  ghost function Window(seen: seq<Cx>, n: nat): (x: seq<Cx>)
    ensures |x| == n
  {
    seq(n, k requires 0 <= k < n => Tap(seen, n - 1 - k, ZERO))
  }

  lemma WindowReversed(seen: seq<Cx>, n: nat)
    ensures Reverse(Window(seen, n)) == Line(seen, n, ZERO)
  {
  }

  /** Output t of the run: the window that ends with sample t against the taps as the file has them. */
  ghost function Correlation(h: seq<Cx>, seen: seq<Cx>): Cx {
    Inner(Window(seen, |h|), h, |h|)
  }

  ghost function Correlations(h: seq<Cx>, seen: seq<Cx>): (y: seq<Cx>)
    ensures |y| == |seen|
  {
    if seen == [] then [] else Correlations(h, seen[..|seen| - 1]) + [Correlation(h, seen)]
  }

  lemma CorrelationsSnoc(h: seq<Cx>, seen: seq<Cx>, v: Cx)
    ensures Correlations(h, seen + [v]) == Correlations(h, seen) + [Correlation(h, seen + [v])]
    ensures |Correlations(h, seen)| == |seen|
  {
    hide Correlation;
    assert (seen + [v])[..|seen|] == seen;
  }

  /** What the loop adds up over the reversed taps is the correlation with the taps of the file. */
  lemma ReversedTaps(h: seq<Cx>, seen: seq<Cx>)
    ensures |Reverse(h)| == |h|
    ensures Inner(Line(seen, |h|, ZERO), Reverse(h), |h|) == Correlation(h, seen)
  {
    hide Inner;
    WindowReversed(seen, |h|);
    InnerReversed(Window(seen, |h|), h);
  }

  lemma ReverseCells(h: seq<Cx>)
    ensures |Reverse(h)| == |h| && forall k | 0 <= k < |h| :: Reverse(h)[k] == h[|h| - 1 - k]
  {
  }

  /** The output shows the phase: when the window is the taps turned and scaled by u, the output is u times their
      energy; and turning and scaling a whole run does the same to each of its outputs. */
  lemma PhaseShown(h: seq<Cx>, seen: seq<Cx>, u: Cx)
    ensures Window(seen, |h|) == ScaleBy(u, h) ==> Correlation(h, seen) == Mul(u, Real(Energy(h, |h|)))
    ensures Correlation(h, ScaleBy(u, seen)) == Mul(u, Correlation(h, seen))
  {
    hide Mul, Inner;
    InnerScaled(u, h, h, |h|);
    InnerWithItself(h, |h|);
    InnerScaled(u, Window(seen, |h|), h, |h|);
    ScaledWindow(u, seen, |h|);
  }

  lemma ScaledWindow(u: Cx, seen: seq<Cx>, n: nat)
    ensures Window(ScaleBy(u, seen), n) == ScaleBy(u, Window(seen, n))
  {
    hide Mul, Tap;
    forall k | 0 <= k < n
      ensures Window(ScaleBy(u, seen), n)[k] == ScaleBy(u, Window(seen, n))[k]
    {
      ScaledTap(u, seen, n - 1 - k);
    }
  }

  lemma ScaledTap(u: Cx, seen: seq<Cx>, k: nat)
    ensures Tap(ScaleBy(u, seen), k, ZERO) == Mul(u, Tap(seen, k, ZERO))
  {
    hide Mul;
    MulUnit(u);
  }

  class CxCorr {
    const N: nat
    const xP: array<Cx>
    const hP: array<Cx>
    /** The taps as the file has them. */
    ghost const taps: seq<Cx>
    ghost var seen: seq<Cx>

    ghost predicate Valid()
      reads this, xP, hP
    {
      && xP != hP && xP.Length == hP.Length == N == |taps|
      && xP[..] == Line(seen, N, ZERO) && hP[..] == Reverse(taps)
    }

    constructor (file: seq<Cx>)
      ensures Valid() && fresh(xP) && fresh(hP) && seen == [] && taps == file
    {
      N, taps, seen := |file|, file, [];
      xP := new Cx[|file|](_ => ZERO);
      hP := new Cx[|file|](i => if 0 <= i < |file| then file[i] else ZERO);
      new;
      assert hP[..] == file;
      ReverseTaps();
    }

    /** The time reversal: the first half is swapped with the second. */
    method ReverseTaps()
      requires hP.Length == N
      modifies hP
      ensures hP[..] == Reverse(old(hP[..]))
    {
      hide Reverse;
      var half, i := N / 2, 0;
      ghost var h := hP[..];
      while i < half
        invariant 0 <= i <= half
        invariant forall k | 0 <= k < i :: hP[k] == h[N - 1 - k] && hP[N - 1 - k] == h[k]
        invariant forall k | i <= k < N - i :: hP[k] == h[k]
      {
        var tmp := hP[i];
        hP[i] := hP[N - i - 1];
        hP[N - i - 1] := tmp;
        i := i + 1;
      }
      ReverseCells(h);
      forall k | 0 <= k < N
        ensures hP[k] == Reverse(h)[k]
      {
      }
    }

    method InnerProduct() returns (sum: Cx)
      requires Valid()
      ensures sum == Correlation(taps, seen)
    {
      hide Reverse, Line, Correlation;
      sum := ZERO;
      var i := 0;
      while i < N
        invariant 0 <= i <= N && sum == Inner(xP[..], hP[..], i)
      {
        var x, h := xP[i], hP[i];
        TermIs(x, h, sum);
        sum := Cx(sum.re + (x.re * h.re + x.im * h.im), sum.im + (x.im * h.re - x.re * h.im));
        i := i + 1;
      }
      ReversedTaps(taps, seen);
    }

    method Process(v: Cx, out: OutBuffer<Cx>) returns (full: bool)
      requires Valid()
      modifies xP, this`seen, out
      ensures Valid() && seen == old(seen) + [v]
      ensures out.cells == old(out.cells) + (if full then [] else [Correlation(taps, seen)])
    {
      hide Line, Reverse, Correlation;
      ShiftIn(xP, v, seen, ZERO);
      seen := seen + [v];
      var sum := InnerProduct();
      full := out.Put(sum);
    }

    method MainCode(inp: InBuffer<Cx>, out: OutBuffer<Cx>) returns (status: int)
      requires Valid()
      modifies xP, this`seen, inp, out
      ensures Valid() && (status == 0 || status == 99)
      ensures old(seen) <= seen && old(inp.pending) == seen[|old(seen)|..] + inp.pending
      ensures var y := Correlations(taps, seen)[|old(seen)|..];
              if status == 0 then inp.pending == [] && out.cells == old(out.cells) + y
              else y != [] && out.cells == old(out.cells) + y[..|y| - 1]
    {
      hide *;
      ghost var s0 := seen;
      CorrelationsSnoc(taps, s0, ZERO);
      while inp.pending != []
        invariant Valid() && s0 <= seen && old(inp.pending) == seen[|s0|..] + inp.pending
        invariant |Correlations(taps, seen)| == |seen|
        invariant out.cells == old(out.cells) + Correlations(taps, seen)[|s0|..]
        decreases |inp.pending|
      {
        var v := inp.Take();
        CorrelationsSnoc(taps, seen, v);
        LastCell(Correlations(taps, seen), Correlation(taps, seen + [v]), |s0|);
        LastCell(seen, v, |s0|);
        var full := Process(v, out);
        if full {
          return 99;
        }
      }
      return 0;
    }
  }

  lemma TermIs(x: Cx, h: Cx, sum: Cx)
    ensures Add(sum, Mul(x, Conj(h)))
         == Cx(sum.re + (x.re * h.re + x.im * h.im), sum.im + (x.im * h.re - x.re * h.im))
  {
    Negated(x.im, h.im);
    Negated(x.re, h.im);
    var m := Mul(x, Conj(h));
    assert m.re == x.re * h.re + x.im * h.im;
    assert m.im == x.im * h.re - x.re * h.im;
  }

  lemma Negated(a: real, b: real)
    ensures a * -b == -(a * b)
  {
  }

  /** The output never exceeds what the energies of the taps and of the window allow. */
  lemma OutputBounded(h: seq<Cx>, seen: seq<Cx>)
    ensures Norm2(Correlation(h, seen)) <= Energy(Window(seen, |h|), |h|) * Energy(h, |h|)
    ensures Window(seen, |h|) == h ==> Correlation(h, seen) == Real(Energy(h, |h|))
  {
    hide Norm2, Energy, Inner, Window;
    CauchySchwarz(Window(seen, |h|), h, |h|);
    InnerWithItself(h, |h|);
  }
}
