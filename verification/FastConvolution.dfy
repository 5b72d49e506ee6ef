/** Overlap-save convolution: the block loop, the spectral product it uses, and the exact condition
    under which it agrees with the tapped delay line. */
module FastConvolution {
  import opened Complex
  import opened Dft
  import opened Fft
  import opened RealFft
  import opened Convolution
  import opened Kernel
  import opened Arith
  import opened DelayLine

  // ------------------------------------------------------------------ the spectral product

  function TimesConj(a: Cx, b: Cx, conjugate: real): Cx {
    Cx(a.re * b.re - a.im * b.im * conjugate, a.re * b.im * conjugate + a.im * b.re)
  }

  lemma TimesConjIs(a: Cx, b: Cx)
    ensures TimesConj(a, b, 1.0) == Mul(a, b)
    ensures TimesConj(a, b, -1.0) == Mul(a, Conj(b))
  {
  }

  /** The in-place spectral product. The loop stops before bin npoints-1, so that bin and every
      later one keep the value they had. */
  method MultiplySpectra(product: array<Cx>, factor: array<Cx>, npoints: nat, conjugate: real)
    requires 0 < product.Length && 0 < factor.Length && npoints <= product.Length && npoints <= factor.Length
    requires product != factor
    modifies product
    ensures product[0] == Cx(old(product[0].re) * factor[0].re, old(product[0].im) * factor[0].im)
    ensures forall i | 1 <= i < npoints - 1 :: product[i] == TimesConj(old(product[i]), factor[i], conjugate)
    ensures forall i | 1 <= i < product.Length && i >= npoints - 1 :: product[i] == old(product[i])
  {
    hide TimesConj;
    product[0] := Cx(product[0].re * factor[0].re, product[0].im * factor[0].im);
    var i := 1;
    while i < npoints - 1
      invariant i >= 1 && (i <= npoints - 1 || i == 1)
      invariant product[0] == Cx(old(product[0].re) * factor[0].re, old(product[0].im) * factor[0].im)
      invariant forall j | 1 <= j < i :: product[j] == TimesConj(old(product[j]), factor[j], conjugate)
      invariant forall j | i <= j < product.Length :: product[j] == old(product[j])
    {
      product[i] := TimesConj(product[i], factor[i], conjugate);
      i := i + 1;
    }
  }

  // ------------------------------------------------------------------ the taps it really applies

  /** The response bins the product applies: h's own, except that bins m-1 (for m > 1) and m, the
      two it skips, are 1. */
  ghost function Applied(H: seq<Cx>, m: nat): (A: seq<Cx>)
    requires |H| == m + 1
  {
    seq(m + 1, k requires 0 <= k <= m => if k == m || (k == m - 1 && k > 0) then ONE else H[k])
  }

  ghost function PadTo(h: seq<real>, n: nat): (p: seq<real>)
    requires |h| <= n
    ensures |p| == n
  {
    h + Silence(n - |h|)
  }

  ghost function Divided(s: seq<real>, n: real): (d: seq<real>)
    requires n != 0.0
    ensures |d| == |s|
  {
    seq(|s|, i requires 0 <= i < |s| => s[i] / n)
  }

  /** The length-n impulse response with that spectrum. */
  ghost function AppliedTaps(h: seq<real>, w: Cx, m: nat): (t: seq<real>)
    requires |h| <= 2 * m && m > 0
    ensures |t| == 2 * m
  {
    Divided(Samples(Extend(Applied(Spectrum(PadTo(h, 2 * m), w, m), m), m), Conj(w), 2 * m), (2 * m) as real)
  }

  /** A Hermitian spectrum is the transform of its (real) inverse transform. */
  lemma TapsSpectrum(f: seq<Cx>, t: seq<real>, w: Cx, e: nat, k: nat)
    requires Root(w, e + 1, FORWARD) && |f| == 2 * Pow2(e) == |t| && Hermitian(f) && k < |f|
    requires t == Divided(Samples(f, Conj(w), |f|), |f| as real)
    ensures Eval(ToCx(t), Pow(w, k)) == f[k]
  {
    hide *;
    ForwardIsQuarter();
    PowTwice(e + 1);
    BaseRoots(w, e, true);
    var u := Conj(w);
    ConjConj(w);
    Inversion(f, u, e + 1, BACKWARD, k);
    ScaledTaps(f, t, w, e);
    EvalScale(Real(|f| as real), ToCx(t), Pow(w, k));
    MulReal(Eval(ToCx(t), Pow(w, k)), |f| as real);
    Unscale(Eval(ToCx(t), Pow(w, k)), f[k], |f| as real);
  }

  lemma Unscale(a: Cx, b: Cx, r: real)
    requires r != 0.0 && Scale(r, a) == Scale(r, b)
    ensures a == b
  {
    assert r * a.re == r * b.re && r * a.im == r * b.im;
  }

  lemma ScaledTaps(f: seq<Cx>, t: seq<real>, w: Cx, e: nat)
    requires Root(w, e + 1, FORWARD) && |f| == 2 * Pow2(e) == |t| && Hermitian(f)
    requires t == Divided(Samples(f, Conj(w), |f|), |f| as real)
    ensures ScaleBy(Real(|f| as real), ToCx(t)) == Bins(f, Conj(w), |f|)
  {
    hide *;
    var u, n := Conj(w), |f| as real;
    TapLengths(f, t, u, n);
    ForwardIsQuarter();
    BaseRoots(w, e, true);
    var s, d := ScaleBy(Real(n), ToCx(t)), Bins(f, u, |f|);
    forall i | 0 <= i < |f|
      ensures s[i] == d[i]
    {
      ScaledTapAt(f, t, u, e, i);
    }
  }

  lemma TapLengths(f: seq<Cx>, t: seq<real>, u: Cx, n: real)
    requires |f| == |t|
    ensures |ScaleBy(Real(n), ToCx(t))| == |Bins(f, u, |f|)| == |f|
  {
  }

  lemma ScaledTapAt(f: seq<Cx>, t: seq<real>, u: Cx, e: nat, i: nat)
    requires Root(u, e + 1, BACKWARD) && |f| == 2 * Pow2(e) == |t| && Hermitian(f) && i < |f|
    requires t == Divided(Samples(f, u, |f|), |f| as real)
    ensures ScaleBy(Real(|f| as real), ToCx(t))[i] == Bins(f, u, |f|)[i]
  {
    hide Mul, Pow, Eval, Root, Hermitian, Pow2, Samples;
    RealAtRoot(f, u, e, i);
    SamplesAt(f, u, |f|, i);
    assert t[i] == Samples(f, u, |f|)[i] / |f| as real;
    ScaledReal(t[i], |f| as real, Eval(f, Pow(u, i)));
  }

  lemma SamplesAt(f: seq<Cx>, u: Cx, n: nat, i: nat)
    requires i < n
    ensures Samples(f, u, n)[i] == Eval(f, Pow(u, i)).re
  {
  }

  lemma ScaledReal(t: real, n: real, v: Cx)
    requires n != 0.0 && v.im == 0.0 && t == v.re / n
    ensures Mul(Real(n), Real(t)) == v
  {
    assert n * (v.re / n) == v.re;
  }

  /** What the product leaves in bins 0..m, given the input bins X and the response bins H. */
  ghost predicate Multiplied(Z: seq<Cx>, X: seq<Cx>, H: seq<Cx>, m: nat) {
    && |X| == |H| == m + 1 && |Z| > m > 0
    && Z[0] == Cx(X[0].re * H[0].re, X[0].im * H[0].im)
    && (forall i | 1 <= i < m - 1 :: Z[i] == TimesConj(X[i], H[i], 1.0))
    && (forall i | 1 <= i <= m && i >= m - 1 :: Z[i] == X[i])
  }

  lemma ProductBin(Z: seq<Cx>, X: seq<Cx>, H: seq<Cx>, m: nat, k: nat)
    requires Multiplied(Z, X, H, m) && k < 2 * m
    ensures Extend(Z, m)[k] == Mul(Extend(X, m)[k], Extend(Applied(H, m), m)[k])
  {
    var A := Applied(H, m);
    assert |A| == m + 1;
    hide Mul, TimesConj, Applied, Extend;
    ExtendAt(Z, m, k);
    ExtendAt(X, m, k);
    ExtendAt(A, m, k);
    AppliedEnds(H, m);
    if k == 0 {
      RealProduct(X[0].re, H[0].re);
    } else if k == m {
      MulUnit(Real(X[m].re));
    } else {
      var i := if k < m then k else 2 * m - k;
      ProductInner(Z, X, H, m, i);
      ConjMul(X[i], A[i]);
    }
  }

  lemma ExtendAt(freq: seq<Cx>, m: nat, k: nat)
    requires 0 < m < |freq| && k < 2 * m
    ensures Extend(freq, m)[k] == if k == 0 || k == m then Real(freq[k].re)
                                  else if k < m then freq[k] else Conj(freq[2 * m - k])
  {
  }

  lemma AppliedEnds(H: seq<Cx>, m: nat)
    requires |H| == m + 1 && m > 0
    ensures |Applied(H, m)| == m + 1 && Applied(H, m)[0] == H[0] && Applied(H, m)[m] == ONE == Real(ONE.re)
  {
  }

  lemma ProductInner(Z: seq<Cx>, X: seq<Cx>, H: seq<Cx>, m: nat, i: nat)
    requires Multiplied(Z, X, H, m) && 1 <= i < m
    ensures Z[i] == Mul(X[i], Applied(H, m)[i])
  {
    hide Mul, TimesConj;
    TimesConjIs(X[i], H[i]);
    MulUnit(X[i]);
  }

  lemma RealProduct(a: real, b: real)
    ensures Mul(Real(a), Real(b)) == Real(a * b)
  {
  }

  /** The stored half spectrum of real data stands for the whole transform. */
  lemma ExtendedBin(x: seq<real>, w: Cx, e: nat, k: nat)
    requires Root(w, e + 1, FORWARD) && |x| == 2 * Pow2(e) && k < |x|
    ensures Extend(Spectrum(x, w, Pow2(e)), Pow2(e))[k] == Eval(ToCx(x), Pow(w, k))
  {
    hide Mul, Pow, Eval, Root, Pow2;
    var m := Pow2(e);
    if k == 0 || k == m {
      RealEnds(w, e);
      EvalRealAtReal(x, Pow(w, k));
    } else if k > m {
      PowTwice(e + 1);
      ConjOfMirror(w, e + 1, k);
      EvalReal(x, Pow(w, 2 * m - k));
    }
  }

  lemma RealEnds(w: Cx, e: nat)
    requires Root(w, e + 1, FORWARD)
    ensures Pow(w, 0).im == 0.0 && Pow(w, Pow2(e)).im == 0.0
  {
    hide Mul, Root;
    ForwardIsQuarter();
    RootHalf(w, e + 1, FORWARD);
  }

  /** One block: the inverse of the multiplied spectrum, normalised, is the circular convolution of
      the block with the applied taps. */
  lemma BlockIsCircular(Z: seq<Cx>, x: seq<real>, h: seq<real>, w: Cx, e: nat, m: nat, i: nat)
    requires m == Pow2(e) && Root(w, e + 1, FORWARD) && |x| == 2 * m && |h| <= 2 * m && i < 2 * m
    requires 0 < m < |Z|
    requires Multiplied(Z, Spectrum(x, w, m), Spectrum(PadTo(h, 2 * m), w, m), m)
    ensures Samples(Extend(Z, m), Conj(w), 2 * m)[i] / (2 * m) as real == CircConv(x, AppliedTaps(h, w, m))[i]
  {
    hide *;
    PowTwice(e + 1);
    ForwardIsQuarter();
    BlockLengths(Z, x, h, w, m);
    var y := CircConv(x, AppliedTaps(h, w, m));
    var f := Extend(Z, m);
    var b := Bins(ToCx(y), w, 2 * m);
    forall k: nat | k < 2 * m
      ensures f[k] == b[k]
    {
      BlockBin(Z, x, h, w, e, m, k);
    }
    assert f == b;
    Inversion(ToCx(y), w, e + 1, FORWARD, i);
    SamplesAt(f, Conj(w), 2 * m, i);
    ToCxAt(y, i);
    UnscaleSample(Eval(f, Pow(Conj(w), i)), y[i], (2 * m) as real);
  }

  lemma ToCxAt(y: seq<real>, i: nat)
    requires i < |y|
    ensures ToCx(y)[i] == Real(y[i])
  {
  }

  lemma UnscaleSample(v: Cx, y: real, n: real)
    requires n != 0.0 && v == Scale(n, Real(y))
    ensures v.re / n == y
  {
    assert v.re == n * y;
  }

  lemma BlockLengths(Z: seq<Cx>, x: seq<real>, h: seq<real>, w: Cx, m: nat)
    requires 0 < m < |Z| && |x| == 2 * m && |h| <= 2 * m
    ensures var y := CircConv(x, AppliedTaps(h, w, m));
            && |y| == |ToCx(y)| == 2 * m && |Extend(Z, m)| == 2 * m
            && |Bins(ToCx(y), w, 2 * m)| == 2 * m && |Samples(Extend(Z, m), Conj(w), 2 * m)| == 2 * m
  {
  }

  lemma BlockBin(Z: seq<Cx>, x: seq<real>, h: seq<real>, w: Cx, e: nat, m: nat, k: nat)
    requires m == Pow2(e) && Root(w, e + 1, FORWARD) && |x| == 2 * m && |h| <= 2 * m && k < 2 * m
    requires Multiplied(Z, Spectrum(x, w, m), Spectrum(PadTo(h, 2 * m), w, m), m)
    ensures Extend(Z, m)[k] == Bins(ToCx(CircConv(x, AppliedTaps(h, w, m))), w, 2 * m)[k]
  {
    var t, y := AppliedTaps(h, w, m), CircConv(x, AppliedTaps(h, w, m));
    assert |Extend(Z, m)| == 2 * m == |Bins(ToCx(y), w, 2 * m)|;
    hide *;
    ForwardIsQuarter();
    PowTwice(e + 1);
    ProductBin(Z, Spectrum(x, w, m), Spectrum(PadTo(h, 2 * m), w, m), m, k);
    ExtendedBin(x, w, e, k);
    AppliedBin(h, w, e, m, k);
    RootPowers(w, e, k);
    EvalCircConv(x, t, Pow(w, k));
    MulComm(Eval(ToCx(x), Pow(w, k)), Eval(ToCx(t), Pow(w, k)));
    BinAt(ToCx(y), w, 2 * m, k);
  }

  lemma BinAt(x: seq<Cx>, w: Cx, n: nat, k: nat)
    requires k < n
    ensures Bins(x, w, n)[k] == Eval(x, Pow(w, k))
  {
  }

  lemma RootPowers(w: Cx, e: nat, k: nat)
    requires Root(w, e + 1, FORWARD)
    ensures Pow(Pow(w, k), 2 * Pow2(e)) == ONE
  {
    hide *;
    ForwardIsQuarter();
    PowTwice(e + 1);
    RootFull(w, e + 1, FORWARD);
    var n := Pow2(e + 1);
    PowPow(w, n, k);
    PowPow(w, k, n);
    assert n * k == k * n;
    PowOne(k);
  }

  /** The applied taps have the applied response. */
  lemma AppliedBin(h: seq<real>, w: Cx, e: nat, m: nat, k: nat)
    requires m == Pow2(e) && Root(w, e + 1, FORWARD) && |h| <= 2 * m && k < 2 * m
    ensures Eval(ToCx(AppliedTaps(h, w, m)), Pow(w, k)) == Extend(Applied(Spectrum(PadTo(h, 2 * m), w, m), m), m)[k]
  {
    hide Mul, Pow, Eval, Root, Pow2, Samples, Applied, Spectrum, Divided;
    var A := Applied(Spectrum(PadTo(h, 2 * m), w, m), m);
    assert |A| == m + 1 by { AppliedLength(Spectrum(PadTo(h, 2 * m), w, m), m); }
    var f := Extend(A, m);
    ExtendHermitian(A, m);
    TapsSpectrum(f, AppliedTaps(h, w, m), w, e, k);
  }

  lemma AppliedLength(H: seq<Cx>, m: nat)
    requires |H| == m + 1
    ensures |Applied(H, m)| == m + 1
  {
  }

  // ------------------------------------------------------------------ exactness of the taps

  /** The two response bins the product skips are already 1: a condition on the taps alone. */
  ghost predicate SkippedBinsAreOne(h: seq<real>, w: Cx, m: nat)
    requires |h| <= 2 * m && m > 0
  {
    var H := Spectrum(PadTo(h, 2 * m), w, m);
    H[m] == ONE && (m > 1 ==> H[m - 1] == ONE)
  }

  /** The taps applied are the taps given exactly when the skipped response bins are 1. */
  lemma AppliedExactly(h: seq<real>, w: Cx, e: nat, m: nat)
    requires m == Pow2(e) && Root(w, e + 1, FORWARD) && |h| <= 2 * m
    ensures AppliedTaps(h, w, m) == PadTo(h, 2 * m) <==> SkippedBinsAreOne(h, w, m)
  {
    hide Mul, Pow, Eval, Root, Pow2, AppliedTaps, Samples, Extend;
    var p := PadTo(h, 2 * m);
    if AppliedTaps(h, w, m) == p {
      ExactOnlyIf(h, w, e, m);
    }
    if SkippedBinsAreOne(h, w, m) {
      ExactIf(h, w, e, m);
    }
  }

  lemma ExactOnlyIf(h: seq<real>, w: Cx, e: nat, m: nat)
    requires m == Pow2(e) && Root(w, e + 1, FORWARD) && |h| <= 2 * m
    requires AppliedTaps(h, w, m) == PadTo(h, 2 * m)
    ensures SkippedBinsAreOne(h, w, m)
  {
    hide Mul, Pow, Eval, Root, Pow2, AppliedTaps;
    AppliedBin(h, w, e, m, m);
    if m > 1 {
      AppliedBin(h, w, e, m, m - 1);
    }
  }

  lemma ExactIf(h: seq<real>, w: Cx, e: nat, m: nat)
    requires m == Pow2(e) && Root(w, e + 1, FORWARD) && |h| <= 2 * m && SkippedBinsAreOne(h, w, m)
    ensures AppliedTaps(h, w, m) == PadTo(h, 2 * m)
  {
    hide Mul, Pow, Eval, Root, Pow2, Samples, Extend, Divided;
    var p := PadTo(h, 2 * m);
    var H := Spectrum(p, w, m);
    assert Applied(H, m) == H;
    var t := AppliedTaps(h, w, m);
    forall i: nat | i < 2 * m
      ensures t[i] == p[i]
    {
      RestoredSample(p, w, e, m, i);
    }
  }

  /** Transforming real data and back is the identity. */
  lemma RestoredSample(p: seq<real>, w: Cx, e: nat, m: nat, i: nat)
    requires m == Pow2(e) && Root(w, e + 1, FORWARD) && |p| == 2 * m && i < 2 * m
    ensures Divided(Samples(Extend(Spectrum(p, w, m), m), Conj(w), 2 * m), (2 * m) as real)[i] == p[i]
  {
    hide *;
    PowTwice(e + 1);
    ForwardIsQuarter();
    var f := Extend(Spectrum(p, w, m), m);
    var b := Bins(ToCx(p), w, 2 * m);
    RestoredLengths(p, w, m);
    forall k: nat | k < 2 * m
      ensures f[k] == b[k]
    {
      ExtendedBin(p, w, e, k);
      BinAt(ToCx(p), w, 2 * m, k);
    }
    assert f == b;
    Inversion(ToCx(p), w, e + 1, FORWARD, i);
    SamplesAt(f, Conj(w), 2 * m, i);
    ToCxAt(p, i);
    UnscaleSample(Eval(f, Pow(Conj(w), i)), p[i], (2 * m) as real);
    DividedAt(Samples(f, Conj(w), 2 * m), (2 * m) as real, i);
  }

  lemma DividedAt(s: seq<real>, n: real, i: nat)
    requires n != 0.0 && i < |s|
    ensures Divided(s, n)[i] == s[i] / n
  {
  }

  lemma RestoredLengths(p: seq<real>, w: Cx, m: nat)
    requires |p| == 2 * m && m > 0
    ensures |Spectrum(p, w, m)| == m + 1 && |Extend(Spectrum(p, w, m), m)| == 2 * m && |ToCx(p)| == 2 * m
    ensures |Bins(ToCx(p), w, 2 * m)| == 2 * m
    ensures |Samples(Extend(Spectrum(p, w, m), m), Conj(w), 2 * m)| == 2 * m
  {
  }

  // ------------------------------------------------------------------ streams

  /** The overlap-save stream: s is the history of impl samples followed by the input; every n - impl
      input samples give as many outputs, the tail of one circular convolution. */
  ghost function OverlapSave(s: seq<real>, t: seq<real>, n: nat, impl: nat): (y: seq<real>)
    requires impl < n
    decreases |s|
  {
    if |s| < n then []
    else CircConv(s[..n], t)[impl..] + OverlapSave(s[n - impl..], t, n, impl)
  }

  /** The stream of the tapped delay line started at zero. */
  ghost function Direct(h: seq<real>, seen: seq<real>): (y: seq<real>)
    ensures |y| == |seen|
  {
    seq(|seen|, j requires 0 <= j < |seen| => FirAt(h, seen, j))
  }

  lemma ShortStream(s: seq<real>, t: seq<real>, n: nat, impl: nat)
    requires impl < n && |s| < n
    ensures OverlapSave(s, t, n, impl) == []
  {
  }

  lemma {:induction false} SplitBlock(s: seq<real>, t: seq<real>, n: nat, impl: nat)
    requires impl < n <= |s|
    ensures |CircConv(s[..n], t)| == n
    ensures OverlapSave(s, t, n, impl) == CircConv(s[..n], t)[impl..] + OverlapSave(s[n - impl..], t, n, impl)
  {
    hide CircConv;
    CircConvLength(s[..n], t);
  }

  /** As many outputs as the largest multiple of n - impl that the input reaches. */
  lemma {:induction false} OverlapSaveLength(s: seq<real>, t: seq<real>, n: nat, impl: nat)
    requires impl < n && impl <= |s|
    ensures var l := |OverlapSave(s, t, n, impl)|;
            l % (n - impl) == 0 && l <= |s| - impl < l + (n - impl)
    decreases |s|
  {
    hide *;
    if |s| >= n {
      OverlapSaveLength(s[n - impl..], t, n, impl);
      SplitBlock(s, t, n, impl);
      ModuloStep(|OverlapSave(s[n - impl..], t, n, impl)|, n - impl);
    } else {
      ShortStream(s, t, n, impl);
    }
  }

  /** With the padded taps, overlap-save computes the direct convolution, whatever the history. */
  lemma {:induction false} OverlapSaveIsFir(s: seq<real>, h: seq<real>, n: nat, j: nat)
    requires |h| < n && j < |OverlapSave(s, PadTo(h, n), n, |h|)| && |h| + j < |s|
    ensures OverlapSave(s, PadTo(h, n), n, |h|)[j] == FirAt(h, s, |h| + j)
    decreases |s|
  {
    hide *;
    var l := n - |h|;
    LongEnough(s, PadTo(h, n), n, |h|);
    LaterBlock(s, PadTo(h, n), n, |h|, j);
    if j >= l {
      OverlapSaveIsFir(s[l..], h, n, j - l);
      FirLocal(h, s, s[l..], |h| + (j - l), l);
    } else {
      FirstBlock(s, h, n, j);
    }
  }

  lemma LongEnough(s: seq<real>, t: seq<real>, n: nat, impl: nat)
    requires impl < n && OverlapSave(s, t, n, impl) != []
    ensures |s| >= n
  {
  }

  lemma LaterBlock(s: seq<real>, t: seq<real>, n: nat, impl: nat, j: nat)
    requires impl < n <= |s| && j < |OverlapSave(s, t, n, impl)|
    ensures var l := n - impl;
            if j < l then OverlapSave(s, t, n, impl)[j] == CircConv(s[..n], t)[impl + j]
            else j - l < |OverlapSave(s[l..], t, n, impl)|
                 && OverlapSave(s, t, n, impl)[j] == OverlapSave(s[l..], t, n, impl)[j - l]
  {
    hide *;
    SplitBlock(s, t, n, impl);
  }

  lemma FirstBlock(s: seq<real>, h: seq<real>, n: nat, j: nat)
    requires |h| < n <= |s| && |h| + j < n
    ensures CircConv(s[..n], PadTo(h, n))[|h| + j] == FirAt(h, s, |h| + j)
  {
    hide CircConv, FirAt, Silence, Rotate;
    CircConvPadded(s[..n], h, n - |h|);
    CircConvIsFir(s[..n], h, |h| + j);
    FirLocal(h, s, s[..n], |h| + j, 0);
  }

  /** Output k of block b comes from the window that starts b blocks in. */
  lemma {:induction false} OverlapSaveBlock(s: seq<real>, t: seq<real>, n: nat, impl: nat, b: nat, k: nat, start: nat)
    requires impl < n && start == b * (n - impl) && start + n <= |s| && k < n - impl
    ensures start + k < |OverlapSave(s, t, n, impl)|
    ensures OverlapSave(s, t, n, impl)[start + k] == CircConv(s[start..start + n], t)[impl + k]
    decreases b
  {
    hide *;
    var l := n - impl;
    FirstOutputs(s, t, n, impl);
    if b > 0 {
      BlocksBack(b, l);
      OverlapSaveBlock(s[l..], t, n, impl, b - 1, k, start - l);
      LaterBlock(s, t, n, impl, start + k);
      assert s[l..][start - l..start - l + n] == s[start..start + n];
    } else {
      LaterBlock(s, t, n, impl, k);
    }
  }

  lemma BlocksBack(b: nat, l: nat)
    requires b > 0
    ensures b * l - l == (b - 1) * l && b * l >= l
  {
  }

  lemma FirstOutputs(s: seq<real>, t: seq<real>, n: nat, impl: nat)
    requires impl < n <= |s|
    ensures |OverlapSave(s, t, n, impl)| == n - impl + |OverlapSave(s[n - impl..], t, n, impl)|
  {
    hide *;
    SplitBlock(s, t, n, impl);
  }

  // ------------------------------------------------------------------ probing with one impulse

  ghost function Impulse(n: nat, at: nat): (x: seq<real>)
    ensures |x| == n
  {
    seq(n, i => if i == at then 1.0 else 0.0)
  }

  /** The last output of a block that holds one impulse is one tap. */
  lemma {:induction false} ImpulseTap(n: nat, at: nat, t: seq<real>)
    requires at < n && |t| <= n
    ensures CircConv(Impulse(n, at), t)[n - 1] == if n - 1 - at < |t| then t[n - 1 - at] else 0.0
    decreases |t|
  {
    hide *;
    var x := Impulse(n, at);
    ImpulseAt(n, at, n - 1);
    if t == [] {
      NoTaps(t, x, n - 1);
    } else {
      CircConvUnfold(x, t, n - 1);
      RotatedImpulse(n, at);
      ImpulseTap(n, if at == n - 1 then 0 else at + 1, t[1..]);
    }
  }

  lemma ImpulseAt(n: nat, at: nat, i: nat)
    requires i < n
    ensures |Impulse(n, at)| == n && Impulse(n, at)[i] == if i == at then 1.0 else 0.0
  {
  }

  lemma RotatedImpulse(n: nat, at: nat)
    requires at < n
    ensures Rotate(Impulse(n, at)) == Impulse(n, if at == n - 1 then 0 else at + 1)
  {
  }

  /** One impulse through the tapped delay line gives one tap. */
  lemma {:induction false} ImpulseFir(h: seq<real>, s: seq<real>, at: nat, i: nat)
    requires at <= i < |s|
    requires forall j | 0 <= j <= i :: s[j] == if j == at then 1.0 else 0.0
    ensures FirAt(h, s, i) == if i - at < |h| then h[i - at] else 0.0
    decreases |h|
  {
    if h != [] {
      FirUnfold(h, s, i);
      hide FirAt;
      if i > at {
        ImpulseFir(h[1..], s, at, i - 1);
      } else {
        FirOfSilence(h[1..], s, i - 1);
      }
    } else {
      assert FirAt(h, s, i) == 0.0;
    }
  }

  lemma {:induction false} FirOfSilence(h: seq<real>, s: seq<real>, i: int)
    requires i < |s| && forall j | 0 <= j <= i :: s[j] == 0.0
    ensures FirAt(h, s, i) == 0.0
    decreases |h|
  {
    if h != [] {
      FirOfSilence(h[1..], s, i - 1);
    }
  }

  /** Zero history: the delay line sees the same samples. */
  lemma {:induction false} FirFromSilence(h: seq<real>, seen: seq<real>, p: nat, i: int)
    requires i < |seen|
    ensures FirAt(h, Silence(p) + seen, p + i) == FirAt(h, seen, i)
    decreases |h|
  {
    hide FirAt;
    var s := Silence(p) + seen;
    if h == [] {
      NoTapsLeft(h, seen, i);
      NoTapsLeft(h, s, p + i);
    } else {
      var x := if i >= 0 then seen[i] else 0.0;
      FirFromSilence(h[1..], seen, p, i - 1);
      FirHead(h, seen, i, i - 1, x);
      FirHead(h, s, p + i, p + (i - 1), x);
    }
  }

  lemma FirHead(h: seq<real>, s: seq<real>, i: int, j: int, x: real)
    requires h != [] && i < |s| && j == i - 1 && x == if i >= 0 then s[i] else 0.0
    ensures FirAt(h, s, i) == h[0] * x + FirAt(h[1..], s, j)
  {
  }

  /** An input whose overlap-save output shows tap p of t at its last sample. */
  ghost function Probe(n: nat, impl: nat, p: nat): (seen: seq<real>)
    requires impl < n && p < n
  {
    var start := impl * (n - impl);
    AtLeastOnce(impl, n - impl);
    Impulse(start + n - impl, start + n - 1 - p - impl)
  }

  lemma ProbeShowsTap(h: seq<real>, t: seq<real>, n: nat, p: nat)
    requires |h| < n == |t| && p < n
    ensures var seen := Probe(n, |h|, p);
            var y := OverlapSave(Silence(|h|) + seen, t, n, |h|);
            && |y| == |seen| > 0
            && y[|y| - 1] == t[p]
            && Direct(h, seen)[|y| - 1] == PadTo(h, n)[p]
  {
    hide *;
    var impl := |h|;
    var l := n - impl;
    var start := impl * l;
    ProbeFacts(n, impl, p, start);
    var seen := Probe(n, impl, p);
    var s := Silence(impl) + seen;
    assert |s| == start + n;
    OverlapSaveBlock(s, t, n, impl, impl, l - 1, start);
    assert s[start..start + n] == Impulse(n, n - 1 - p);
    ImpulseTap(n, n - 1 - p, t);
    OverlapSaveLength(s, t, n, impl);
    DirectAt(h, seen, |seen| - 1);
    FirFromSilence(h, seen, impl, |seen| - 1);
    ImpulseFir(h, s, start + n - 1 - p, |s| - 1);
    PaddedAt(h, n, p);
  }

  lemma DirectAt(h: seq<real>, seen: seq<real>, j: nat)
    requires j < |seen|
    ensures |Direct(h, seen)| == |seen| && Direct(h, seen)[j] == FirAt(h, seen, j)
  {
  }

  lemma PaddedAt(h: seq<real>, n: nat, p: nat)
    requires |h| <= n && p < n
    ensures |PadTo(h, n)| == n && PadTo(h, n)[p] == if p < |h| then h[p] else 0.0
  {
  }

  lemma ProbeFacts(n: nat, impl: nat, p: nat, start: nat)
    requires impl < n && p < n && start == impl * (n - impl)
    ensures start >= impl
    ensures var seen := Probe(n, impl, p);
            var s := Silence(impl) + seen;
            && |seen| == start + n - impl && |Silence(impl)| == impl
            && (forall j | 0 <= j < |s| :: s[j] == if j == start + n - 1 - p then 1.0 else 0.0)
            && s[start..start + n] == Impulse(n, n - 1 - p)
  {
    AtLeastOnce(impl, n - impl);
  }

  lemma AtLeastOnce(a: nat, b: nat)
    requires b > 0
    ensures a * b >= a
  {
  }

  /** The fast form is a prefix of the direct one for every input exactly when the two response bins
      that the spectral product skips are 1. */
  lemma FastIsDirectExactly(h: seq<real>, w: Cx, e: nat, m: nat)
    requires m == Pow2(e) && Root(w, e + 1, FORWARD) && |h| < 2 * m
    ensures (forall seen: seq<real> ::
               OverlapSave(Silence(|h|) + seen, AppliedTaps(h, w, m), 2 * m, |h|) <= Direct(h, seen))
            <==> SkippedBinsAreOne(h, w, m)
  {
    hide *;
    AppliedExactly(h, w, e, m);
    var t := AppliedTaps(h, w, m);
    if t == PadTo(h, 2 * m) {
      forall seen: seq<real>
        ensures OverlapSave(Silence(|h|) + seen, t, 2 * m, |h|) <= Direct(h, seen)
      {
        FastIsPrefix(h, 2 * m, seen);
      }
    } else {
      FastDiffers(h, t, 2 * m);
    }
  }

  lemma FastIsPrefix(h: seq<real>, n: nat, seen: seq<real>)
    requires |h| < n
    ensures OverlapSave(Silence(|h|) + seen, PadTo(h, n), n, |h|) <= Direct(h, seen)
  {
    hide *;
    SilenceLength(|h|);
    var s, t := Silence(|h|) + seen, PadTo(h, n);
    var y := OverlapSave(s, t, n, |h|);
    OverlapSaveLength(s, t, n, |h|);
    forall j: nat | j < |y|
      ensures |Direct(h, seen)| == |seen| && y[j] == Direct(h, seen)[j]
    {
      OverlapSaveIsFir(s, h, n, j);
      FirFromSilence(h, seen, |h|, j);
      DirectAt(h, seen, j);
    }
    DirectLength(h, seen);
  }

  lemma SilenceLength(n: nat)
    ensures |Silence(n)| == n
  {
  }

  lemma DirectLength(h: seq<real>, seen: seq<real>)
    ensures |Direct(h, seen)| == |seen|
  {
  }

  lemma FastDiffers(h: seq<real>, t: seq<real>, n: nat)
    requires |h| < n == |t| && t != PadTo(h, n)
    ensures exists seen: seq<real> :: !(OverlapSave(Silence(|h|) + seen, t, n, |h|) <= Direct(h, seen))
  {
    hide *;
    PaddedAt(h, n, 0);
    var p: nat :| p < n && t[p] != PadTo(h, n)[p];
    ProbeShowsTap(h, t, n, p);
    var seen := Probe(n, |h|, p);
    assert !(OverlapSave(Silence(|h|) + seen, t, n, |h|) <= Direct(h, seen));
  }

  lemma ConstantResponse(c: real, n: nat, z: Cx)
    requires n > 0
    ensures Eval(ToCx(PadTo([c], n)), z) == Real(c)
  {
    hide Mul, Pow;
    assert ToCx(PadTo([c], n)) == [Real(c)] + Zeros(n - 1);
    EvalConcat([Real(c)], Zeros(n - 1), z);
    EvalZeros(n - 1, z);
    EvalOne(Real(c), z);
    MulUnit(Pow(z, 1));
  }

  /** A plain gain of 2 is not reproduced at any transform length; a gain of 1 always is. */
  lemma GainTwoFails(w: Cx, e: nat, m: nat)
    requires m == Pow2(e) && Root(w, e + 1, FORWARD)
    ensures exists seen: seq<real> ::
              !(OverlapSave(Silence(1) + seen, AppliedTaps([2.0], w, m), 2 * m, 1) <= Direct([2.0], seen))
    ensures forall seen: seq<real> ::
              OverlapSave(Silence(1) + seen, AppliedTaps([1.0], w, m), 2 * m, 1) <= Direct([1.0], seen)
  {
    GainBins(w, m);
    hide *;
    FastIsDirectExactly([2.0], w, e, m);
    FastIsDirectExactly([1.0], w, e, m);
  }

  lemma GainBins(w: Cx, m: nat)
    requires m > 0
    ensures !SkippedBinsAreOne([2.0], w, m) && SkippedBinsAreOne([1.0], w, m)
  {
    hide Pow, Eval, PadTo;
    ConstantResponse(2.0, 2 * m, Pow(w, m));
    ConstantResponse(1.0, 2 * m, Pow(w, m));
    ConstantResponse(1.0, 2 * m, Pow(w, m - 1));
  }

  // ------------------------------------------------------------------ the block

  /** One more input sample: nothing new, or one more block. */
  lemma {:induction false} OverlapSaveSnoc(s: seq<real>, x: real, t: seq<real>, n: nat, impl: nat)
    requires impl < n && impl <= |s|
    ensures var y, y' := OverlapSave(s, t, n, impl), OverlapSave(s + [x], t, n, impl);
            && |y| <= |s| - impl && |s| + 1 - |y| <= n
            && y' == if |s| + 1 - |y| < n then y else y + CircConv((s + [x])[|y|..], t)[impl..]
    decreases |s|
  {
    hide *;
    var l := n - impl;
    OverlapSaveLength(s, t, n, impl);
    if |s| >= n {
      OverlapSaveSnoc(s[l..], x, t, n, impl);
      SplitBlock(s, t, n, impl);
      SplitBlock(s + [x], t, n, impl);
      assert (s + [x])[l..] == s[l..] + [x];
      assert (s + [x])[..n] == s[..n];
      var y := OverlapSave(s, t, n, impl);
      if |s| + 1 - |y| == n {
        assert (s + [x])[|y|..] == (s[l..] + [x])[|y| - l..];
      }
    } else {
      ShortStream(s, t, n, impl);
      if |s| + 1 == n {
        SplitBlock(s + [x], t, n, impl);
        ShortStream((s + [x])[l..], t, n, impl);
        assert (s + [x])[..n] == (s + [x])[0..];
      } else {
        ShortStream(s + [x], t, n, impl);
      }
    }
  }

  lemma CircConvLength(x: seq<real>, t: seq<real>)
    ensures |CircConv(x, t)| == |x|
  {
  }

  lemma TimesReciprocal(y: real, n: real, norm: real)
    requires n != 0.0 && norm == 1.0 / n
    ensures y * norm == y / n
  {
  }

  lemma BlockNormalised(Z: seq<Cx>, x: seq<real>, y: seq<real>, h: seq<real>, w: Cx, e: nat, m: nat, norm: real)
    requires m == Pow2(e) && Root(w, e + 1, FORWARD) && |h| <= 2 * m == |x| == |y| && 0 < m < |Z|
    requires Multiplied(Z, Spectrum(x, w, m), Spectrum(PadTo(h, 2 * m), w, m), m)
    requires y == Samples(Extend(Z, m), Conj(w), 2 * m) && norm == 1.0 / (2 * m) as real
    ensures forall i | 0 <= i < 2 * m :: y[i] * norm == CircConv(x, AppliedTaps(h, w, m))[i]
  {
    hide *;
    CircConvLength(x, AppliedTaps(h, w, m));
    forall i: nat | i < 2 * m
      ensures y[i] * norm == CircConv(x, AppliedTaps(h, w, m))[i]
    {
      BlockIsCircular(Z, x, h, w, e, m, i);
      TimesReciprocal(y[i], (2 * m) as real, norm);
    }
  }

  /** to[0..count] becomes from[start..start + count]. */
  method CopyCells(to: array<real>, from: array<real>, count: nat, start: nat)
    requires to != from && count <= to.Length && start + count <= from.Length
    modifies to
    ensures to[..count] == from[start..start + count]
  {
    var i := 0;
    while i < count
      invariant 0 <= i <= count
      invariant to[..i] == from[start..start + i]
    {
      to[i] := from[start + i];
      i := i + 1;
    }
  }

  /** Emits the normalised cells from `start` on. */
  method Emit(temp: array<real>, start: nat, norm: real, out: OutBuffer<real>, ghost y: seq<real>)
    returns (status: int)
    requires start <= |y| == temp.Length && forall i | 0 <= i < |y| :: temp[i] * norm == y[i]
    modifies out
    ensures status == 0 || status == 99
    ensures if status == 0 then out.cells == old(out.cells) + y[start..]
            else old(out.cells) <= out.cells < old(out.cells) + y[start..]
  {
    var i := start;
    while i < temp.Length
      invariant start <= i <= temp.Length
      invariant out.cells == old(out.cells) + y[start..i]
    {
      assert temp[i] * norm == y[i];
      assert y[start..i + 1] == y[start..i] + [y[i]];
      var full := out.Put(temp[i] * norm);
      if full {
        return 99;
      }
      i := i + 1;
    }
    return 0;
  }

  class FConv {
    const impl: nat
    const fftl: nat
    const norm: real
    const temp: array<real>
    const save: array<real>
    const freqBuffCx: array<Cx>
    const iresp: array<Cx>
    const pforward: RealTransform
    const preverse: RealTransform
    var pcount: nat
    ghost const h: seq<real>
    ghost const w: Cx
    ghost const e: nat
    ghost var seen: seq<real>

    /** Everything the block has to have emitted for the samples seen so far. */
    ghost function Output(): seq<real>
      requires impl < fftl && |h| <= fftl == 2 * Pow2(e)
      reads this
    {
      OverlapSave(Silence(impl) + seen, AppliedTaps(h, w, Pow2(e)), fftl, impl)
    }

    ghost function Repr(): set<object> {
      {this, temp, save, freqBuffCx, iresp, pforward.tmpbuf, preverse.tmpbuf}
    }

    ghost predicate Shaped() {
      && impl == |h| < fftl == 2 * Pow2(e) && norm == 1.0 / fftl as real
      && temp.Length == freqBuffCx.Length == iresp.Length == fftl && save.Length == impl
      && temp != save && freqBuffCx != iresp && pforward.tmpbuf != preverse.tmpbuf
      && freqBuffCx !in {pforward.tmpbuf, preverse.tmpbuf} && iresp !in {pforward.tmpbuf, preverse.tmpbuf}
      && pforward.Valid() && !pforward.inverse && pforward.w == w && pforward.e == e
      && preverse.Valid() && preverse.inverse && preverse.w == w && preverse.e == e
    }

    ghost predicate Ready()
      reads iresp
    {
      Shaped() && iresp[..Pow2(e) + 1] == Spectrum(PadTo(h, fftl), w, Pow2(e))
    }

    ghost predicate Valid()
      reads this, temp, iresp
    {
      && Ready()
      && impl <= pcount < fftl
      && |Output()| + pcount == impl + |seen|
      && temp[..pcount] == (Silence(impl) + seen)[|Output()|..]
    }

    constructor (taps: seq<real>, fftexp: nat, root: Cx)
      requires fftexp > 0 && |taps| < Pow2(fftexp) && Root(root, fftexp, FORWARD)
      ensures Valid() && fresh(Repr()) && seen == [] && h == taps && w == root && e == fftexp - 1
    {
      hide Mul, Pow, Eval, Root, Pow2, Configured, Spectrum, Extend, CircConv, OverlapSave, AppliedTaps, SuperTable;
      PowTwice(fftexp);
      var n := Pow2(fftexp);
      var forwardCfg := new RealTransform(n, false, root, fftexp - 1);
      var inverseCfg := new RealTransform(n, true, root, fftexp - 1);
      impl, fftl, norm := |taps|, n, 1.0 / n as real;
      var t := new real[n](i => if 0 <= i < |taps| then taps[i] else 0.0);
      var response := new Cx[n](_ => ZERO);
      temp, iresp := t, response;
      save := new real[|taps|](_ => 0.0);
      freqBuffCx := new Cx[n](_ => ZERO);
      pforward, preverse := forwardCfg, inverseCfg;
      pcount := |taps|;
      h, w, e, seen := taps, root, fftexp - 1, [];
      new;
      assert temp[..] == PadTo(h, fftl);
      LoadResponse();
      ClearTemp();
      NothingSeen();
    }

    lemma NothingSeen()
      requires Ready() && pcount == impl && seen == [] && forall j | 0 <= j < temp.Length :: temp[j] == 0.0
      ensures Valid()
    {
      hide Mul, Pow, Eval, Root, Pow2, Configured, Spectrum, PadTo, CircConv, OverlapSave, AppliedTaps, SuperTable;
      ShortStream(Silence(impl) + seen, AppliedTaps(h, w, Pow2(e)), fftl, impl);
      assert temp[..pcount] == Silence(impl) + seen;
    }

    /** The spectrum of the taps that were read into the work array. */
    method LoadResponse()
      requires Shaped() && temp[..] == PadTo(h, fftl)
      modifies iresp, pforward.tmpbuf
      ensures Ready()
    {
      hide Mul, Pow, Eval, Root, Pow2, Configured, Spectrum, SuperTable, PadTo;
      pforward.Transform(temp, iresp);
    }

    method ClearTemp()
      modifies temp
      ensures forall j | 0 <= j < temp.Length :: temp[j] == 0.0
    {
      var i := 0;
      while i < temp.Length
        invariant 0 <= i <= temp.Length
        invariant forall j | 0 <= j < i :: temp[j] == 0.0
      {
        temp[i] := 0.0;
        i := i + 1;
      }
    }

    /** One circular block: transform, multiply, transform back, in the work arrays. */
    method Filter()
      requires Ready()
      modifies temp, freqBuffCx, pforward.tmpbuf, preverse.tmpbuf
      ensures Ready()
      ensures forall i | 0 <= i < fftl :: temp[i] * norm == CircConv(old(temp[..]), AppliedTaps(h, w, Pow2(e)))[i]
    {
      hide Mul, Pow, Eval, Root, Pow2, Configured, Spectrum, SuperTable, PadTo, Extend, CircConv, AppliedTaps, Samples,
        TimesConj;
      ghost var x := temp[..];
      ghost var m := Pow2(e);
      pforward.Transform(temp, freqBuffCx);
      ghost var X := freqBuffCx[..];
      MultiplySpectra(freqBuffCx, iresp, fftl / 2, 1.0);
      ghost var Z := freqBuffCx[..];
      assert Multiplied(Z, Spectrum(x, w, m), Spectrum(PadTo(h, fftl), w, m), m);
      preverse.Restore(freqBuffCx, temp);
      BlockNormalised(Z, x, temp[..], h, w, e, m, norm);
    }

    /** The full-buffer branch: keep the last impl samples, filter, emit the tail of the block, put
        the kept samples back. */
    method Block(out: OutBuffer<real>) returns (status: int)
      requires Ready()
      modifies temp, save, freqBuffCx, pforward.tmpbuf, preverse.tmpbuf, out
      ensures Ready() && (status == 0 || status == 99)
      ensures var y := CircConv(old(temp[..]), AppliedTaps(h, w, Pow2(e)))[impl..];
              if status == 0 then out.cells == old(out.cells) + y && temp[..impl] == old(temp[fftl - impl..])
              else old(out.cells) <= out.cells < old(out.cells) + y
    {
      hide Mul, Pow, Eval, Root, Pow2, Configured, Spectrum, SuperTable, PadTo, CircConv, AppliedTaps;
      ghost var y := CircConv(temp[..], AppliedTaps(h, w, Pow2(e)));
      CircConvLength(temp[..], AppliedTaps(h, w, Pow2(e)));
      CopyCells(save, temp, impl, fftl - impl);
      Filter();
      status := Emit(temp, impl, norm, out, y);
      if status == 0 {
        CopyCells(temp, save, impl, 0);
      }
    }

    method Store(x: real)
      requires Valid()
      modifies this`pcount, this`seen, temp
      ensures Ready() && seen == old(seen) + [x] && pcount == old(pcount) + 1 <= fftl
      ensures |old(Output())| <= impl + |seen| && temp[..pcount] == (Silence(impl) + seen)[|old(Output())|..]
    {
      hide Mul, Pow, Eval, Root, Pow2, Configured, Spectrum, SuperTable, PadTo, CircConv, AppliedTaps, OverlapSave;
      ghost var y := Output();
      temp[pcount] := x;
      pcount := pcount + 1;
      seen := seen + [x];
      assert temp[..pcount] == (Silence(impl) + seen)[|y|..];
    }

    /** A full buffer is filtered, and its last impl samples start the next one. */
    method Flush(out: OutBuffer<real>, ghost y: seq<real>) returns (status: int)
      requires Ready() && pcount == fftl && |y| + fftl == impl + |seen| && temp[..] == (Silence(impl) + seen)[|y|..]
      requires |CircConv(temp[..], AppliedTaps(h, w, Pow2(e)))| == fftl
      requires Output() == y + CircConv(temp[..], AppliedTaps(h, w, Pow2(e)))[impl..]
      modifies this`pcount, temp, save, freqBuffCx, pforward.tmpbuf, preverse.tmpbuf, out
      ensures (status == 0 || status == 99) && Ready() && Output() == old(Output())
      ensures status == 0 ==> Valid() && out.cells == old(out.cells) + Output()[|y|..]
      ensures status == 99 ==> old(out.cells) <= out.cells < old(out.cells) + Output()[|y|..]
    {
      hide Mul, Pow, Eval, Root, Pow2, Configured, Spectrum, SuperTable, PadTo, CircConv, AppliedTaps, OverlapSave;
      status := Block(out);
      pcount := impl;
    }

    /** One sample: stored, and the block filtered when the buffer is full. */
    method Accept(x: real, out: OutBuffer<real>) returns (status: int)
      requires Valid()
      modifies this`pcount, this`seen, temp, save, freqBuffCx, pforward.tmpbuf, preverse.tmpbuf, out
      ensures (status == 0 || status == 99) && seen == old(seen) + [x]
      ensures status == 0 ==> Valid()
      ensures Ready() && old(Output()) <= Output()
      ensures var added := Output()[|old(Output())|..];
              if status == 0 then out.cells == old(out.cells) + added
              else old(out.cells) <= out.cells < old(out.cells) + added
    {
      hide Mul, Pow, Eval, Root, Pow2, Configured, Spectrum, SuperTable, PadTo, CircConv, AppliedTaps, OverlapSave,
        Silence;
      ghost var y := Output();
      Grow(x);
      Store(x);
      status := 0;
      if pcount == fftl {
        assert temp[..] == temp[..pcount];
        status := Flush(out, y);
      }
    }

    lemma OutputSizes()
      requires Valid()
      ensures impl < fftl && |h| <= fftl == 2 * Pow2(e) && |Output()| + pcount == impl + |seen|
      ensures Output() == OverlapSave(Silence(impl) + seen, AppliedTaps(h, w, Pow2(e)), fftl, impl)
      ensures |Silence(impl)| == impl
    {
      hide Pow2, Root, Configured, CircConv, AppliedTaps, OverlapSave, Spectrum, PadTo, SuperTable;
    }

    /** The stream after one more sample. */
    lemma Grow(x: real)
      requires Valid()
      ensures var s := Silence(impl) + (seen + [x]);
              var t := AppliedTaps(h, w, Pow2(e));
              && |Output()| <= |seen| && |CircConv(s[|Output()|..], t)| == pcount + 1
              && OverlapSave(s, t, fftl, impl)
                 == if pcount + 1 < fftl then Output() else Output() + CircConv(s[|Output()|..], t)[impl..]
    {
      hide *;
      OutputSizes();
      var s := Silence(impl) + seen;
      var t := AppliedTaps(h, w, Pow2(e));
      assert s + [x] == Silence(impl) + (seen + [x]);
      OverlapSaveSnoc(s, x, t, fftl, impl);
      CircConvLength((s + [x])[|Output()|..], t);
    }

    /** One visit: every waiting sample is consumed; what is emitted continues the overlap-save stream
        of all samples seen so far. A refused cell ends the run with status 99. */
    method MainCode(inp: InBuffer<real>, out: OutBuffer<real>) returns (status: int)
      requires Valid()
      modifies this`pcount, this`seen, temp, save, freqBuffCx, pforward.tmpbuf, preverse.tmpbuf, inp, out
      ensures status == 0 || status == 99
      ensures old(seen) <= seen && old(inp.pending) == seen[|old(seen)|..] + inp.pending
      ensures status == 0 ==> Valid() && inp.pending == []
      ensures Ready() && old(Output()) <= Output()
      ensures var added := Output()[|old(Output())|..];
              if status == 0 then out.cells == old(out.cells) + added
              else old(out.cells) <= out.cells < old(out.cells) + added
    {
      hide *;
      ValidIsReady();
      ghost var first := Output();
      while inp.pending != []
        invariant Valid() && Ready()
        invariant old(seen) <= seen && old(inp.pending) == seen[|old(seen)|..] + inp.pending
        invariant first <= Output()
        invariant out.cells == old(out.cells) + Output()[|first|..]
        decreases |inp.pending|
      {
        var x := inp.Take();
        status := Accept(x, out);
        if status != 0 {
          return;
        }
      }
      return 0;
    }

    lemma ValidIsReady()
      requires Valid()
      ensures Ready() && impl < fftl && |h| <= fftl == 2 * Pow2(e)
    {
    }
  }

  /** The start-up tests: the response must be shorter than the transform and fully present. */
  method UserInit(impl: nat, file: seq<real>, fftexp: nat, root: Cx) returns (status: int, block: FConv?)
    requires impl >= Pow2(fftexp) || (fftexp > 0 && Root(root, fftexp, FORWARD))
    ensures status == if impl >= Pow2(fftexp) then 1 else if |file| < impl then 4 else 0
    ensures (block != null) == (status == 0)
    ensures status == 0 ==> block.Valid() && block.seen == [] && block.h == file[..impl]
  {
    var fftl := Pow2(fftexp);
    if impl >= fftl {
      return 1, null;
    }
    if |file| < impl {
      return 4, null;
    }
    block := new FConv(file[..impl], fftexp, root);
    return 0, block;
  }

  // ------------------------------------------------------------------ the simple form

  class Convolve {
    const xP: array<real>
    const hP: array<real>
    ghost const taps: seq<real>
    ghost var seen: seq<real>

    ghost predicate Valid()
      reads this, xP, hP
    {
      xP != hP && xP.Length == hP.Length && xP[..] == Line(seen, xP.Length, 0.0) && hP[..] == taps
    }

    constructor (response: seq<real>)
      ensures Valid() && fresh(xP) && fresh(hP) && seen == [] && taps == response
    {
      xP := new real[|response|](_ => 0.0);
      hP := new real[|response|](i => if 0 <= i < |response| then response[i] else 0.0);
      taps, seen := response, [];
    }

    method Shift(x: real)
      requires Valid()
      modifies this`seen, xP
      ensures Valid() && seen == old(seen) + [x]
    {
      ShiftIn(xP, x, seen, 0.0);
      seen := seen + [x];
    }

    /** One visit: output j of the run is the direct convolution sum at sample j. */
    method MainCode(inp: InBuffer<real>, out: OutBuffer<real>) returns (status: int)
      requires Valid()
      modifies this`seen, xP, inp, out
      ensures Valid() && (status == 0 || status == 99)
      ensures old(seen) <= seen && old(inp.pending) == seen[|old(seen)|..] + inp.pending
      ensures var y := Direct(taps, seen)[|old(seen)|..];
              if status == 0 then inp.pending == [] && out.cells == old(out.cells) + y
              else y != [] && out.cells == old(out.cells) + y[..|y| - 1]
    {
      hide *;
      ghost var s0 := seen;
      DirectLength(taps, seen);
      while inp.pending != []
        invariant Valid() && |Direct(taps, seen)| == |seen|
        invariant s0 <= seen && old(inp.pending) == seen[|s0|..] + inp.pending
        invariant out.cells == old(out.cells) + Direct(taps, seen)[|s0|..]
        decreases |inp.pending|
      {
        var x := inp.Take();
        LastCell(seen, x, |s0|);
        ghost var y := Direct(taps, seen);
        var sum := Answer(x);
        LastCell(y, sum, |s0|);
        var full := out.Put(sum);
        if full {
          return 99;
        }
      }
      return 0;
    }

    /** The answer to one sample. */
    method Answer(x: real) returns (sum: real)
      requires Valid()
      modifies this`seen, xP
      ensures Valid() && seen == old(seen) + [x]
      ensures Direct(taps, seen) == Direct(taps, old(seen)) + [sum]
      ensures |Direct(taps, seen)| == |seen|
    {
      hide *;
      DirectLength(taps, seen + [x]);
      DirectSnoc(taps, seen, x);
      Shift(x);
      sum := InnerProduct();
    }

    method InnerProduct() returns (sum: real)
      requires Valid() && seen != []
      ensures sum == FirAt(taps, seen, |seen| - 1)
    {
      sum := 0.0;
      var i := 0;
      ghost var h, last := hP[..], |seen| - 1;
      while i < xP.Length
        invariant 0 <= i <= xP.Length
        invariant sum + FirAt(h[i..], seen, last - i) == FirAt(h, seen, last)
      {
        FirTap(h, seen, i);
        var term := xP[i] * hP[i];
        assert xP[i] == xP[..][i] == Tap(seen, i, 0.0);
        assert term == Tap(seen, i, 0.0) * h[i];
        assert FirAt(h[i..], seen, last - i) == term + FirAt(h[i + 1..], seen, last - (i + 1));
        sum := sum + term;
        i := i + 1;
      }
      NoTapsLeft(h[i..], seen, last - i);
    }
  }

  /** One term of the direct sum is one cell of the delay line. */
  lemma FirTap(h: seq<real>, seen: seq<real>, k: nat)
    requires k < |h| && seen != []
    ensures FirAt(h[k..], seen, |seen| - 1 - k)
         == Tap(seen, k, 0.0) * h[k] + FirAt(h[k + 1..], seen, |seen| - 1 - (k + 1))
  {
    assert h[k..][1..] == h[k + 1..] && h[k..][0] == h[k];
  }

  lemma NoTapsLeft(h: seq<real>, seen: seq<real>, i: int)
    requires h == [] && i < |seen|
    ensures FirAt(h, seen, i) == 0.0
  {
  }

  lemma DirectSnoc(h: seq<real>, seen: seq<real>, x: real)
    ensures Direct(h, seen + [x]) == Direct(h, seen) + [FirAt(h, seen + [x], |seen|)]
  {
    forall j: nat | j < |seen|
      ensures FirAt(h, seen + [x], j) == FirAt(h, seen, j)
    {
      FirPrefix(h, seen, x, j);
    }
  }

  lemma {:induction false} FirPrefix(h: seq<real>, seen: seq<real>, x: real, j: int)
    requires j < |seen|
    ensures FirAt(h, seen + [x], j) == FirAt(h, seen, j)
    decreases |h|
  {
    if h != [] {
      FirPrefix(h[1..], seen, x, j - 1);
    }
  }
}
