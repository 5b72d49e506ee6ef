/** The transform of real data through a complex transform of half the length: forward
    (unpacking with the super twiddles) and inverse (packing with their conjugates). */
module RealFft {
  import opened Complex
  import opened Dft
  import opened Fft

  function ToCx(x: seq<real>): (c: seq<Cx>) {
    seq(|x|, i requires 0 <= i < |x| => Real(x[i]))
  }

  /** Two real samples in one complex cell, as the cast of the time buffer reads them. */
  function Pack(x: seq<real>): (c: seq<Cx>)
    requires |x| % 2 == 0
  {
    seq(|x| / 2, j requires 0 <= j < |x| / 2 => Cx(x[2 * j], x[2 * j + 1]))
  }

  lemma EvalReal(x: seq<real>, z: Cx)
    ensures Conj(Eval(ToCx(x), z)) == Eval(ToCx(x), Conj(z))
  {
    EvalConj(ToCx(x), z);
    assert ConjAll(ToCx(x)) == ToCx(x);
  }

  lemma EvalRealAtReal(x: seq<real>, z: Cx)
    requires z.im == 0.0
    ensures Eval(ToCx(x), z).im == 0.0
  {
    EvalReal(x, z);
  }

  const IMAGINARY := Cx(0.0, 1.0)

  lemma EvalPacked(x: seq<real>, z: Cx)
    requires |x| % 2 == 0
    ensures Eval(Pack(x), z) == Add(Eval(ToCx(Even(x)), z), Mul(IMAGINARY, Eval(ToCx(Odd(x)), z)))
  {
    var a, b := ToCx(Even(x)), ToCx(Odd(x));
    assert Pack(x) == Sum2(a, ScaleBy(IMAGINARY, b));
    hide Eval, Mul;
    EvalSum(a, ScaleBy(IMAGINARY, b), z);
    EvalScale(IMAGINARY, b, z);
  }

  lemma SplitReal(x: seq<real>, z: Cx)
    requires |x| % 2 == 0
    ensures Eval(ToCx(x), z)
         == Add(Eval(ToCx(Even(x)), Mul(z, z)), Mul(z, Eval(ToCx(Odd(x)), Mul(z, z))))
  {
    assert Even(ToCx(x)) == ToCx(Even(x)) && Odd(ToCx(x)) == ToCx(Odd(x));
    EvalSplit(ToCx(x), z);
  }

  /** The arithmetic of one unpacking step: from E + iO and conj E - i conj O to E + zO and to the
      conjugate of E - zO. */
  function Unpack(fpk: Cx, fpnk: Cx, super: Cx): (r: (Cx, Cx)) {
    var f1k := Add(fpk, fpnk);
    var f2k := Sub(fpk, fpnk);
    var tw := Mul(f2k, super);
    (Cx((f1k.re + tw.re) * 0.5, (f1k.im + tw.im) * 0.5), Cx((f1k.re - tw.re) * 0.5, (tw.im - f1k.im) * 0.5))
  }

  lemma UnpackMeans(ev: Cx, od: Cx, z: Cx)
    ensures Unpack(Add(ev, Mul(IMAGINARY, od)), Sub(ev, Mul(IMAGINARY, od)), Mul(z, FORWARD))
         == (Add(ev, Mul(z, od)), Conj(Sub(ev, Mul(z, od))))
  {
    var f1k := Add(Add(ev, Mul(IMAGINARY, od)), Sub(ev, Mul(IMAGINARY, od)));
    var f2k := Sub(Add(ev, Mul(IMAGINARY, od)), Sub(ev, Mul(IMAGINARY, od)));
    assert f1k == Scale(2.0, ev);
    assert f2k == Scale(2.0, Mul(IMAGINARY, od));
    TurnedProduct(od, z);
  }

  lemma TurnedProduct(od: Cx, z: Cx)
    ensures Mul(Scale(2.0, Mul(IMAGINARY, od)), Mul(z, FORWARD)) == Scale(2.0, Mul(z, od))
  {
    assert Scale(2.0, Mul(IMAGINARY, od)) == Cx(-2.0 * od.im, 2.0 * od.re);
    assert Mul(z, FORWARD) == Cx(z.im, -z.re);
  }

  /** Bin k and bin n/2-k of real data from bins k and n/2-k of the packed transform. */
  lemma UnpackBins(x: seq<real>, w: Cx, e: nat, k: nat)
    requires |x| == 2 * Pow2(e) && Root(w, e + 1, FORWARD) && k <= Pow2(e)
    ensures var m := Pow2(e);
            var v := Mul(w, w);
            Unpack(Eval(Pack(x), Pow(v, k)), Conj(Eval(Pack(x), Pow(v, m - k))), Mul(Pow(w, k), FORWARD))
            == (Eval(ToCx(x), Pow(w, k)), Eval(ToCx(x), Pow(w, m - k)))
  {
    hide *;
    var m := Pow2(e);
    var v, z := Mul(w, w), Pow(w, k);
    assert |x| % 2 == 0;
    UnpackPoints(w, e, k);
    EvalPacked(x, Pow(v, k));
    EvalPacked(x, Pow(v, m - k));
    SplitReal(x, z);
    SplitReal(x, Sub(ZERO, z));
    var ev, od := Eval(ToCx(Even(x)), Pow(v, k)), Eval(ToCx(Odd(x)), Pow(v, k));
    EvalReal(Even(x), Pow(v, m - k));
    EvalReal(Odd(x), Pow(v, m - k));
    ConjOfPacked(Eval(ToCx(Even(x)), Pow(v, m - k)), Eval(ToCx(Odd(x)), Pow(v, m - k)));
    UnpackMeans(ev, od, z);
    EvalReal(x, Pow(w, m - k));
    MulNeg(z, od);
    AddSub(ev, Mul(z, od));
    ConjConj(Eval(ToCx(x), Pow(w, m - k)));
  }

  lemma ConjConj(a: Cx)
    ensures Conj(Conj(a)) == a
  {
  }

  lemma ConjOfPacked(a: Cx, b: Cx)
    ensures Conj(Add(a, Mul(IMAGINARY, b))) == Sub(Conj(a), Mul(IMAGINARY, Conj(b)))
  {
  }

  lemma UnpackPoints(w: Cx, e: nat, k: nat)
    requires Root(w, e + 1, FORWARD) && k <= Pow2(e)
    ensures var m := Pow2(e);
            var v, z := Mul(w, w), Pow(w, k);
            && Mul(z, z) == Pow(v, k) == Mul(Sub(ZERO, z), Sub(ZERO, z))
            && Conj(Pow(v, m - k)) == Pow(v, k)
            && Conj(Pow(w, m - k)) == Sub(ZERO, z)
  {
    hide *;
    PowSquare(w, k);
    PowTwo(Pow(w, k));
    MulNeg(Pow(w, k), ZERO);
    ForwardIsQuarter();
    RootSquare(w, e + 1, FORWARD);
    ConjOfMirror(Mul(w, w), e, k);
    MirroredPoint(w, e, k);
  }

  lemma ForwardIsQuarter()
    ensures Quarter(FORWARD) && Quarter(BACKWARD) && Conj(FORWARD) == BACKWARD
    ensures QuarterOf(true) == BACKWARD && QuarterOf(false) == FORWARD
  {
  }

  lemma ConjOfMirror(v: Cx, e: nat, k: nat)
    requires Root(v, e, FORWARD) && k <= Pow2(e)
    ensures Conj(Pow(v, Pow2(e) - k)) == Pow(v, k)
  {
    hide *;
    ForwardIsQuarter();
    ConjIsInverse(v, e, FORWARD, Pow2(e) - k);
    ConjPow(v, Pow2(e) - k);
  }

  lemma MirroredPoint(w: Cx, e: nat, k: nat)
    requires Root(w, e + 1, FORWARD) && k <= Pow2(e)
    ensures Conj(Pow(w, Pow2(e) - k)) == Sub(ZERO, Pow(w, k))
  {
    hide *;
    ForwardIsQuarter();
    PowTwice(e + 1);
    ConjOfMirror(w, e + 1, k + Pow2(e));
    PowAdd(w, k, Pow2(e));
    RootHalf(w, e + 1, FORWARD);
    MulComm(Pow(w, k), MINUS_ONE);
    MulNeg(Pow(w, k), ZERO);
  }

  // ------------------------------------------------------------------ Hermitian spectra

  ghost predicate Hermitian(f: seq<Cx>) {
    && |f| > 0 && f[0].im == 0.0
    && forall k | 1 <= k < |f| :: f[k] == Conj(f[|f| - k])
  }

  /** A Hermitian spectrum is real at every root of unity of its length. */
  lemma HermitianReal(f: seq<Cx>, z: Cx)
    requires Hermitian(f) && Pow(z, |f|) == ONE && Mul(z, Conj(z)) == ONE
    ensures Eval(f, z).im == 0.0
  {
    var n := |f|;
    var t := f[1..];
    var u := Conj(z);
    EvalConj(f, z);
    assert ConjAll(f)[1..] == Reverse(t);
    assert ConjAll(f)[0] == f[0];
    assert Mul(u, z) == ONE by { MulComm(z, u); }
    assert Eval(ConjAll(f), u) == Add(f[0], Mul(u, Eval(Reverse(t), u)));
    if t == [] {
      assert Reverse(t) == [];
      MulUnit(u);
    } else {
      ReversedTail(t, z, u);
      assert Eval(f, z) == Add(f[0], Mul(z, Eval(t, z)));
    }
    assert Conj(Eval(f, z)) == Eval(f, z);
  }

  lemma ReversedTail(t: seq<Cx>, z: Cx, u: Cx)
    requires t != [] && u == Conj(z) && Mul(u, z) == ONE && Pow(z, |t| + 1) == ONE
    ensures Mul(u, Eval(Reverse(t), u)) == Mul(z, Eval(t, z))
  {
    hide Mul, Eval, Pow;
    var n := |t|;
    EvalReverse(t, u, z);
    MulAssoc(u, Pow(u, n - 1), Eval(t, z));
    assert Pow(u, n) == Mul(u, Pow(u, n - 1)) by { PowAdd(u, 1, n - 1); PowTwo(u); }
    PowProduct(u, z, n);
    PowOne(n);
    PowAdd(z, n, 1);
    PowTwo(z);
    var a, b := Pow(u, n), Pow(z, n);
    MulAssoc(a, b, z);
    MulUnit(z);
    MulUnit(a);
  }

  /** The full spectrum that bins 0..m stand for; the code ignores the imaginary parts of both ends. */
  ghost function Extend(freq: seq<Cx>, m: nat): (f: seq<Cx>)
    requires 0 < m < |freq|
  {
    seq(2 * m, k requires 0 <= k < 2 * m =>
      if k == 0 || k == m then Real(freq[k].re) else if k < m then freq[k] else Conj(freq[2 * m - k]))
  }

  lemma ExtendHermitian(freq: seq<Cx>, m: nat)
    requires 0 < m < |freq|
    ensures Hermitian(Extend(freq, m))
  {
  }

  /** Two real transforms folded into one complex one of half the length. */
  ghost function Folded(f: seq<Cx>, u: Cx, m: nat): (c: seq<Cx>)
    requires |f| == 2 * m
  {
    seq(m, k requires 0 <= k < m => Add(Add(f[k], f[k + m]), Mul(Sub(f[k], f[k + m]), Mul(Pow(u, k), BACKWARD))))
  }

  lemma EvalFolded(f: seq<Cx>, u: Cx, m: nat, z: Cx)
    requires |f| == 2 * m
    ensures Eval(Folded(f, u, m), z)
         == Add(Add(Eval(f[..m], z), Eval(f[m..], z)),
                Mul(IMAGINARY, Sub(Eval(f[..m], Mul(z, u)), Eval(f[m..], Mul(z, u)))))
  {
    FoldedParts(f, u, m);
    var lo, hi := f[..m], f[m..];
    var minus := ScaleBy(MINUS_ONE, hi);
    assert |minus| == m && |Sum2(lo, minus)| == m && |Twist(Sum2(lo, minus), u)| == m;
    hide *;
    EvalSum(Sum2(lo, hi), ScaleBy(IMAGINARY, Twist(Sum2(lo, minus), u)), z);
    EvalScale(IMAGINARY, Twist(Sum2(lo, minus), u), z);
    EvalTwist(Sum2(lo, minus), u, m, z);
    EvalSum(lo, hi, z);
    EvalSum(lo, minus, Mul(z, u));
    EvalScale(MINUS_ONE, hi, Mul(z, u));
    MulNeg(Eval(hi, Mul(z, u)), ZERO);
    AddSub(Eval(lo, Mul(z, u)), Eval(hi, Mul(z, u)));
  }

  lemma EvalHalves(f: seq<Cx>, m: nat, z: Cx, s: Cx)
    requires |f| == 2 * m && Pow(z, m) == s
    ensures s == ONE ==> Eval(f, z) == Add(Eval(f[..m], z), Eval(f[m..], z))
    ensures s == MINUS_ONE ==> Eval(f, z) == Sub(Eval(f[..m], z), Eval(f[m..], z))
  {
    hide *;
    EvalConcat(f[..m], f[m..], z);
    assert f == f[..m] + f[m..];
    MulUnit(Eval(f[m..], z));
    MulNeg(Eval(f[m..], z), ZERO);
    AddSub(Eval(f[..m], z), Eval(f[m..], z));
  }

  lemma FoldedBin(f: seq<Cx>, u: Cx, e: nat, j: nat)
    requires |f| == 2 * Pow2(e) && j < Pow2(e) && Root(u, e + 1, BACKWARD) && Hermitian(f)
    ensures Eval(Folded(f, u, Pow2(e)), Pow(Mul(u, u), j))
         == Cx(Eval(f, Pow(u, 2 * j)).re, Eval(f, Pow(u, 2 * j + 1)).re)
    ensures Eval(f, Pow(u, 2 * j)).im == 0.0 && Eval(f, Pow(u, 2 * j + 1)).im == 0.0
  {
    hide *;
    var m := Pow2(e);
    var z := Pow(u, 2 * j);
    PowSquare(u, j);
    EvalFolded(f, u, m, z);
    assert Mul(z, u) == Pow(u, 2 * j + 1) by { PowAdd(u, 2 * j, 1); PowTwo(u); }
    FoldedPoints(u, e, j);
    EvalHalves(f, m, z, ONE);
    EvalHalves(f, m, Mul(z, u), MINUS_ONE);
    RealAtRoot(f, u, e, 2 * j);
    RealAtRoot(f, u, e, 2 * j + 1);
    PairOfReals(Eval(f, z), Eval(f, Mul(z, u)));
  }

  lemma PairOfReals(a: Cx, b: Cx)
    requires a.im == 0.0 && b.im == 0.0
    ensures Add(a, Mul(IMAGINARY, b)) == Cx(a.re, b.re)
  {
  }

  lemma RealAtRoot(f: seq<Cx>, u: Cx, e: nat, i: nat)
    requires Hermitian(f) && |f| == 2 * Pow2(e) && Root(u, e + 1, BACKWARD)
    ensures Eval(f, Pow(u, i)).im == 0.0
  {
    hide *;
    ForwardIsQuarter();
    PowTwice(e + 1);
    RootFull(u, e + 1, BACKWARD);
    RootUnit(u, e + 1, BACKWARD);
    var n := Pow2(e + 1);
    PowPow(u, n, i);
    PowPow(u, i, n);
    assert n * i == i * n;
    PowOne(i);
    ConjPow(u, i);
    PowProduct(u, Conj(u), i);
    HermitianReal(f, Pow(u, i));
  }

  lemma FoldedPoints(u: Cx, e: nat, j: nat)
    requires Root(u, e + 1, BACKWARD)
    ensures Pow(Pow(u, 2 * j), Pow2(e)) == ONE
    ensures Pow(Pow(u, 2 * j + 1), Pow2(e)) == MINUS_ONE
  {
    hide *;
    ForwardIsQuarter();
    PowOfRootHalf(u, e + 1, BACKWARD, 2 * j);
    PowOfRootHalf(u, e + 1, BACKWARD, 2 * j + 1);
  }

  lemma FoldedParts(f: seq<Cx>, u: Cx, m: nat)
    requires |f| == 2 * m
    ensures Folded(f, u, m)
         == Sum2(Sum2(f[..m], f[m..]), ScaleBy(IMAGINARY, Twist(Sum2(f[..m], ScaleBy(MINUS_ONE, f[m..])), u)))
  {
    hide Pow;
    var r := Sum2(Sum2(f[..m], f[m..]), ScaleBy(IMAGINARY, Twist(Sum2(f[..m], ScaleBy(MINUS_ONE, f[m..])), u)));
    forall k | 0 <= k < m
      ensures Folded(f, u, m)[k] == r[k]
    {
      FoldedTerm(f[k], f[k + m], Pow(u, k));
    }
  }

  lemma FoldedTerm(a: Cx, b: Cx, p: Cx)
    ensures Mul(Sub(a, b), Mul(p, BACKWARD)) == Mul(IMAGINARY, Mul(p, Add(a, Mul(MINUS_ONE, b))))
  {
    assert Add(a, Mul(MINUS_ONE, b)) == Sub(a, b);
    hide Mul;
    var d := Sub(a, b);
    MulAssoc(d, p, BACKWARD);
    MulComm(d, p);
    MulComm(Mul(p, d), BACKWARD);
  }

  /** The arithmetic of one packing step of the inverse. */
  function Repack(fk: Cx, fnkc: Cx, super: Cx): (r: (Cx, Cx)) {
    var fek := Add(fk, fnkc);
    var fok := Mul(Sub(fk, fnkc), super);
    var d := Sub(fek, fok);
    (Add(fek, fok), Cx(d.re, d.im * -1.0))
  }

  lemma RepackBins(freq: seq<Cx>, u: Cx, e: nat, k: nat)
    requires Root(u, e + 1, BACKWARD) && |freq| > Pow2(e) && 1 <= k < Pow2(e)
    ensures var m := Pow2(e);
            var c := Folded(Extend(freq, m), u, m);
            Repack(freq[k], Conj(freq[m - k]), Mul(Pow(u, k), BACKWARD)) == (c[k], c[m - k])
  {
    BackwardMirror(u, e, k);
    hide Pow, Mul, Root, Pow2;
    RepackBinsAt(freq, u, Pow2(e), k);
  }

  lemma RepackBinsAt(freq: seq<Cx>, u: Cx, m: nat, k: nat)
    requires |freq| > m && 1 <= k < m && Pow(u, m - k) == Sub(ZERO, Conj(Pow(u, k)))
    ensures var c := Folded(Extend(freq, m), u, m);
            Repack(freq[k], Conj(freq[m - k]), Mul(Pow(u, k), BACKWARD)) == (c[k], c[m - k])
  {
    hide Pow, Mul;
    var a, b := freq[k], Conj(freq[m - k]);
    var f := Extend(freq, m);
    assert f[k] == a && f[k + m] == b && f[m - k] == Conj(b) && f[m - k + m] == Conj(a);
    RepackMirror(a, b, Pow(u, k));
  }

  lemma InnerFold(freq: seq<Cx>, u: Cx, e: nat, m: nat, k: nat, c: seq<Cx>, fk: Cx, fnk: Cx, super: Cx)
    requires Root(u, e + 1, BACKWARD) && m == Pow2(e) && |freq| > m && 1 <= k < m && |c| == m
    requires c == Folded(Extend(freq, m), u, m)
    requires fk == freq[k] && fnk == freq[m - k] && super == Mul(Pow(u, k), BACKWARD)
    ensures Repack(fk, Conj(fnk), super).0 == c[k] && Repack(fk, Conj(fnk), super).1 == c[m - k]
  {
    hide Mul, Pow, Root, Pow2, Repack, Folded, Extend;
    RepackBins(freq, u, e, k);
  }

  lemma RepackMirror(a: Cx, b: Cx, p: Cx)
    ensures Add(Add(Conj(b), Conj(a)), Mul(Sub(Conj(b), Conj(a)), Mul(Sub(ZERO, Conj(p)), BACKWARD)))
         == Conj(Sub(Add(a, b), Mul(Sub(a, b), Mul(p, BACKWARD))))
  {
    var d := Sub(a, b);
    assert Mul(Sub(ZERO, Conj(p)), BACKWARD) == Sub(ZERO, Mul(Conj(p), BACKWARD));
    assert Mul(Conj(p), BACKWARD) == Sub(ZERO, Conj(Mul(p, BACKWARD)));
    var s := Mul(p, BACKWARD);
    assert Sub(Conj(b), Conj(a)) == Sub(ZERO, Conj(d));
    ConjMul(d, s);
    NegTimes(Conj(d), Conj(s));
  }

  lemma NegTimes(a: Cx, b: Cx)
    ensures Mul(Sub(ZERO, a), b) == Sub(ZERO, Mul(a, b))
  {
  }

  lemma BackwardMirror(u: Cx, e: nat, k: nat)
    requires Root(u, e + 1, BACKWARD) && k <= Pow2(e)
    ensures Pow(u, Pow2(e) - k) == Sub(ZERO, Conj(Pow(u, k)))
  {
    hide *;
    ForwardIsQuarter();
    var m := Pow2(e);
    PowTwice(e + 1);
    ConjIsInverse(u, e + 1, BACKWARD, k);
    ConjPow(u, k);
    PowAdd(u, m, m - k);
    RootHalf(u, e + 1, BACKWARD);
    MulNeg(Pow(u, m - k), ZERO);
    NegNeg(Pow(u, m - k));
  }

  lemma NegNeg(a: Cx)
    ensures Sub(ZERO, Sub(ZERO, a)) == a
  {
  }

  // ------------------------------------------------------------------ bins and samples

  /** Bins 0..m of the transform of 2*m real samples. */
  ghost function Spectrum(x: seq<real>, w: Cx, m: nat): (s: seq<Cx>)
    ensures |s| == m + 1
  {
    seq(m + 1, k requires 0 <= k <= m => Eval(ToCx(x), Pow(w, k)))
  }

  /** The real parts of the values of the spectrum f at the powers of u. */
  ghost function Samples(f: seq<Cx>, u: Cx, n: nat): (s: seq<real>)
    ensures |s| == n
  {
    seq(n, i requires 0 <= i < n => Eval(f, Pow(u, i)).re)
  }

  lemma BaseRoots(w: Cx, e: nat, inverse: bool)
    requires Root(w, e + 1, FORWARD)
    ensures var base := if inverse then Conj(w) else w;
            Root(base, e + 1, QuarterOf(inverse)) && Root(Mul(base, base), e, QuarterOf(inverse))
  {
    ForwardIsQuarter();
    RootConj(w, e + 1, FORWARD);
    RootSquare(if inverse then Conj(w) else w, e + 1, QuarterOf(inverse));
  }

  lemma TablesConfigured(stages: seq<Stage>, tw: seq<Cx>, inverse: bool, v: Cx, e: nat)
    requires Root(v, e, QuarterOf(inverse)) && Chain(stages, Pow2(e))
    requires e > 0 ==> SmallRadices(stages)
    requires Pow2(e) == 1 ==> stages == [Stage(1, 1)]
    requires tw == TwiddleTable(v, Pow2(e))
    ensures Configured(stages, tw, inverse, v, e)
  {
  }

  lemma FirstStage(stages: seq<Stage>, tw: seq<Cx>, inverse: bool, v: Cx, e: nat)
    requires Configured(stages, tw, inverse, v, e)
    ensures Current(stages, 0, e, e, 0, 1)
  {
    assert Pow2(0) == 1;
  }

  lemma WholeIsStrided(x: seq<Cx>, v: Cx)
    ensures StridedDft(x, 0, 1, |x|, v) == Bins(x, v, |x|)
  {
    var s := Strided(x, 0, 1, |x|);
    forall i: nat | i < |x|
      ensures s[i] == x[i]
    {
      assert 0 + 1 * i == i;
    }
    assert s == x;
    forall k: nat | k < |x|
      ensures StridedDft(x, 0, 1, |x|, v)[k] == Bins(x, v, |x|)[k]
    {
      assert 1 * k == k;
    }
  }

  /** The two real-valued end bins come from cell 0 of the packed transform. */
  lemma EndBins(x: seq<real>, w: Cx, e: nat, m: nat)
    requires m == Pow2(e) && |x| == 2 * m && Root(w, e + 1, FORWARD)
    ensures var t := Bins(Pack(x), Mul(w, w), m)[0];
            && Real(t.re + t.im) == Spectrum(x, w, m)[0]
            && Real(t.re - t.im) == Spectrum(x, w, m)[m]
  {
    hide Mul, Eval, Root, Pow, Pow2;
    EndBinsAre(x, w, e, m);
    hide Spectrum, Bins, Pack, ToCx, Even, Odd;
    EvalPacked(x, ONE);
    SplitReal(x, ONE);
    SplitReal(x, MINUS_ONE);
    UnitSquares();
    EvalRealAtReal(Even(x), ONE);
    EvalRealAtReal(Odd(x), ONE);
    EndArithmetic(Eval(ToCx(Even(x)), ONE), Eval(ToCx(Odd(x)), ONE));
  }

  lemma UnitSquares()
    ensures Mul(ONE, ONE) == ONE && Mul(MINUS_ONE, MINUS_ONE) == ONE
  {
    hide Mul;
    MulUnit(ONE);
    MulNeg(MINUS_ONE, ZERO);
  }

  lemma EndBinsAre(x: seq<real>, w: Cx, e: nat, m: nat)
    requires m == Pow2(e) && |x| == 2 * m && Root(w, e + 1, FORWARD)
    ensures Bins(Pack(x), Mul(w, w), m)[0] == Eval(Pack(x), ONE)
    ensures Spectrum(x, w, m)[0] == Eval(ToCx(x), ONE) && Spectrum(x, w, m)[m] == Eval(ToCx(x), MINUS_ONE)
  {
    hide Mul, Eval, Root;
    ForwardIsQuarter();
    RootHalf(w, e + 1, FORWARD);
    assert Pow(Mul(w, w), 0) == ONE && Pow(w, 0) == ONE;
  }

  lemma EndArithmetic(a: Cx, b: Cx)
    requires a.im == 0.0 && b.im == 0.0
    ensures var t := Add(a, Mul(IMAGINARY, b));
            Real(t.re + t.im) == Add(a, Mul(ONE, b)) && Real(t.re - t.im) == Add(a, Mul(MINUS_ONE, b))
  {
  }

  lemma InnerBins(x: seq<real>, w: Cx, e: nat, m: nat, k: nat)
    requires m == Pow2(e) && |x| == 2 * m && Root(w, e + 1, FORWARD) && 1 <= k < m
    ensures var t := Bins(Pack(x), Mul(w, w), m);
            Unpack(t[k], Conj(t[m - k]), Mul(Pow(w, k), FORWARD))
            == (Spectrum(x, w, m)[k], Spectrum(x, w, m)[m - k])
  {
    hide Unpack, Mul, Pow, Eval, Root, Pow2;
    UnpackBins(x, w, e, k);
  }

  lemma FoldedFirst(freq: seq<Cx>, u: Cx, m: nat)
    requires 0 < m < |freq|
    ensures |Extend(freq, m)| == 2 * m && |Folded(Extend(freq, m), u, m)| == m
    ensures Folded(Extend(freq, m), u, m)[0] == Cx(freq[0].re + freq[m].re, freq[0].re - freq[m].re)
  {
    hide Mul;
    var f := Extend(freq, m);
    assert f[0] == Real(freq[0].re) && f[0 + m] == Real(freq[m].re);
    assert Pow(u, 0) == ONE;
    TurnOfReal(freq[0].re - freq[m].re);
  }

  lemma TurnOfReal(r: real)
    ensures Mul(Real(r), Mul(ONE, BACKWARD)) == Cx(0.0, r)
  {
  }

  /** The time samples read off the folded transform. */
  lemma SpreadSamples(freq: seq<Cx>, w: Cx, e: nat, m: nat, cells: seq<Cx>, time: seq<real>)
    requires m == Pow2(e) && |freq| > m && Root(w, e + 1, FORWARD) && |time| == 2 * m && |cells| == m
    requires cells == Bins(Folded(Extend(freq, m), Conj(w), m), Mul(Conj(w), Conj(w)), m)
    requires forall j | 0 <= j < m :: cells[j] == Cx(time[2 * j], time[2 * j + 1])
    ensures time == Samples(Extend(freq, m), Conj(w), 2 * m)
  {
    hide *;
    var u, f := Conj(w), Extend(freq, m);
    var y := Samples(f, u, 2 * m);
    ForwardIsQuarter();
    BaseRoots(w, e, true);
    ExtendHermitian(freq, m);
    SamplesLength(freq, u, m);
    forall i: nat | i < 2 * m
      ensures time[i] == y[i]
    {
      SpreadAt(f, u, e, m, i / 2);
      assert cells[i / 2] == Cx(time[2 * (i / 2)], time[2 * (i / 2) + 1]);
    }
  }

  lemma SamplesLength(freq: seq<Cx>, u: Cx, m: nat)
    requires 0 < m < |freq|
    ensures |Extend(freq, m)| == 2 * m && |Samples(Extend(freq, m), u, 2 * m)| == 2 * m
  {
  }

  lemma SpreadAt(f: seq<Cx>, u: Cx, e: nat, m: nat, j: nat)
    requires m == Pow2(e) && |f| == 2 * m && j < m && Root(u, e + 1, BACKWARD) && Hermitian(f)
    ensures Bins(Folded(f, u, m), Mul(u, u), m)[j] == Cx(Samples(f, u, 2 * m)[2 * j], Samples(f, u, 2 * m)[2 * j + 1])
  {
    hide Mul, Pow, Eval, Root, Hermitian, Pow2, Folded;
    FoldedBin(f, u, e, j);
  }

  // ------------------------------------------------------------------ the two transforms

  function TwiddleTable(v: Cx, n: nat): (t: seq<Cx>) {
    seq(n, i requires 0 <= i < n => Pow(v, i))
  }

  function SuperTable(base: Cx, n: nat, q: Cx): (t: seq<Cx>) {
    seq(n, i requires 0 <= i < n => Mul(Pow(base, i), q))
  }

  lemma InverseFacts(super: seq<Cx>, freq: seq<Cx>, w: Cx, u: Cx, e: nat, m: nat)
    requires 0 < m < |freq| && u == Conj(w) && Root(w, e + 1, FORWARD) && super == SuperTable(u, m, BACKWARD)
    ensures Root(u, e + 1, BACKWARD) && |Extend(freq, m)| == 2 * m && |Folded(Extend(freq, m), u, m)| == m
    ensures Folded(Extend(freq, m), u, m)[0] == Cx(freq[0].re + freq[m].re, freq[0].re - freq[m].re)
    ensures |super| == m && forall k | 0 <= k < m :: super[k] == Mul(Pow(u, k), BACKWARD)
  {
    hide *;
    ForwardIsQuarter();
    BaseRoots(w, e, true);
    FoldedFirst(freq, u, m);
    SuperCells(u, m);
  }

  lemma SuperCells(u: Cx, m: nat)
    ensures |SuperTable(u, m, BACKWARD)| == m
    ensures forall k | 0 <= k < m :: SuperTable(u, m, BACKWARD)[k] == Mul(Pow(u, k), BACKWARD)
  {
    hide Mul, Pow;
  }

  /** The state cap_fftr_alloc builds. The values of cos and sin are given by one number, the
      forward root w = exp(-2*pi*i/nfft2), with nfft2 = 2*nfft the length of the real data. */
  class RealTransform {
    const nfft: nat
    const inverse: bool
    const stages: seq<Stage>
    const tw: seq<Cx>
    const super: seq<Cx>
    const tmpbuf: array<Cx>
    ghost const w: Cx
    ghost const e: nat

    /** The root this direction uses: w forward, its conjugate backward. */
    ghost function Base(): Cx {
      if inverse then Conj(w) else w
    }

    ghost predicate Valid() {
      && nfft == Pow2(e) == tmpbuf.Length && Root(w, e + 1, FORWARD)
      && Configured(stages, tw, inverse, Mul(Base(), Base()), e)
      && super == SuperTable(Base(), nfft, QuarterOf(inverse))
    }

    constructor (length: nat, inverseFft: bool, root: Cx, ghost exponent: nat)
      requires length == 2 * Pow2(exponent) && Root(root, exponent + 1, FORWARD)
      ensures Valid() && fresh(tmpbuf) && inverse == inverseFft && w == root && e == exponent
    {
      hide Root, Chain, Pow, Mul, TwiddleTable, SuperTable, SmallRadices;
      var half := length / 2;
      var base := if inverseFft then Conj(root) else root;
      var factors := Factor(half, exponent);
      nfft := half;
      inverse := inverseFft;
      stages := factors;
      tw := TwiddleTable(Mul(base, base), half);
      super := SuperTable(base, half, QuarterOf(inverseFft));
      tmpbuf := new Cx[half];
      w := root;
      e := exponent;
      new;
      BaseRoots(root, exponent, inverseFft);
      hide Root, Chain, Pow, Mul, Configured, TwiddleTable, SuperTable, SmallRadices, Pow2;
      TablesConfigured(stages, tw, inverse, Mul(Base(), Base()), e);
    }

    /** Bins 0..n/2 of the transform of the real data, n/2 = nfft. */
    method Transform(timedata: array<real>, freqdata: array<Cx>)
      requires Valid() && !inverse
      requires timedata.Length == 2 * nfft && freqdata.Length > nfft && freqdata != tmpbuf
      modifies freqdata, tmpbuf
      ensures freqdata[..nfft + 1] == Spectrum(timedata[..], w, nfft)
      ensures freqdata[nfft + 1..] == old(freqdata[nfft + 1..])
    {
      hide Pow, Mul, Eval, Root, Configured, Pow2, Unpack;
      ghost var x := timedata[..];
      ghost var bins := Spectrum(x, w, nfft);
      HalfTransform(Pack(timedata[..]));
      var tdc := tmpbuf[0];
      freqdata[0] := Cx(tdc.re + tdc.im, 0.0);
      freqdata[nfft] := Cx(tdc.re - tdc.im, 0.0);
      EndBins(x, w, e, nfft);
      var k := 1;
      while k <= nfft / 2
        invariant 1 <= k <= nfft / 2 + 1
        invariant tmpbuf[..] == Bins(Pack(x), Mul(w, w), nfft)
        invariant freqdata[0] == bins[0] && freqdata[nfft] == bins[nfft]
        invariant forall j | 0 <= j <= nfft && (j < k || j > nfft - k) :: freqdata[j] == bins[j]
        invariant freqdata[nfft + 1..] == old(freqdata[nfft + 1..])
      {
        var fpk := tmpbuf[k];
        var fpnk := Conj(tmpbuf[nfft - k]);
        var r := Unpack(fpk, fpnk, super[k]);
        InnerBins(x, w, e, nfft, k);
        assert fpk == tmpbuf[..][k] && tmpbuf[nfft - k] == tmpbuf[..][nfft - k];
        freqdata[k] := r.0;
        freqdata[nfft - k] := r.1;
        k := k + 1;
      }
      forall j | 0 <= j <= nfft
        ensures freqdata[..nfft + 1][j] == bins[j]
      {
      }
    }

    /** The complex transform of the packed data, left in tmpbuf. */
    method HalfTransform(packed: seq<Cx>)
      requires Valid() && |packed| == nfft
      modifies tmpbuf
      ensures tmpbuf[..] == Bins(packed, Mul(Base(), Base()), nfft)
    {
      hide Root, Mul, Pow, Eval;
      FirstStage(stages, tw, inverse, Mul(Base(), Base()), e);
      Work(tmpbuf, 0, packed, 0, 1, stages, 0, tw, inverse, Mul(Base(), Base()), e, e);
      WholeIsStrided(packed, Mul(Base(), Base()));
      assert tmpbuf[0..0 + nfft] == tmpbuf[..];
    }

    /** The unnormalised inverse: real sample i is the value at conj(w)^i of the full spectrum. */
    method Restore(freqdata: array<Cx>, timedata: array<real>)
      requires Valid() && inverse
      requires timedata.Length == 2 * nfft && freqdata.Length > nfft && freqdata != tmpbuf
      modifies timedata, tmpbuf
      ensures timedata[..] == Samples(Extend(freqdata[..], nfft), Conj(w), 2 * nfft)
    {
      ghost var freq := freqdata[..];
      hide *;
      Fold(freqdata);
      FinishRestore(freq, timedata);
    }

    /** The packed half-length spectrum. */
    method Fold(freqdata: array<Cx>)
      requires Valid() && inverse && freqdata.Length > nfft && freqdata != tmpbuf
      modifies tmpbuf
      ensures nfft > 0 && tmpbuf[..] == Folded(Extend(freqdata[..], nfft), Conj(w), nfft)
    {
      hide *;
      ghost var u := Conj(w);
      TableSizes();
      InverseFacts(super, freqdata[..], w, u, e, nfft);
      RepackAll(freqdata, u, Folded(Extend(freqdata[..], nfft), u, nfft));
    }

    lemma TableSizes()
      requires Valid()
      ensures tmpbuf.Length == nfft == Pow2(e) == |super| && nfft > 0 && Root(w, e + 1, FORWARD)
      ensures inverse ==> super == SuperTable(Conj(w), nfft, BACKWARD)
    {
      hide Pow, Mul, Root, Configured, Pow2;
    }

    method RepackAll(freqdata: array<Cx>, ghost u: Cx, ghost c: seq<Cx>)
      requires freqdata.Length > nfft && freqdata != tmpbuf && tmpbuf.Length == nfft == Pow2(e) == |super| == |c|
      requires Root(u, e + 1, BACKWARD)
      requires forall k | 0 <= k < nfft :: super[k] == Mul(Pow(u, k), BACKWARD)
      requires nfft > 0 && c == Folded(Extend(freqdata[..], nfft), u, nfft)
      requires c[0] == Cx(freqdata[0].re + freqdata[nfft].re, freqdata[0].re - freqdata[nfft].re)
      modifies tmpbuf
      ensures tmpbuf[..] == c
    {
      hide Pow, Mul, Eval, Root, Pow2, Repack, Extend, Folded;
      ghost var freq := freqdata[..];
      tmpbuf[0] := Cx(freqdata[0].re + freqdata[nfft].re, freqdata[0].re - freqdata[nfft].re);
      var k := 1;
      while k <= nfft / 2
        invariant 1 <= k <= nfft / 2 + 1
        invariant freqdata[..] == freq
        invariant forall j | 0 <= j < nfft && (j < k || j > nfft - k) :: tmpbuf[j] == c[j]
      {
        var r := Repack(freqdata[k], Conj(freqdata[nfft - k]), super[k]);
        InnerFold(freq, u, e, nfft, k, c, freq[k], freq[nfft - k], super[k]);
        assert r == (c[k], c[nfft - k]);
        tmpbuf[k] := r.0;
        tmpbuf[nfft - k] := r.1;
        k := k + 1;
      }
    }

    /** The last steps of the inverse: the complex transform, read back as real samples. */
    method FinishRestore(ghost freq: seq<Cx>, timedata: array<real>)
      requires Valid() && inverse && timedata.Length == 2 * nfft && |freq| > nfft > 0
      requires tmpbuf[..] == Folded(Extend(freq, nfft), Conj(w), nfft)
      modifies timedata, tmpbuf
      ensures timedata[..] == Samples(Extend(freq, nfft), Conj(w), 2 * nfft)
    {
      hide Pow, Mul, Eval, Root, Configured, Pow2, Extend, Folded, Samples, Bins;
      var packed := tmpbuf[..];
      HalfTransform(packed);
      Spread(timedata);
      SpreadSamples(freq, w, e, nfft, tmpbuf[..], timedata[..]);
    }

    /** The time buffer seen as complex cells: cell j holds samples 2j and 2j+1. */
    method Spread(timedata: array<real>)
      requires Valid() && timedata.Length == 2 * nfft
      modifies timedata
      ensures forall j | 0 <= j < nfft :: tmpbuf[j] == Cx(timedata[2 * j], timedata[2 * j + 1])
    {
      var j := 0;
      while j < nfft
        invariant 0 <= j <= nfft
        invariant forall i | 0 <= i < j :: tmpbuf[i] == Cx(timedata[2 * i], timedata[2 * i + 1])
      {
        timedata[2 * j] := tmpbuf[j].re;
        timedata[2 * j + 1] := tmpbuf[j].im;
        j := j + 1;
      }
    }
  }
}
