/** The discrete Fourier transform of power-of-two length as evaluation at the powers of a root
    of unity: radix-2 and radix-4 decomposition, inversion, and the circular-convolution theorem. */
module Dft {
  import opened Arith
  import opened Complex

  function Pow2(e: nat): (p: nat)
    ensures p >= 1
  {
    if e == 0 then 1 else 2 * Pow2(e - 1)
  }

  const FORWARD := Cx(0.0, -1.0)
  const BACKWARD := Cx(0.0, 1.0)

  /** w is the principal root of order 2^e whose quarter turn is q (-i forward, +i backward),
      that is exp(-+2*pi*i/2^e). */
  ghost predicate Root(w: Cx, e: nat, q: Cx)
    decreases e
  {
    if e == 0 then w == ONE
    else if e == 1 then w == MINUS_ONE
    else if e == 2 then w == q
    else Root(Mul(w, w), e - 1, q)
  }

  ghost predicate Quarter(q: Cx) {
    q == FORWARD || q == BACKWARD
  }

  lemma RootSquare(w: Cx, e: nat, q: Cx)
    requires e >= 1 && Quarter(q) && Root(w, e, q)
    ensures Root(Mul(w, w), e - 1, q)
  {
  }

  lemma {:induction false} RootHalf(w: Cx, e: nat, q: Cx)
    requires e >= 1 && Quarter(q) && Root(w, e, q)
    ensures Pow(w, Pow2(e - 1)) == MINUS_ONE
    decreases e
  {
    if e == 1 {
      PowTwo(w);
    } else {
      RootSquare(w, e, q);
      RootHalf(Mul(w, w), e - 1, q);
      PowSquare(w, Pow2(e - 2));
    }
  }

  lemma {:induction false} RootQuarter(w: Cx, e: nat, q: Cx)
    requires e >= 2 && Quarter(q) && Root(w, e, q)
    ensures Pow(w, Pow2(e - 2)) == q
    decreases e
  {
    if e == 2 {
      PowTwo(w);
    } else {
      RootSquare(w, e, q);
      RootQuarter(Mul(w, w), e - 1, q);
      PowSquare(w, Pow2(e - 3));
    }
  }

  lemma RootFull(w: Cx, e: nat, q: Cx)
    requires Quarter(q) && Root(w, e, q)
    ensures Pow(w, Pow2(e)) == ONE
  {
    if e == 0 {
      PowTwo(w);
    } else {
      RootHalf(w, e, q);
      PowAdd(w, Pow2(e - 1), Pow2(e - 1));
    }
  }

  lemma {:induction false} RootUnit(w: Cx, e: nat, q: Cx)
    requires Quarter(q) && Root(w, e, q)
    ensures Mul(w, Conj(w)) == ONE && Mul(Conj(w), w) == ONE
    decreases e
  {
    if e > 2 {
      RootUnit(Mul(w, w), e - 1, q);
      hide Mul, Root;
      ConjMul(w, w);
      MulSwap(w, w, Conj(w), Conj(w));
      UnitOfSquare(w);
    }
  }

  lemma UnitOfSquare(w: Cx)
    requires Mul(Mul(w, Conj(w)), Mul(w, Conj(w))) == ONE
    ensures Mul(w, Conj(w)) == ONE && Mul(Conj(w), w) == ONE
  {
    var n := w.re * w.re + w.im * w.im;
    NormOf(w);
    SquareIsOne(n);
  }

  lemma NormOf(w: Cx)
    ensures Mul(w, Conj(w)) == Mul(Conj(w), w) == Real(w.re * w.re + w.im * w.im)
    ensures w.re * w.re + w.im * w.im >= 0.0
  {
  }

  lemma SquareIsOne(n: real)
    requires n >= 0.0 && n * n == 1.0
    ensures n == 1.0
  {
    if n < 1.0 {
      SquareLess(n, 1.0);
    } else if n > 1.0 {
      SquareLess(1.0, n);
    }
  }

  lemma {:induction false} RootConj(w: Cx, e: nat, q: Cx)
    requires Root(w, e, q)
    ensures Root(Conj(w), e, Conj(q))
    decreases e
  {
    if e > 2 {
      RootConj(Mul(w, w), e - 1, q);
      ConjMul(w, w);
    }
  }

  lemma {:induction false} RootPower(w: Cx, e: nat, q: Cx, k: nat)
    requires k <= e && Quarter(q) && Root(w, e, q)
    ensures Root(Pow(w, Pow2(k)), e - k, q)
    decreases k
  {
    if k == 0 {
      PowTwo(w);
    } else {
      RootSquare(w, e, q);
      RootPower(Mul(w, w), e - 1, q, k - 1);
      PowSquare(w, Pow2(k - 1));
    }
  }

  ghost function Even<T>(x: seq<T>): (s: seq<T>) {
    seq(|x| / 2, j requires 0 <= j < |x| / 2 => x[2 * j])
  }

  ghost function Odd<T>(x: seq<T>): (s: seq<T>) {
    seq(|x| / 2, j requires 0 <= j < |x| / 2 => x[2 * j + 1])
  }

  lemma {:induction false} EvalSplit(x: seq<Cx>, z: Cx)
    requires |x| % 2 == 0
    ensures Eval(x, z) == Add(Eval(Even(x), Mul(z, z)), Mul(z, Eval(Odd(x), Mul(z, z))))
  {
    hide *;
    if x == [] {
      EvalNothing(x, z);
    } else {
      var y := x[2..];
      EvalSplit(y, z);
      EvalPair(x, z);
      EvalSplitStep(x[0], x[1], z, Eval(Even(y), Mul(z, z)), Eval(Odd(y), Mul(z, z)));
    }
  }

  lemma EvalNothing(x: seq<Cx>, z: Cx)
    requires x == []
    ensures Eval(x, z) == Add(Eval(Even(x), Mul(z, z)), Mul(z, Eval(Odd(x), Mul(z, z))))
  {
    hide Mul;
    MulUnit(z);
    assert Even(x) == [] == Odd(x);
  }

  lemma EvalPair(x: seq<Cx>, z: Cx)
    requires |x| >= 2 && |x| % 2 == 0
    ensures Eval(x, z) == Add(x[0], Mul(z, Add(x[1], Mul(z, Eval(x[2..], z)))))
    ensures Eval(Even(x), Mul(z, z)) == Add(x[0], Mul(Mul(z, z), Eval(Even(x[2..]), Mul(z, z))))
    ensures Eval(Odd(x), Mul(z, z)) == Add(x[1], Mul(Mul(z, z), Eval(Odd(x[2..]), Mul(z, z))))
  {
    hide Add, Mul;
    var y := x[2..];
    assert Even(x)[1..] == Even(y);
    assert Odd(x)[1..] == Odd(y);
    assert x[1..][1..] == y;
  }

  lemma EvalSplitStep(a: Cx, b: Cx, z: Cx, p: Cx, r: Cx)
    ensures Add(a, Mul(z, Add(b, Mul(z, Add(p, Mul(z, r))))))
         == Add(Add(a, Mul(Mul(z, z), p)), Mul(z, Add(b, Mul(Mul(z, z), r))))
  {
    hide Mul;
    MulAdd(z, p, Mul(z, r));
    MulAssoc(z, z, r);
    MulAdd(z, b, Add(Mul(z, p), Mul(Mul(z, z), r)));
    MulAdd(z, Mul(z, p), Mul(Mul(z, z), r));
    MulAssoc(z, z, p);
    MulAdd(z, b, Mul(Mul(z, z), r));
  }

  lemma MulNeg(a: Cx, b: Cx)
    ensures Mul(Sub(ZERO, a), b) == Sub(ZERO, Mul(a, b))
    ensures Mul(MINUS_ONE, a) == Sub(ZERO, a)
    ensures Mul(Sub(ZERO, a), Sub(ZERO, a)) == Mul(a, a)
  {
  }

  /** One radix-2 stage: both halves of a transform from the transforms of the two phases. */
  lemma Radix2(x: seq<Cx>, w: Cx, e: nat, q: Cx, u: nat)
    requires e >= 1 && Quarter(q) && Root(w, e, q)
    requires |x| == Pow2(e)
    ensures var v := Pow(w, 2 * u);
            var s := Mul(Eval(Odd(x), v), Pow(w, u));
            && Eval(x, Pow(w, u)) == Add(Eval(Even(x), v), s)
            && Eval(x, Pow(w, u + Pow2(e - 1))) == Sub(Eval(Even(x), v), s)
  {
    hide *;
    var m := Pow2(e - 1);
    assert Pow2(e) == 2 * m by { PowTwice(e); }
    var z := Pow(w, u);
    PowAdd(w, u, u);
    RootHalf(w, e, q);
    PowAdd(w, u, m);
    MulComm(z, MINUS_ONE);
    MulNeg(z, Eval(Odd(x), Mul(z, z)));
    EvalSplit(x, z);
    EvalSplit(x, Sub(ZERO, z));
    MulComm(z, Eval(Odd(x), Mul(z, z)));
    AddSub(Eval(Even(x), Mul(z, z)), Mul(z, Eval(Odd(x), Mul(z, z))));
  }

  lemma PowTwice(e: nat)
    requires e >= 1
    ensures Pow2(e) == 2 * Pow2(e - 1)
  {
  }

  function Phase<T>(x: seq<T>, r: nat): (s: seq<T>)
    requires r < 4
  {
    seq(|x| / 4, j requires 0 <= j < |x| / 4 => x[4 * j + r])
  }

  lemma PhaseIsEvenOdd<T>(x: seq<T>)
    requires |x| % 4 == 0
    ensures Even(Even(x)) == Phase(x, 0) && Even(Odd(x)) == Phase(x, 1)
    ensures Odd(Even(x)) == Phase(x, 2) && Odd(Odd(x)) == Phase(x, 3)
  {
  }

  /** Splitting a polynomial into its four phases. */
  lemma EvalPhases(x: seq<Cx>, z: Cx, zz: Cx, v: Cx)
    requires |x| % 4 == 0 && Mul(z, z) == zz && Mul(zz, zz) == v
    ensures Eval(x, z) == Add(Add(Eval(Phase(x, 0), v), Mul(zz, Eval(Phase(x, 2), v))),
                              Mul(z, Add(Eval(Phase(x, 1), v), Mul(zz, Eval(Phase(x, 3), v)))))
  {
    hide Mul, Eval;
    PhaseIsEvenOdd(x);
    EvalSplit(x, z);
    EvalSplit(Even(x), zz);
    EvalSplit(Odd(x), zz);
  }

  /** One radix-4 stage, in the order of operations of the butterfly. */
  lemma Radix4(x: seq<Cx>, w: Cx, e: nat, q: Cx, u: nat)
    requires e >= 2 && Quarter(q) && Root(w, e, q)
    requires |x| == Pow2(e)
    ensures var m := Pow2(e - 2);
            var v := Pow(w, 4 * u);
            var f0 := Eval(Phase(x, 0), v);
            var s0 := Mul(Eval(Phase(x, 1), v), Pow(w, u));
            var s1 := Mul(Eval(Phase(x, 2), v), Pow(w, 2 * u));
            var s2 := Mul(Eval(Phase(x, 3), v), Pow(w, 3 * u));
            && Eval(x, Pow(w, u)) == Add(Add(f0, s1), Add(s0, s2))
            && Eval(x, Pow(w, u + 2 * m)) == Sub(Add(f0, s1), Add(s0, s2))
            && Eval(x, Pow(w, u + m)) == Add(Sub(f0, s1), Mul(q, Sub(s0, s2)))
            && Eval(x, Pow(w, u + 3 * m)) == Sub(Sub(f0, s1), Mul(q, Sub(s0, s2)))
  {
    var m := Pow2(e - 2);
    assert |x| == 4 * m;
    hide *;
    Radix4Powers(w, e, q, u);
    var z, zz, v := Pow(w, u), Pow(w, 2 * u), Pow(w, 4 * u);
    Radix4Points(z, q, zz, v);
    EvalPhases(x, z, zz, v);
    EvalPhases(x, Sub(ZERO, z), zz, v);
    EvalPhases(x, Mul(z, q), Sub(ZERO, zz), v);
    EvalPhases(x, Sub(ZERO, Mul(z, q)), Sub(ZERO, zz), v);
    var f0, f1 := Eval(Phase(x, 0), v), Eval(Phase(x, 1), v);
    var f2, f3 := Eval(Phase(x, 2), v), Eval(Phase(x, 3), v);
    Radix4Algebra(z, q, zz, f0, f1, f2, f3);
  }

  lemma Radix4Powers(w: Cx, e: nat, q: Cx, u: nat)
    requires e >= 2 && Quarter(q) && Root(w, e, q)
    ensures var m := Pow2(e - 2);
            var z, zz := Pow(w, u), Pow(w, 2 * u);
            && Mul(z, z) == zz && Mul(zz, zz) == Pow(w, 4 * u)
            && Pow(w, 3 * u) == Mul(z, zz)
            && Pow(w, u + m) == Mul(z, q)
            && Pow(w, u + 2 * m) == Sub(ZERO, z)
            && Pow(w, u + 3 * m) == Sub(ZERO, Mul(z, q))
  {
    var m := Pow2(e - 2);
    assert Pow2(e - 1) == 2 * m;
    hide Mul, Root, Pow;
    PowAdd(w, u, u);
    PowAdd(w, u, 2 * u);
    PowAdd(w, 2 * u, 2 * u);
    PowAdd(w, u, m);
    PowAdd(w, u, 2 * m);
    PowAdd(w, u + m, 2 * m);
    RootQuarter(w, e, q);
    RootHalf(w, e, q);
    MulComm(Pow(w, u), MINUS_ONE);
    MulComm(Mul(Pow(w, u), q), MINUS_ONE);
    MulNeg(Pow(w, u), q);
    MulNeg(Mul(Pow(w, u), q), q);
  }

  lemma Radix4Points(z: Cx, q: Cx, zz: Cx, v: Cx)
    requires Quarter(q) && Mul(z, z) == zz && Mul(zz, zz) == v
    ensures Mul(Sub(ZERO, z), Sub(ZERO, z)) == zz
    ensures Mul(Mul(z, q), Mul(z, q)) == Sub(ZERO, zz)
    ensures Mul(Sub(ZERO, Mul(z, q)), Sub(ZERO, Mul(z, q))) == Sub(ZERO, zz)
    ensures Mul(Sub(ZERO, zz), Sub(ZERO, zz)) == v
  {
    assert Mul(q, q) == MINUS_ONE;
    hide Mul;
    MulNeg(z, z);
    MulNeg(zz, zz);
    MulSwap(z, q, z, q);
    MulComm(zz, MINUS_ONE);
    MulNeg(Mul(z, q), z);
  }

  lemma Radix4Algebra(z: Cx, q: Cx, zz: Cx, f0: Cx, f1: Cx, f2: Cx, f3: Cx)
    ensures var s0, s1, s2 := Mul(f1, z), Mul(f2, zz), Mul(f3, Mul(z, zz));
            && Add(Add(f0, Mul(zz, f2)), Mul(z, Add(f1, Mul(zz, f3)))) == Add(Add(f0, s1), Add(s0, s2))
            && Add(Add(f0, Mul(zz, f2)), Mul(Sub(ZERO, z), Add(f1, Mul(zz, f3)))) == Sub(Add(f0, s1), Add(s0, s2))
            && Add(Add(f0, Mul(Sub(ZERO, zz), f2)), Mul(Mul(z, q), Add(f1, Mul(Sub(ZERO, zz), f3))))
               == Add(Sub(f0, s1), Mul(q, Sub(s0, s2)))
            && Add(Add(f0, Mul(Sub(ZERO, zz), f2)), Mul(Sub(ZERO, Mul(z, q)), Add(f1, Mul(Sub(ZERO, zz), f3))))
               == Sub(Sub(f0, s1), Mul(q, Sub(s0, s2)))
  {
    hide Mul;
    Radix4Step(z, q, zz, f1, f3);
    MulComm(zz, f2);
    MulNeg(zz, f2);
    MulNeg(zz, f3);
    MulNeg(z, Add(f1, Mul(zz, f3)));
    AddSub(f1, Mul(zz, f3));
    MulNeg(Mul(z, q), Sub(f1, Mul(zz, f3)));
  }

  lemma AddSub(a: Cx, b: Cx)
    ensures Add(a, Sub(ZERO, b)) == Sub(a, b)
  {
  }

  lemma Radix4Step(z: Cx, q: Cx, zz: Cx, f1: Cx, f3: Cx)
    ensures Mul(z, Add(f1, Mul(zz, f3))) == Add(Mul(f1, z), Mul(f3, Mul(z, zz)))
    ensures Mul(Mul(z, q), Sub(f1, Mul(zz, f3))) == Mul(q, Sub(Mul(f1, z), Mul(f3, Mul(z, zz))))
  {
    assert Sub(f1, Mul(zz, f3)) == Add(f1, Mul(MINUS_ONE, Mul(zz, f3)));
    assert Mul(MINUS_ONE, Mul(f3, Mul(z, zz))) == Sub(ZERO, Mul(f3, Mul(z, zz)));
    hide Mul;
    MulAdd(z, f1, Mul(zz, f3));
    MulComm(z, f1);
    MulAssoc(z, zz, f3);
    MulComm(Mul(z, zz), f3);
    var g := Sub(f1, Mul(zz, f3));
    MulComm(z, q);
    MulAssoc(q, z, g);
    MulAdd(z, f1, Mul(MINUS_ONE, Mul(zz, f3)));
    MulAssoc(z, MINUS_ONE, Mul(zz, f3));
    MulComm(z, MINUS_ONE);
    MulAssoc(MINUS_ONE, z, Mul(zz, f3));
    AddSub(Mul(f1, z), Mul(f3, Mul(z, zz)));
  }

  // ------------------------------------------------------------------ inversion

  function Ones(n: nat): (s: seq<Cx>) {
    seq(n, _ => ONE)
  }

  /** 1 + z + ... + z^(n-1) vanishes at every power of the root that is not 1. */
  lemma {:induction false} GeometricSum(w: Cx, e: nat, q: Cx, d: nat)
    requires Quarter(q) && Root(w, e, q) && 0 < d < Pow2(e)
    ensures Eval(Ones(Pow2(e)), Pow(w, d)) == ZERO
    decreases e
  {
    if d % 2 == 1 {
      GeometricHalves(w, e, q, d);
      MulNeg(Eval(Ones(Pow2(e - 1)), Pow(w, d)), ZERO);
    } else {
      RootSquare(w, e, q);
      GeometricSum(Mul(w, w), e - 1, q, d / 2);
      hide Root, Pow, Eval;
      PowSquare(w, d / 2);
      GeometricHalves(w, e, q, d);
    }
  }

  lemma GeometricHalves(w: Cx, e: nat, q: Cx, d: nat)
    requires e >= 1 && Quarter(q) && Root(w, e, q)
    ensures var g := Eval(Ones(Pow2(e - 1)), Pow(w, d));
            Eval(Ones(Pow2(e)), Pow(w, d)) == Add(g, Mul(if d % 2 == 0 then ONE else MINUS_ONE, g))
  {
    hide Mul, Eval, Root, Pow;
    var m := Pow2(e - 1);
    assert Ones(Pow2(e)) == Ones(m) + Ones(m);
    EvalConcat(Ones(m), Ones(m), Pow(w, d));
    PowOfRootHalf(w, e, q, d);
  }

  /** (w^d)^(n/2) is (-1)^d. */
  lemma PowOfRootHalf(w: Cx, e: nat, q: Cx, d: nat)
    requires e >= 1 && Quarter(q) && Root(w, e, q)
    ensures Pow(Pow(w, d), Pow2(e - 1)) == if d % 2 == 0 then ONE else MINUS_ONE
  {
    hide Pow;
    var m := Pow2(e - 1);
    RootHalf(w, e, q);
    PowPow(w, m, d);
    PowPow(w, d, m);
    assert m * d == d * m;
    PowInvolution(MINUS_ONE, d);
  }

  lemma {:induction false} PowInvolution(z: Cx, d: nat)
    requires Mul(z, z) == ONE
    ensures Pow(z, d) == if d % 2 == 0 then ONE else z
  {
    hide Mul;
    PowTwo(z);
    if d >= 2 {
      PowInvolution(z, d - 2);
      PowAdd(z, 2, d - 2);
      MulUnit(Pow(z, d - 2));
    }
  }

  lemma {:induction false} OnesAtOne(n: nat)
    ensures Eval(Ones(n), ONE) == Real(n as real)
  {
    if n > 0 {
      assert Ones(n)[1..] == Ones(n - 1);
      OnesAtOne(n - 1);
      MulUnit(Eval(Ones(n - 1), ONE));
    }
  }

  /** x[0]*G(z) + x[1]*G(z*w) + x[2]*G(z*w^2) + ..., with G the geometric sum of n terms. */
  ghost function Back(x: seq<Cx>, w: Cx, n: nat, z: Cx): Cx {
    if x == [] then ZERO
    else Add(Mul(x[0], Eval(Ones(n), z)), Back(x[1..], w, n, Mul(z, w)))
  }

  /** The first n bins of the transform: bin k is the value of the polynomial with coefficients x at
      w^k. */
  ghost function Bins(x: seq<Cx>, w: Cx, n: nat): (s: seq<Cx>) {
    seq(n, k requires 0 <= k < n => Eval(x, Pow(w, k)))
  }

  lemma {:induction false} EvalBins(x: seq<Cx>, w: Cx, n: nat, z: Cx)
    ensures Eval(Bins(x, w, n), z) == Back(x, w, n, z)
  {
    hide Mul, Add, Eval, Bins, Twist, Ones, ScaleBy, Sum2;
    if x == [] {
      NoBins(x, w, n, z);
    } else {
      var y := Bins(x[1..], w, n);
      EvalBins(x[1..], w, n, Mul(z, w));
      BinsGrow(x, w, n);
      EvalTwist(y, w, n, z);
      EvalScale(x[0], Ones(n), z);
      EvalSum(ScaleBy(x[0], Ones(n)), Twist(y, w), z);
    }
  }

  lemma NoBins(x: seq<Cx>, w: Cx, n: nat, z: Cx)
    requires x == []
    ensures Eval(Bins(x, w, n), z) == ZERO
  {
    assert Bins(x, w, n) == Zeros(n);
    EvalZeros(n, z);
  }

  /** The bins after one more coefficient in front. */
  lemma BinsGrow(x: seq<Cx>, w: Cx, n: nat)
    requires x != []
    ensures |Bins(x[1..], w, n)| == n == |Ones(n)| == |ScaleBy(x[0], Ones(n))| == |Twist(Bins(x[1..], w, n), w)|
    ensures Bins(x, w, n) == Sum2(ScaleBy(x[0], Ones(n)), Twist(Bins(x[1..], w, n), w))
  {
    hide Mul;
    MulUnit(x[0]);
  }

  /** Multiplying bin k by w^k moves the evaluation point by one step. */
  ghost function Twist(y: seq<Cx>, w: Cx): (s: seq<Cx>) {
    seq(|y|, k requires 0 <= k < |y| => Mul(Pow(w, k), y[k]))
  }

  lemma {:induction false} EvalTwist(y: seq<Cx>, w: Cx, n: nat, z: Cx)
    requires |y| == n
    ensures Eval(Twist(y, w), z) == Eval(y, Mul(z, w))
  {
    hide Mul;
    if n > 0 {
      var t := y[1..];
      EvalTwist(t, w, n - 1, z);
      EvalScale(w, Twist(t, w), z);
      assert Twist(y, w)[0] == y[0] by { MulUnit(y[0]); }
      forall k | 0 <= k < n - 1
        ensures Twist(y, w)[1..][k] == ScaleBy(w, Twist(t, w))[k]
      {
        MulAssoc(w, Pow(w, k), t[k]);
      }
      assert Twist(y, w)[1..] == ScaleBy(w, Twist(t, w));
      MulAssoc(z, w, Eval(t, Mul(z, w)));
    }
  }

  lemma {:induction false} BackAtRoot(x: seq<Cx>, w: Cx, e: nat, q: Cx, t: nat)
    requires Quarter(q) && Root(w, e, q)
    requires 0 < t && t + |x| <= 2 * Pow2(e)
    ensures var n := Pow2(e);
            Back(x, w, n, Pow(w, t)) == if t <= n < t + |x| then Scale(n as real, x[n - t]) else ZERO
  {
    var n := Pow2(e);
    if x != [] {
      BackAtRoot(x[1..], w, e, q, t + 1);
      hide Mul, Root, Eval;
      MulComm(Pow(w, t), w);
      GeometricAt(w, e, q, t);
      MulUnit(x[0]);
      MulReal(x[0], n as real);
    }
  }

  lemma GeometricAt(w: Cx, e: nat, q: Cx, t: nat)
    requires Quarter(q) && Root(w, e, q) && 0 < t < 2 * Pow2(e)
    ensures Eval(Ones(Pow2(e)), Pow(w, t)) == if t == Pow2(e) then Real(Pow2(e) as real) else ZERO
  {
    hide Root, Eval, Mul, Pow;
    var n := Pow2(e);
    RootFull(w, e, q);
    if t < n {
      GeometricSum(w, e, q, t);
    } else if t == n {
      OnesAtOne(n);
    } else {
      PowAdd(w, n, t - n);
      MulUnit(Pow(w, t - n));
      GeometricSum(w, e, q, t - n);
    }
  }

  lemma MulReal(a: Cx, r: real)
    ensures Mul(a, Real(r)) == Mul(Real(r), a) == Scale(r, a)
  {
  }

  /** Inversion: transforming the spectrum with the conjugate root gives n times the sequence. */
  lemma Inversion(x: seq<Cx>, w: Cx, e: nat, q: Cx, i: nat)
    requires Quarter(q) && Root(w, e, q)
    requires |x| == Pow2(e) && i < |x|
    ensures Eval(Bins(x, w, |x|), Pow(Conj(w), i)) == Scale(Pow2(e) as real, x[i])
  {
    var n := Pow2(e);
    hide Root, Eval, Mul, Pow, Back;
    EvalBins(x, w, n, Pow(w, n - i));
    BackAtRoot(x, w, e, q, n - i);
    ConjIsInverse(w, e, q, i);
  }

  /** conj(w)^i is w^(n-i). */
  lemma ConjIsInverse(w: Cx, e: nat, q: Cx, i: nat)
    requires Quarter(q) && Root(w, e, q) && i <= Pow2(e)
    ensures Pow(Conj(w), i) == Pow(w, Pow2(e) - i)
    ensures Mul(Pow(Conj(w), i), Pow(w, i)) == ONE
  {
    hide Root, Mul;
    var n := Pow2(e);
    RootUnit(w, e, q);
    RootFull(w, e, q);
    PowAdd(w, n - i, i);
    PowProduct(Conj(w), w, i);
    PowOne(i);
    var a, b, c := Pow(Conj(w), i), Pow(w, i), Pow(w, n - i);
    MulAssoc(c, b, a);
    MulComm(a, b);
    MulUnit(a);
    MulUnit(c);
  }
}
