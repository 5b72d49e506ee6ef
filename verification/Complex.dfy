/** Complex numbers over exact reals, integer powers, and polynomial evaluation.
    A spectrum bin is a polynomial value, so the transform proofs are proofs about `Eval`. */
module Complex {

  datatype Cx = Cx(re: real, im: real)

  const ZERO := Cx(0.0, 0.0)
  const ONE := Cx(1.0, 0.0)
  const MINUS_ONE := Cx(-1.0, 0.0)

  function Add(a: Cx, b: Cx): Cx {
    Cx(a.re + b.re, a.im + b.im)
  }

  function Sub(a: Cx, b: Cx): Cx {
    Cx(a.re - b.re, a.im - b.im)
  }

  function Mul(a: Cx, b: Cx): Cx {
    Cx(a.re * b.re - a.im * b.im, a.re * b.im + a.im * b.re)
  }

  function Conj(a: Cx): Cx {
    Cx(a.re, -a.im)
  }

  function Scale(r: real, a: Cx): Cx {
    Cx(r * a.re, r * a.im)
  }

  function Real(r: real): Cx {
    Cx(r, 0.0)
  }

  lemma MulComm(a: Cx, b: Cx)
    ensures Mul(a, b) == Mul(b, a)
  {
  }

  lemma MulAssoc(a: Cx, b: Cx, c: Cx)
    ensures Mul(a, Mul(b, c)) == Mul(Mul(a, b), c)
  {
  }

  lemma MulAdd(a: Cx, b: Cx, c: Cx)
    ensures Mul(a, Add(b, c)) == Add(Mul(a, b), Mul(a, c))
    ensures Mul(Add(b, c), a) == Add(Mul(b, a), Mul(c, a))
  {
  }

  lemma MulUnit(a: Cx)
    ensures Mul(ONE, a) == a && Mul(a, ONE) == a
    ensures Mul(ZERO, a) == ZERO && Mul(a, ZERO) == ZERO
  {
  }

  /** (ab)(cd) == (ac)(bd) */
  lemma MulSwap(a: Cx, b: Cx, c: Cx, d: Cx)
    ensures Mul(Mul(a, b), Mul(c, d)) == Mul(Mul(a, c), Mul(b, d))
  {
    hide Mul;
    MulAssoc(Mul(a, b), c, d);
    MulAssoc(a, b, c);
    MulComm(b, c);
    MulAssoc(a, c, b);
    MulAssoc(Mul(a, c), b, d);
  }

  lemma ConjMul(a: Cx, b: Cx)
    ensures Conj(Mul(a, b)) == Mul(Conj(a), Conj(b))
  {
  }

  function Pow(z: Cx, n: nat): Cx {
    if n == 0 then ONE else Mul(z, Pow(z, n - 1))
  }

  lemma {:induction false} PowAdd(z: Cx, a: nat, b: nat)
    ensures Pow(z, a + b) == Mul(Pow(z, a), Pow(z, b))
  {
    if a == 0 {
    } else {
      hide Mul;
      PowAdd(z, a - 1, b);
      MulAssoc(z, Pow(z, a - 1), Pow(z, b));
    }
  }

  lemma {:induction false} PowIdempotent(z: Cx, n: nat)
    requires Mul(z, z) == z && Mul(z, ONE) == z
    ensures n > 0 ==> Pow(z, n) == z
  {
    hide Mul;
    if n > 1 {
      PowIdempotent(z, n - 1);
    }
  }

  lemma PowOne(n: nat)
    ensures Pow(ONE, n) == ONE
  {
    if n > 0 {
      hide Mul, Pow;
      MulUnit(ONE);
      PowIdempotent(ONE, n);
    } else {
      hide Mul;
    }
  }

  lemma {:induction false} PowProduct(a: Cx, b: Cx, n: nat)
    ensures Pow(Mul(a, b), n) == Mul(Pow(a, n), Pow(b, n))
  {
    if n > 0 {
      hide Mul;
      PowProduct(a, b, n - 1);
      MulSwap(a, b, Pow(a, n - 1), Pow(b, n - 1));
    }
  }

  lemma PowSquare(z: Cx, n: nat)
    ensures Pow(Mul(z, z), n) == Pow(z, 2 * n) == Pow(Pow(z, n), 2)
  {
    PowProduct(z, z, n);
    PowAdd(z, n, n);
    PowTwo(Pow(z, n));
  }

  lemma PowTwo(z: Cx)
    ensures Pow(z, 2) == Mul(z, z) && Pow(z, 1) == z
  {
    assert Pow(z, 0) == ONE;
    assert Pow(z, 1) == z;
  }

  lemma PowPow(z: Cx, a: nat, b: nat)
    ensures Pow(Pow(z, a), b) == Pow(z, a * b)
  {
    PowPowAt(z, a, b, a * b);
  }

  lemma {:induction false} PowPowAt(z: Cx, a: nat, b: nat, n: nat)
    requires n == a * b
    ensures Pow(Pow(z, a), b) == Pow(z, n)
    decreases b
  {
    hide Mul;
    if b > 0 {
      OneFewer(a, b, n);
      PowPowAt(z, a, b - 1, n - a);
      PowAdd(z, a, n - a);
    }
  }

  lemma OneFewer(a: nat, b: nat, n: nat)
    requires n == a * b && b > 0
    ensures n >= a && n - a == a * (b - 1)
  {
  }

  lemma {:induction false} ConjPow(z: Cx, n: nat)
    ensures Conj(Pow(z, n)) == Pow(Conj(z), n)
  {
    if n > 0 {
      ConjPow(z, n - 1);
      ConjMul(z, Pow(z, n - 1));
    }
  }

  /** x[0] + x[1]*z + x[2]*z^2 + ... */
  function Eval(x: seq<Cx>, z: Cx): Cx {
    if x == [] then ZERO else Add(x[0], Mul(z, Eval(x[1..], z)))
  }

  function Sum2(x: seq<Cx>, y: seq<Cx>): (s: seq<Cx>)
    requires |x| == |y|
  {
    seq(|x|, i requires 0 <= i < |x| => Add(x[i], y[i]))
  }

  function ScaleBy(c: Cx, x: seq<Cx>): (s: seq<Cx>) {
    seq(|x|, i requires 0 <= i < |x| => Mul(c, x[i]))
  }

  function ConjAll(x: seq<Cx>): (s: seq<Cx>) {
    seq(|x|, i requires 0 <= i < |x| => Conj(x[i]))
  }

  function Zeros(n: nat): (s: seq<Cx>) {
    seq(n, _ => ZERO)
  }

  lemma {:induction false} EvalSum(x: seq<Cx>, y: seq<Cx>, z: Cx)
    requires |x| == |y|
    ensures Eval(Sum2(x, y), z) == Add(Eval(x, z), Eval(y, z))
  {
    if x != [] {
      hide Mul;
      EvalSum(x[1..], y[1..], z);
      assert Sum2(x, y)[1..] == Sum2(x[1..], y[1..]);
      MulAdd(z, Eval(x[1..], z), Eval(y[1..], z));
    }
  }

  lemma {:induction false} EvalScale(c: Cx, x: seq<Cx>, z: Cx)
    ensures Eval(ScaleBy(c, x), z) == Mul(c, Eval(x, z))
  {
    if x == [] {
    } else {
      hide Mul;
      EvalScale(c, x[1..], z);
      assert ScaleBy(c, x)[1..] == ScaleBy(c, x[1..]);
      var r := Eval(x[1..], z);
      MulAdd(c, x[0], Mul(z, r));
      MulAssoc(z, c, r);
      MulComm(z, c);
      MulAssoc(c, z, r);
    }
  }

  lemma {:induction false} EvalConcat(x: seq<Cx>, y: seq<Cx>, z: Cx)
    ensures Eval(x + y, z) == Add(Eval(x, z), Mul(Pow(z, |x|), Eval(y, z)))
  {
    if x == [] {
      assert x + y == y;
    } else {
      assert (x + y)[1..] == x[1..] + y;
      EvalConcat(x[1..], y, z);
      var r, s, t := Eval(x[1..], z), Pow(z, |x| - 1), Eval(y, z);
      EvalConcatStep(x[0], z, r, s, t);
    }
  }

  lemma EvalConcatStep(a: Cx, z: Cx, r: Cx, s: Cx, t: Cx)
    ensures Add(a, Mul(z, Add(r, Mul(s, t)))) == Add(Add(a, Mul(z, r)), Mul(Mul(z, s), t))
  {
    hide Mul;
    MulAdd(z, r, Mul(s, t));
    MulAssoc(z, s, t);
  }

  lemma {:induction false} EvalZeros(n: nat, z: Cx)
    ensures Eval(Zeros(n), z) == ZERO
  {
    if n > 0 {
      assert Zeros(n)[1..] == Zeros(n - 1);
      EvalZeros(n - 1, z);
    }
  }

  lemma {:induction false} EvalConj(x: seq<Cx>, z: Cx)
    ensures Conj(Eval(x, z)) == Eval(ConjAll(x), Conj(z))
  {
    if x != [] {
      assert ConjAll(x)[1..] == ConjAll(x[1..]);
      EvalConj(x[1..], z);
      ConjMul(z, Eval(x[1..], z));
    }
  }

  function Reverse(x: seq<Cx>): (r: seq<Cx>) {
    seq(|x|, i requires 0 <= i < |x| => x[|x| - 1 - i])
  }

  /** Reversing the coefficients evaluates at the reciprocal point. */
  lemma {:induction false} EvalReverse(x: seq<Cx>, z: Cx, u: Cx)
    requires Mul(z, u) == ONE
    requires x != []
    ensures Eval(Reverse(x), z) == Mul(Pow(z, |x| - 1), Eval(x, u))
  {
    if |x| == 1 {
      assert Reverse(x)[1..] == [];
      assert x[1..] == [];
    } else {
      var y := x[1..];
      assert Reverse(x) == Reverse(y) + [x[0]];
      EvalConcat(Reverse(y), [x[0]], z);
      EvalReverse(y, z, u);
      assert Eval([x[0]], z) == x[0] by { assert [x[0]][1..] == []; }
      EvalReverseStep(x[0], z, u, Pow(z, |x| - 2), Eval(y, u));
      assert Pow(z, |x| - 1) == Mul(z, Pow(z, |x| - 2));
    }
  }

  lemma EvalReverseStep(a: Cx, z: Cx, u: Cx, p: Cx, e: Cx)
    requires Mul(z, u) == ONE
    ensures Add(Mul(p, e), Mul(Mul(z, p), a)) == Mul(Mul(z, p), Add(a, Mul(u, e)))
  {
    assert Mul(ONE, Mul(p, e)) == Mul(p, e);
    hide Mul;
    MulAdd(Mul(z, p), a, Mul(u, e));
    MulSwap(z, p, u, e);
    assert forall c, d :: Add(c, d) == Add(d, c);
  }
}
