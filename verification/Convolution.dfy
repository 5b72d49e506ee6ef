/** Direct and circular convolution of real sequences, and the circular-convolution theorem. */
module Convolution {
  import opened Complex
  import opened RealFft

  /** h[0]*s[i] + h[1]*s[i-1] + ..., with samples before the start of s taken as zero: one output of
      the tapped delay line. */
  ghost function FirAt(h: seq<real>, s: seq<real>, i: int): real
    requires i < |s|
  {
    if h == [] then 0.0
    else h[0] * (if i >= 0 then s[i] else 0.0) + FirAt(h[1..], s, i - 1)
  }

  ghost function Rotate(x: seq<real>): (r: seq<real>)
    ensures |r| == |x|
  {
    if x == [] then [] else [x[|x| - 1]] + x[..|x| - 1]
  }

  ghost function AddScaled(c: real, x: seq<real>, y: seq<real>): (s: seq<real>)
    requires |x| == |y|
    ensures |s| == |x|
  {
    seq(|x|, i requires 0 <= i < |x| => c * x[i] + y[i])
  }

  ghost function Silence(n: nat): (s: seq<real>)
    ensures |s| == n
  {
    seq(n, _ => 0.0)
  }

  /** The sum of h[j] times x rotated j places to the right. */
  ghost function CircConv(x: seq<real>, h: seq<real>): (y: seq<real>)
    ensures |y| == |x|
    decreases |h|
  {
    if h == [] then Silence(|x|) else AddScaled(h[0], x, CircConv(Rotate(x), h[1..]))
  }

  lemma EvalOne(a: Cx, z: Cx)
    ensures Eval([a], z) == a
  {
    hide Mul;
    assert [a][1..] == [];
    MulUnit(z);
  }

  lemma EvalRotate(x: seq<real>, z: Cx)
    requires Pow(z, |x|) == ONE
    ensures Eval(ToCx(Rotate(x)), z) == Mul(z, Eval(ToCx(x), z))
  {
    if x == [] {
      hide Mul;
      MulUnit(z);
    } else {
      hide Mul, Pow, Eval;
      var n := |x| - 1;
      var c := ToCx(x);
      var init, last := c[..n], c[n];
      assert ToCx(Rotate(x)) == [last] + init;
      assert c == init + [last];
      EvalConcat(init, [last], z);
      EvalConcat([last], init, z);
      EvalOne(last, z);
      PowTwo(z);
      PowAdd(z, 1, n);
      RotateStep(z, Pow(z, n), Eval(init, z), last);
    }
  }

  lemma RotateStep(z: Cx, p: Cx, e: Cx, last: Cx)
    requires Mul(z, p) == ONE
    ensures Add(last, Mul(z, e)) == Mul(z, Add(e, Mul(p, last)))
  {
    hide Mul;
    MulAdd(z, e, Mul(p, last));
    MulAssoc(z, p, last);
    MulUnit(last);
  }

  /** The circular-convolution theorem: at every root of unity of the length, the value of the
      circular convolution is the product of the values. */
  lemma {:induction false} EvalCircConv(x: seq<real>, h: seq<real>, z: Cx)
    requires Pow(z, |x|) == ONE
    ensures Eval(ToCx(CircConv(x, h)), z) == Mul(Eval(ToCx(h), z), Eval(ToCx(x), z))
    decreases |h|
  {
    if h == [] {
      hide Mul;
      assert ToCx(Silence(|x|)) == Zeros(|x|);
      EvalZeros(|x|, z);
      MulUnit(Eval(ToCx(x), z));
      assert ToCx(h) == [];
    } else {
      EvalCircConv(Rotate(x), h[1..], z);
      EvalCircConvStep(x, h, z);
    }
  }

  lemma EvalCircConvStep(x: seq<real>, h: seq<real>, z: Cx)
    requires Pow(z, |x|) == ONE && h != []
    requires Eval(ToCx(CircConv(Rotate(x), h[1..])), z) == Mul(Eval(ToCx(h[1..]), z), Eval(ToCx(Rotate(x)), z))
    ensures Eval(ToCx(CircConv(x, h)), z) == Mul(Eval(ToCx(h), z), Eval(ToCx(x), z))
  {
    hide Mul, Pow, Eval;
    var a, y := Real(h[0]), CircConv(Rotate(x), h[1..]);
    AddScaledIsSum(h[0], x, y);
    assert CircConv(x, h) == AddScaled(h[0], x, y);
    assert ToCx(h) == [a] + ToCx(h[1..]);
    hide CircConv, ToCx, Sum2, ScaleBy;
    EvalRotate(x, z);
    EvalSum(ScaleBy(a, ToCx(x)), ToCx(y), z);
    EvalScale(a, ToCx(x), z);
    EvalConcat([a], ToCx(h[1..]), z);
    EvalOne(a, z);
    PowTwo(z);
    CircConvStep(a, z, Eval(ToCx(h[1..]), z), Eval(ToCx(x), z));
  }

  lemma AddScaledIsSum(c: real, x: seq<real>, y: seq<real>)
    requires |x| == |y|
    ensures |ScaleBy(Real(c), ToCx(x))| == |ToCx(y)|
    ensures ToCx(AddScaled(c, x, y)) == Sum2(ScaleBy(Real(c), ToCx(x)), ToCx(y))
  {
    forall i | 0 <= i < |x|
      ensures ToCx(AddScaled(c, x, y))[i] == Sum2(ScaleBy(Real(c), ToCx(x)), ToCx(y))[i]
    {
      RealTerm(c, x[i], y[i]);
    }
  }

  lemma RealTerm(c: real, a: real, b: real)
    ensures Add(Mul(Real(c), Real(a)), Real(b)) == Real(c * a + b)
  {
  }

  lemma CircConvStep(a: Cx, z: Cx, t: Cx, x: Cx)
    ensures Add(Mul(a, x), Mul(t, Mul(z, x))) == Mul(Add(a, Mul(z, t)), x)
  {
    hide Mul;
    MulAdd(x, a, Mul(z, t));
    MulAssoc(t, z, x);
    MulComm(t, z);
  }

  /** Trailing zero taps do not matter. */
  lemma {:induction false} CircConvPadded(x: seq<real>, h: seq<real>, n: nat)
    ensures CircConv(x, h + Silence(n)) == CircConv(x, h)
    decreases |h| + n
  {
    if h == [] {
      assert h + Silence(n) == Silence(n);
      if n > 0 {
        assert Silence(n)[1..] == [] + Silence(n - 1);
        CircConvPadded(Rotate(x), [], n - 1);
      }
    } else {
      assert (h + Silence(n))[1..] == h[1..] + Silence(n);
      CircConvPadded(Rotate(x), h[1..], n);
    }
  }

  /** Where no tap reaches back past the start of the block, the circular convolution is the direct
      one. */
  lemma {:induction false} CircConvIsFir(x: seq<real>, h: seq<real>, i: nat)
    requires |h| - 1 <= i < |x|
    ensures CircConv(x, h)[i] == FirAt(h, x, i)
    decreases |h|
  {
    if h != [] {
      var t := h[1..];
      FirUnfold(h, x, i);
      CircConvUnfold(x, h, i);
      hide FirAt, CircConv;
      if t == [] {
        NoTaps(t, x, i);
        NoTaps(t, Rotate(x), i);
      } else {
        CircConvIsFir(Rotate(x), t, i);
        FirOfRotated(t, x, i);
      }
    }
  }

  lemma NoTaps(h: seq<real>, x: seq<real>, i: nat)
    requires h == [] && i < |x|
    ensures FirAt(h, x, i) == FirAt(h, x, i - 1) == 0.0 && CircConv(x, h)[i] == 0.0
  {
  }

  lemma FirUnfold(h: seq<real>, x: seq<real>, i: nat)
    requires h != [] && i < |x|
    ensures FirAt(h, x, i) == h[0] * x[i] + FirAt(h[1..], x, i - 1)
  {
  }

  lemma CircConvUnfold(x: seq<real>, h: seq<real>, i: nat)
    requires h != [] && i < |x|
    ensures CircConv(x, h)[i] == h[0] * x[i] + CircConv(Rotate(x), h[1..])[i]
  {
    hide *;
    var y := CircConv(Rotate(x), h[1..]);
    CircConvStepIs(x, h, y);
    AddScaledAt(h[0], x, y, i);
  }

  lemma CircConvStepIs(x: seq<real>, h: seq<real>, y: seq<real>)
    requires h != [] && y == CircConv(Rotate(x), h[1..])
    ensures CircConv(x, h) == AddScaled(h[0], x, y)
  {
    hide AddScaled, Rotate;
  }

  lemma AddScaledAt(c: real, x: seq<real>, y: seq<real>, i: nat)
    requires |x| == |y| && i < |x|
    ensures AddScaled(c, x, y)[i] == c * x[i] + y[i]
  {
  }

  lemma {:induction false} FirOfRotated(h: seq<real>, x: seq<real>, i: nat)
    requires |h| <= i < |x|
    ensures FirAt(h, Rotate(x), i) == FirAt(h, x, i - 1)
    decreases |h|
  {
    if h != [] {
      if h[1..] == [] {
        assert FirAt(h[1..], Rotate(x), i - 1) == 0.0 == FirAt(h[1..], x, i - 2);
      } else {
        FirOfRotated(h[1..], x, i - 1);
      }
    }
  }

  /** One output depends on the last |h| samples only. */
  lemma {:induction false} FirLocal(h: seq<real>, s: seq<real>, t: seq<real>, i: nat, shift: nat)
    requires |h| <= i + 1 && i < |t| && shift + i < |s|
    requires forall j | 0 <= j <= i :: t[j] == s[shift + j]
    ensures FirAt(h, t, i) == FirAt(h, s, shift + i)
    decreases |h|
  {
    if h != [] && h[1..] != [] {
      FirLocal(h[1..], s, t, i - 1, shift);
    } else if h != [] {
      assert FirAt(h[1..], t, i - 1) == 0.0 == FirAt(h[1..], s, shift + i - 1);
    }
  }
}
