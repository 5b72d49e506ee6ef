/** Inner products of sequences, taken over a prefix so that an accumulating loop computes them. */
module Vectors {
  import opened Arith

  function Dot(a: seq<real>, b: seq<real>, n: nat): real
    requires n <= |a| && n <= |b|
  {
    if n == 0 then 0.0 else Dot(a, b, n - 1) + a[n - 1] * b[n - 1]
  }

  function DotInt(a: seq<int>, b: seq<int>, n: nat): int
    requires n <= |a| && n <= |b|
  {
    if n == 0 then 0 else DotInt(a, b, n - 1) + a[n - 1] * b[n - 1]
  }

  /** The sum of the first n cells. */
  function Sum(w: seq<int>, n: nat): int
    requires n <= |w|
  {
    if n == 0 then 0 else Sum(w, n - 1) + w[n - 1]
  }

  /** The squared distance of two vectors. */
  ghost function Distance2(a: seq<real>, b: seq<real>, n: nat): (d: real)
    requires n <= |a| && n <= |b|
    ensures d >= 0.0
  {
    if n == 0 then 0.0 else Distance2(a, b, n - 1) + (a[n - 1] - b[n - 1]) * (a[n - 1] - b[n - 1])
  }

  /** a + mu*x*e, cell by cell. */
  function Moved(a: seq<real>, x: seq<real>, mu: real, e: real): (s: seq<real>)
    requires |a| == |x|
    ensures |s| == |a|
  {
    seq(|a|, i requires 0 <= i < |a| => a[i] + mu * x[i] * e)
  }

  /** How far the squared distance moves: p is a*x, q is t*x and r is x*x. */
  ghost function Change(mu: real, e: real, p: real, q: real, r: real): real {
    2.0 * (mu * e) * (p - q) + (mu * e) * (mu * e) * r
  }

  lemma ChangeAdds(mu: real, e: real, p: real, q: real, r: real, a: real, b: real, c: real)
    ensures Change(mu, e, p + a, q + b, r + c) == Change(mu, e, p, q, r) + Change(mu, e, a, b, c)
  {
  }

  lemma SquareStep(a: real, x: real, mu: real, e: real, t: real)
    ensures (a + mu * x * e - t) * (a + mu * x * e - t) == (a - t) * (a - t) + Change(mu, e, a * x, t * x, x * x)
  {
    var d, g := a - t, mu * e;
    assert mu * x * e == g * x;
    assert (d + g * x) * (d + g * x) == d * d + 2.0 * (d * (g * x)) + (g * x) * (g * x);
    assert d * (g * x) == g * (a * x - t * x);
    assert (g * x) * (g * x) == g * g * (x * x);
  }

  /** Moving a vector along x changes its squared distance to t by a quadratic in the step. */
  lemma {:induction false} DistanceMoved(a: seq<real>, x: seq<real>, mu: real, e: real, t: seq<real>, n: nat)
    requires n <= |a| == |x| == |t|
    ensures Distance2(Moved(a, x, mu, e), t, n)
         == Distance2(a, t, n) + Change(mu, e, Dot(a, x, n), Dot(t, x, n), Dot(x, x, n))
  {
    if n > 0 {
      DistanceMoved(a, x, mu, e, t, n - 1);
      MovedStep(a, x, mu, e, t, n);
      ChangeAdds(mu, e, Dot(a, x, n - 1), Dot(t, x, n - 1), Dot(x, x, n - 1),
                 a[n - 1] * x[n - 1], t[n - 1] * x[n - 1], x[n - 1] * x[n - 1]);
      hide Change, Moved;
    }
  }

  lemma MovedStep(a: seq<real>, x: seq<real>, mu: real, e: real, t: seq<real>, n: nat)
    requires 0 < n <= |a| == |x| == |t|
    ensures Distance2(Moved(a, x, mu, e), t, n)
         == Distance2(Moved(a, x, mu, e), t, n - 1) + (a[n - 1] - t[n - 1]) * (a[n - 1] - t[n - 1])
            + Change(mu, e, a[n - 1] * x[n - 1], t[n - 1] * x[n - 1], x[n - 1] * x[n - 1])
  {
    SquareStep(a[n - 1], x[n - 1], mu, e, t[n - 1]);
  }

  ghost predicate Within(s: real, a: real, b: real) {
    a >= 0.0 && b >= 0.0 && s * s <= a * b
  }

  /** The inner products of two vectors with a third differ by at most their distance times its length. */
  lemma {:induction false} DotsNear(a: seq<real>, b: seq<real>, w: seq<real>, n: nat)
    requires n <= |a| && n <= |b| && n <= |w|
    ensures Within(Dot(a, w, n) - Dot(b, w, n), Distance2(a, b, n), Dot(w, w, n))
  {
    hide *;
    if n == 0 {
      NoDots(a, b, w);
    } else {
      DotsNear(a, b, w, n - 1);
      OneMoreCell(a, b, w, n);
    }
  }

  lemma NoDots(a: seq<real>, b: seq<real>, w: seq<real>)
    ensures Within(Dot(a, w, 0) - Dot(b, w, 0), Distance2(a, b, 0), Dot(w, w, 0))
  {
  }

  lemma OneMoreCell(a: seq<real>, b: seq<real>, w: seq<real>, n: nat)
    requires 0 < n <= |a| && n <= |b| && n <= |w|
    requires Within(Dot(a, w, n - 1) - Dot(b, w, n - 1), Distance2(a, b, n - 1), Dot(w, w, n - 1))
    ensures Within(Dot(a, w, n) - Dot(b, w, n), Distance2(a, b, n), Dot(w, w, n))
  {
    hide Within;
    var u, v := a[n - 1] - b[n - 1], w[n - 1];
    OneTerm(Dot(a, w, n - 1), Dot(b, w, n - 1), a[n - 1], b[n - 1], v);
    NearStep(Dot(a, w, n - 1) - Dot(b, w, n - 1), Distance2(a, b, n - 1), Dot(w, w, n - 1), u, v,
             Dot(a, w, n) - Dot(b, w, n), Distance2(a, b, n), Dot(w, w, n));
  }

  lemma NearStep(s: real, a: real, b: real, u: real, v: real, s': real, a': real, b': real)
    requires Within(s, a, b) && s' == s + u * v && a' == a + u * u && b' == b + v * v
    ensures Within(s', a', b')
  {
    SchwarzStep(s, a, b, u, v);
  }

  lemma OneTerm(p: real, q: real, a: real, b: real, v: real)
    ensures (p + a * v) - (q + b * v) == (p - q) + (a - b) * v
  {
  }

  lemma SchwarzStep(s: real, a: real, b: real, u: real, v: real)
    requires a >= 0.0 && b >= 0.0 && s * s <= a * b
    ensures (s + u * v) * (s + u * v) <= (a + u * u) * (b + v * v)
  {
    MixedTerm(s, a, b, u, v);
    assert (s + u * v) * (s + u * v) == s * s + 2.0 * (s * (u * v)) + (u * u) * (v * v);
    assert (a + u * u) * (b + v * v) == a * b + (a * (v * v) + b * (u * u)) + (u * u) * (v * v);
  }

  lemma MixedTerm(s: real, a: real, b: real, u: real, v: real)
    requires a >= 0.0 && b >= 0.0 && s * s <= a * b
    ensures 2.0 * (s * (u * v)) <= a * (v * v) + b * (u * u)
  {
    var x := a * (v * v) + b * (u * u) - 2.0 * (s * (u * v));
    if a == 0.0 {
      if s != 0.0 {
        NonZeroSquare(s, s * s);
      }
      Times0(b, u * u);
    } else {
      CompletedSquare(s, a, b, u, v, x, a * v - s * u);
      Times0(a * b - s * s, u * u);
      if x < 0.0 {
        TimesLess(x, 0.0, a);
      }
    }
  }

  lemma NonZeroSquare(s: real, p: real)
    requires s != 0.0 && p == s * s
    ensures p > 0.0
  {
    if s > 0.0 {
      PositiveProduct(s, s, p);
    } else {
      PositiveProduct(-s, -s, p);
    }
  }

  lemma Times0(a: real, b: real)
    requires a >= 0.0 && b >= 0.0
    ensures a * b >= 0.0
  {
  }

  lemma CompletedSquare(s: real, a: real, b: real, u: real, v: real, x: real, t: real)
    requires x == a * (v * v) + b * (u * u) - 2.0 * (s * (u * v)) && t == a * v - s * u
    ensures x * a == t * t + (a * b - s * s) * (u * u) && t * t >= 0.0
  {
  }

  lemma {:induction false} NoDistance(a: seq<real>, n: nat)
    requires n <= |a|
    ensures Distance2(a, a, n) == 0.0
  {
    if n > 0 {
      NoDistance(a, n - 1);
    }
  }

  lemma {:induction false} DistancePrefix(a: seq<real>, b: seq<real>, c: seq<real>, d: seq<real>, n: nat)
    requires n <= |a| && n <= |b| && n <= |c| && n <= |d| && a[..n] == c[..n] && b[..n] == d[..n]
    ensures Distance2(a, b, n) == Distance2(c, d, n)
  {
    if n > 0 {
      assert a[n - 1] == a[..n][n - 1] == c[n - 1] && b[n - 1] == b[..n][n - 1] == d[n - 1];
      assert a[..n - 1] == a[..n][..n - 1] == c[..n - 1] && b[..n - 1] == b[..n][..n - 1] == d[..n - 1];
      DistancePrefix(a, b, c, d, n - 1);
    }
  }

  lemma {:induction false} DotPrefix(a: seq<real>, b: seq<real>, c: seq<real>, d: seq<real>, n: nat)
    requires n <= |a| && n <= |b| && n <= |c| && n <= |d| && a[..n] == c[..n] && b[..n] == d[..n]
    ensures Dot(a, b, n) == Dot(c, d, n)
  {
    if n > 0 {
      assert a[n - 1] == a[..n][n - 1] == c[n - 1] && b[n - 1] == b[..n][n - 1] == d[n - 1];
      assert a[..n - 1] == a[..n][..n - 1] == c[..n - 1] && b[..n - 1] == b[..n][..n - 1] == d[..n - 1];
      DotPrefix(a, b, c, d, n - 1);
    }
  }

  lemma DotSnoc(a: seq<real>, b: seq<real>, u: real, v: real)
    requires |a| == |b|
    ensures Dot(a + [u], b + [v], |a| + 1) == Dot(a, b, |a|) + u * v
  {
    DotPrefix(a + [u], b + [v], a, b, |a|);
  }

  lemma {:induction false} DotComm(a: seq<real>, b: seq<real>, n: nat)
    requires n <= |a| && n <= |b|
    ensures Dot(a, b, n) == Dot(b, a, n)
  {
    if n > 0 {
      DotComm(a, b, n - 1);
    }
  }

  lemma {:induction false} DistanceFromZero(z: seq<real>, t: seq<real>, n: nat)
    requires n <= |z| == |t| && forall i | 0 <= i < n :: z[i] == 0.0
    ensures Distance2(z, t, n) == Dot(t, t, n)
  {
    if n > 0 {
      DistanceFromZero(z, t, n - 1);
    }
  }
}
