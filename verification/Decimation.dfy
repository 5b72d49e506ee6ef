/** The weighted decimator: the weight loop, the exact condition under which its norm is the sum of the
    weights it leaves, and what every output is. */
module Decimation {
  import opened Kernel
  import opened Arith
  import opened DelayLine
  import opened Vectors

  const UNIFORM := 1
  const TRIANGULAR := 2
  const PARABOLIC := 3

  /** The window codes the block knows. */
  predicate Known(iw: int) {
    iw in {UNIFORM, TRIANGULAR, PARABOLIC}
  }

  // ------------------------------------------------------------------ the weights

  /** The weights so far and the running norm. */
  datatype Filled = Filled(w: seq<int>, norm: int)

  /** Value i of the parabola, in its two pieces. */
  function Parabola(nf: nat, i: nat): int {
    var nfd3 := nf / 3 + 1;
    if i <= nfd3 then i * (i + 1) / 2 else nfd3 * (nfd3 + 1) / 2 + (i - nfd3) * (2 * nfd3 - 1 - i)
  }

  /** Whether pass i of the loop writes: the parabola is written only in its first half. */
  predicate Writes(nf: nat, i: nat) {
    i <= nf / 3 + 1 || i <= nf / 2
  }

  /** The weights pass i of the loop leaves: the parabola is written at both ends. */
  function Written(iw: int, w: seq<int>, i: nat): (v: seq<int>)
    requires i < |w|
    ensures |v| == |w|
  {
    var nf := |w|;
    if iw == UNIFORM then w[i := 1]
    else if iw == PARABOLIC then (if Writes(nf, i) then w[i := Parabola(nf, i)][nf - i - 1 := Parabola(nf, i)] else w)
    else if iw == TRIANGULAR then w[i := if i <= nf / 2 - 1 then i else nf - i]
    else w
  }

  /** Pass i of the weight loop: its writes, and then weight i is summed. */
  function FillStep(iw: int, f: Filled, i: nat): (g: Filled)
    requires i < |f.w|
    ensures |g.w| == |f.w|
  {
    var w := Written(iw, f.w, i);
    Filled(w, f.norm + w[i])
  }

  function Fill(iw: int, nf: nat, n: nat): (f: Filled)
    requires n <= nf
    ensures |f.w| == nf
  {
    if n == 0 then Filled(seq(nf, _ => 0), 0) else FillStep(iw, Fill(iw, nf, n - 1), n - 1)
  }

  lemma {:induction false} SumSame(w: seq<int>, v: seq<int>, n: nat)
    requires n <= |w| && n <= |v| && forall j | 0 <= j < n :: w[j] == v[j]
    ensures Sum(w, n) == Sum(v, n)
  {
    if n > 0 {
      SumSame(w, v, n - 1);
    }
  }

  lemma {:induction false} SumChanged(w: seq<int>, v: seq<int>, n: nat, at: nat)
    requires at < n <= |w| && n <= |v| && forall j | 0 <= j < n && j != at :: w[j] == v[j]
    ensures Sum(v, n) == Sum(w, n) + v[at] - w[at]
  {
    if at == n - 1 {
      SumSame(w, v, n - 1);
    } else {
      SumChanged(w, v, n - 1, at);
    }
  }

  /** A pass that writes no weight already summed keeps the norm equal to the sum. */
  lemma ForwardStep(iw: int, f: Filled, i: nat)
    requires i < |f.w| && f.norm == Sum(f.w, i)
    requires iw == PARABOLIC && Writes(|f.w|, i) ==> |f.w| - i - 1 >= i
    ensures FillStep(iw, f, i).norm == Sum(FillStep(iw, f, i).w, i + 1)
  {
    hide Parabola;
    SumSame(f.w, FillStep(iw, f, i).w, i);
  }

  /** Everything but the parabola sums what it leaves. */
  lemma {:induction false} PlainWindows(iw: int, nf: nat, n: nat)
    requires iw != PARABOLIC && n <= nf
    ensures Fill(iw, nf, n).norm == Sum(Fill(iw, nf, n).w, n)
  {
    if n > 0 {
      PlainWindows(iw, nf, n - 1);
      ForwardStep(iw, Fill(iw, nf, n - 1), n - 1);
      hide Sum, FillStep;
    }
  }

  lemma {:induction false} ParabolaForward(nf: nat, n: nat)
    requires n <= nf && (n <= nf / 2 || (nf % 2 == 1 && nf >= 5 && n <= nf))
    ensures Fill(PARABOLIC, nf, n).norm == Sum(Fill(PARABOLIC, nf, n).w, n)
  {
    if n > 0 {
      ParabolaForward(nf, n - 1);
      Thirds(nf);
      hide Sum, FillStep;
      ForwardStep(PARABOLIC, Fill(PARABOLIC, nf, n - 1), n - 1);
    }
  }

  /** With at least four weights, and an even or large odd number of them, the first piece of the
      parabola ends no later than the middle. */
  lemma Thirds(nf: nat)
    ensures nf >= 4 || nf == 2 ==> nf / 3 + 1 <= nf / 2
    ensures 3 * (nf / 3 + 1) > nf
  {
  }

  lemma Triangle(i: nat)
    requires i > 0
    ensures i * (i + 1) / 2 == (i - 1) * i / 2 + i
  {
    assert i * (i + 1) == (i - 1) * i + 2 * i;
  }

  /** The parabola rises up to the middle. */
  lemma Rises(nf: nat, i: nat)
    requires 0 < i && 2 * i <= nf
    ensures Parabola(nf, i) > Parabola(nf, i - 1)
  {
    Thirds(nf);
    ParabolaSlope(nf, i);
    hide Parabola;
  }

  lemma SecondPiece(m: int, i: int)
    ensures (i - m) * (2 * m - 1 - i) - (i - 1 - m) * (2 * m - 1 - (i - 1)) == 3 * m - 2 * i
  {
  }

  // ------------------------------------------------------------------ the norm

  /** The pass in the middle of an even window rewrites a weight that is already summed. */
  lemma MiddlePass(nf: nat)
    requires nf >= 2 && nf % 2 == 0
    ensures var f := Fill(PARABOLIC, nf, nf / 2 + 1); f.norm < Sum(f.w, nf / 2 + 1)
  {
    var h := nf / 2;
    ParabolaForward(nf, h);
    var f, g := Fill(PARABOLIC, nf, h), Fill(PARABOLIC, nf, h + 1);
    assert f == FillStep(PARABOLIC, Fill(PARABOLIC, nf, h - 1), h - 1);
    assert f.w[h - 1] == Parabola(nf, h - 1);
    assert g == FillStep(PARABOLIC, f, h);
    assert g.w == f.w[h := Parabola(nf, h)][h - 1 := Parabola(nf, h)];
    Rises(nf, h);
    SumChanged(f.w, g.w, h, h - 1);
    hide Parabola;
  }

  lemma {:induction false} DefectKept(nf: nat, n: nat)
    requires nf >= 2 && nf % 2 == 0 && nf / 2 + 1 <= n <= nf
    ensures var f := Fill(PARABOLIC, nf, n); f.norm < Sum(f.w, n)
  {
    if n == nf / 2 + 1 {
      MiddlePass(nf);
    } else {
      DefectKept(nf, n - 1);
      Thirds(nf);
      hide Parabola;
      assert !Writes(nf, n - 1);
    }
  }

  lemma TinyWindows()
    ensures var f := Fill(PARABOLIC, 1, 1); f.norm == Sum(f.w, 1)
    ensures var f := Fill(PARABOLIC, 3, 3); f.norm < Sum(f.w, 3)
  {
    var zero := Filled([0, 0, 0], 0);
    assert Fill(PARABOLIC, 3, 0) == zero;
    assert Fill(PARABOLIC, 3, 1) == zero;
    assert Fill(PARABOLIC, 3, 2) == Filled([0, 1, 0], 1);
    assert Fill(PARABOLIC, 3, 3) == Filled([3, 1, 3], 4);
    assert Sum([3, 1, 3], 1) == 3;
    assert Sum([3, 1, 3], 2) == 4;
    assert Fill(PARABOLIC, 1, 0) == Filled([0], 0);
    assert Fill(PARABOLIC, 1, 1) == Filled([0], 0);
  }

  /** The norm is the sum of the weights the loop leaves, for the plain windows always and for the
      parabolic one exactly when the number of weights is odd and not three (or there are none). */
  lemma NormIsSumExactly(iw: int, nf: nat)
    ensures Fill(iw, nf, nf).norm == Sum(Fill(iw, nf, nf).w, nf)
       <==> iw != PARABOLIC || nf == 0 || (nf % 2 == 1 && nf != 3)
  {
    hide Fill, Sum;
    if iw != PARABOLIC {
      PlainWindows(iw, nf, nf);
    } else if nf == 0 {
      ParabolaForward(nf, 0);
    } else if nf % 2 == 0 {
      DefectKept(nf, nf);
    } else if nf <= 3 {
      TinyWindows();
    } else {
      ParabolaForward(nf, nf);
    }
  }

  /** Weights j and nf-1-j of an odd parabolic window. */
  lemma {:induction false} Symmetric(nf: nat, n: nat, j: nat)
    requires nf % 2 == 1 && nf >= 5 && j < n <= nf && j <= nf / 2
    ensures var w := Fill(PARABOLIC, nf, n).w; w[j] == w[nf - 1 - j] == Parabola(nf, j)
  {
    Thirds(nf);
    if j < n - 1 {
      Symmetric(nf, n - 1, j);
    }
    hide Parabola;
  }

  /** The odd parabolic window: symmetric, zero at the ends and strictly rising to the centre. */
  lemma ParabolicWindow(nf: nat, j: nat)
    requires nf % 2 == 1 && nf >= 5 && j <= nf / 2
    ensures var w := Fill(PARABOLIC, nf, nf).w;
            w[j] == w[nf - 1 - j] && w[0] == 0 && (j > 0 ==> w[j] > w[j - 1])
  {
    hide Fill;
    Symmetric(nf, nf, j);
    Symmetric(nf, nf, 0);
    if j > 0 {
      Symmetric(nf, nf, j - 1);
      Rises(nf, j);
    }
  }

  /** What the curve is made of: it starts 0, 1, bends up by one for every weight of the first third, and from
      there down by two; these differences determine it. */
  lemma ParabolaBends(nf: nat, i: nat)
    requires i > 0
    ensures Parabola(nf, 0) == 0 && Parabola(nf, 1) == 1
    ensures Parabola(nf, i + 1) - 2 * Parabola(nf, i) + Parabola(nf, i - 1) == if i < nf / 3 + 1 then 1 else -2
  {
    hide *;
    ParabolaStarts(nf);
    ParabolaSlope(nf, i);
    ParabolaSlope(nf, i + 1);
  }

  lemma ParabolaStarts(nf: nat)
    ensures Parabola(nf, 0) == 0 && Parabola(nf, 1) == 1
  {
  }

  lemma ParabolaSlope(nf: nat, i: nat)
    requires i > 0
    ensures Parabola(nf, i) - Parabola(nf, i - 1) == if i <= nf / 3 + 1 then i else 3 * (nf / 3 + 1) - 2 * i
  {
    var m := nf / 3 + 1;
    ParabolaIs(nf, i - 1);
    ParabolaIs(nf, i);
    hide Parabola;
    if i <= m {
      Triangle(i);
    } else {
      SecondPiece(m, i);
      if i - 1 == m {
        assert (i - 1 - m) * (2 * m - 1 - (i - 1)) == 0;
      }
    }
  }

  /** So the weights of an odd parabolic window bend in the same way up to the centre. */
  lemma ParabolicBends(nf: nat, j: nat)
    requires nf % 2 == 1 && nf >= 5 && 0 < j < nf / 2
    ensures var w := Fill(PARABOLIC, nf, nf).w;
            w[0] == 0 && w[1] == 1 && w[j + 1] - 2 * w[j] + w[j - 1] == if j < nf / 3 + 1 then 1 else -2
  {
    hide Fill, Parabola;
    Symmetric(nf, nf, 0);
    Symmetric(nf, nf, 1);
    Symmetric(nf, nf, j - 1);
    Symmetric(nf, nf, j);
    Symmetric(nf, nf, j + 1);
    ParabolaBends(nf, j);
  }

  /** Every pass of the two plain windows leaves its own weight for good. */
  lemma {:induction false} PlainWeights(nf: nat, n: nat, j: nat)
    requires j < n <= nf
    ensures Fill(UNIFORM, nf, n).w[j] == 1
    ensures Fill(TRIANGULAR, nf, n).w[j] == if j < nf / 2 then j else nf - j
  {
    if j < n - 1 {
      PlainWeights(nf, n - 1, j);
    }
  }

  /** The weights of the triangular window rise by one up to its middle and fall by one after it. */
  ghost predicate Tent(w: seq<int>) {
    forall j: nat :: Slope(w, j)
  }

  ghost predicate Slope(w: seq<int>, j: nat) {
    0 < j < |w| ==> w[j] - w[j - 1] == if 2 * j <= |w| then 1 else -1
  }

  /** The window called triangular is one exactly when its length is even (or it has at most one weight); an odd
      one jumps by two in the middle. */
  lemma TriangularExactly(nf: nat)
    ensures Tent(Fill(TRIANGULAR, nf, nf).w) <==> nf % 2 == 0 || nf <= 1
  {
    hide Fill;
    var w := Fill(TRIANGULAR, nf, nf).w;
    forall j: nat | 0 < j < nf
      ensures w[j] - w[j - 1] == (if j < nf / 2 then j else nf - j) - (if j - 1 < nf / 2 then j - 1 else nf - (j - 1))
    {
      PlainWeights(nf, nf, j);
      PlainWeights(nf, nf, j - 1);
    }
    if nf % 2 == 1 && nf > 1 {
      assert w[nf / 2] - w[nf / 2 - 1] == 2;
      assert !Slope(w, nf / 2);
    }
  }

  // ------------------------------------------------------------------ the filter

  /** Samples are stored as integers. */
  ghost function Stored(xs: seq<real>): (v: seq<int>)
    ensures |v| == |xs|
  {
    seq(|xs|, i requires 0 <= i < |xs| => Truncate(xs[i]))
  }

  lemma StoredSnoc(xs: seq<real>, x: real)
    ensures Stored(xs + [x]) == Stored(xs) + [Truncate(x)]
  {
  }

  /** The weighted mean of the last samples. */
  ghost function Mean(w: seq<int>, norm: int, xs: seq<real>): real
    requires norm != 0
  {
    DotInt(Line(Stored(xs), |w|, 0), w, |w|) as real / norm as real
  }

  /** One output for every idec samples. */
  ghost function Decimated(w: seq<int>, norm: int, idec: int, xs: seq<real>): seq<real>
    requires norm != 0
  {
    if xs == [] then []
    else Decimated(w, norm, idec, xs[..|xs| - 1]) + (if idec > 0 && |xs| % idec == 0 then [Mean(w, norm, xs)] else [])
  }

  lemma DecimatedSnoc(w: seq<int>, norm: int, idec: int, xs: seq<real>, x: real)
    requires norm != 0
    ensures Decimated(w, norm, idec, xs + [x])
         == Decimated(w, norm, idec, xs)
            + (if idec > 0 && (|xs| + 1) % idec == 0 then [Mean(w, norm, xs + [x])] else [])
  {
    hide Mean;
    assert (xs + [x])[..|xs|] == xs;
  }

  /** n samples make n/idec outputs; the count goes up just when n is a multiple. */
  lemma CountStep(n: nat, idec: nat)
    requires n > 0 && idec > 0
    ensures n / idec == (n - 1) / idec + (if n % idec == 0 then 1 else 0)
    ensures n % idec == 0 ==> idec * (n / idec) == n
  {
    var q, r := n / idec, n % idec;
    assert n == idec * q + r;
    if r > 0 {
      QuotientUnique(n - 1, idec, q, r - 1);
    } else {
      assert idec * q == idec * (q - 1) + idec;
      QuotientUnique(n - 1, idec, q - 1, idec - 1);
    }
  }

  /** Output j is the weighted mean of the samples up to number (j+1) idec. */
  lemma {:induction false} DecimatedAt(w: seq<int>, norm: int, idec: nat, xs: seq<real>, j: nat)
    requires norm != 0 && idec > 0
    ensures |Decimated(w, norm, idec, xs)| == |xs| / idec
    ensures j < |xs| / idec ==> idec * (j + 1) <= |xs|
                                && Decimated(w, norm, idec, xs)[j] == Mean(w, norm, xs[..idec * (j + 1)])
  {
    hide Mean;
    if xs == [] {
      QuotientUnique(0, idec, 0, 0);
    } else {
      var before := xs[..|xs| - 1];
      DecimatedAt(w, norm, idec, before, j);
      CountStep(|xs|, idec);
      if j < |before| / idec {
        assert before[..idec * (j + 1)] == xs[..idec * (j + 1)];
      } else if j < |xs| / idec {
        assert xs[..|xs|] == xs;
      }
    }
  }

  lemma {:induction false} InnerConstant(w: seq<int>, x: seq<int>, n: nat, c: int)
    requires n <= |w| && n <= |x| && forall j | 0 <= j < n :: x[j] == c
    ensures DotInt(x, w, n) == c * Sum(w, n)
  {
    if n > 0 {
      InnerConstant(w, x, n - 1, c);
      assert c * Sum(w, n) == c * Sum(w, n - 1) + c * w[n - 1];
    }
  }

  ghost predicate Settled(xs: seq<real>, n: nat, c: int) {
    n <= |xs| && forall k | |xs| - n <= k < |xs| :: xs[k] == c as real
  }

  lemma MeanOfConstant(w: seq<int>, norm: int, xs: seq<real>, c: int)
    requires norm != 0 && Settled(xs, |w|, c)
    ensures Mean(w, norm, xs) == (c * Sum(w, |w|)) as real / norm as real
  {
    var line := Line(Stored(xs), |w|, 0);
    forall j | 0 <= j < |w|
      ensures line[j] == c
    {
      assert xs[|xs| - 1 - j] == c as real;
    }
    InnerConstant(w, line, |w|, c);
  }

  lemma {:induction false} InnerImpulse(w: seq<int>, x: seq<int>, n: nat, j: nat, c: int)
    requires n <= |w| && n <= |x| && forall i | 0 <= i < n :: x[i] == if i == j then c else 0
    ensures DotInt(x, w, n) == if j < n then c * w[j] else 0
  {
    if n > 0 {
      InnerImpulse(w, x, n - 1, j, c);
    }
  }

  /** The samples are zero but for the one j places back, whose whole part is c. */
  ghost predicate Impulse(xs: seq<real>, j: nat, c: int) {
    j < |xs| && forall i | 0 <= i < |xs| :: HasWhole(xs[i], if i == |xs| - 1 - j then c else 0)
  }

  /** x is c and a fraction of the same sign. */
  ghost predicate HasWhole(x: real, c: int) {
    (c >= 0 && c as real <= x < c as real + 1.0) || (c <= 0 && c as real - 1.0 < x <= c as real)
  }

  lemma WholePart(x: real, c: int)
    requires HasWhole(x, c)
    ensures Truncate(x) == c
  {
  }

  /** Weight j is what a sample counts for j samples later, and of a sample only its whole part counts. */
  lemma ImpulseShowsWeight(w: seq<int>, norm: int, xs: seq<real>, j: nat, c: int)
    requires norm != 0 && j < |w| && Impulse(xs, j, c)
    ensures Mean(w, norm, xs) == (c * w[j]) as real / norm as real
  {
    hide HasWhole, Truncate, DotInt;
    var line := Line(Stored(xs), |w|, 0);
    forall i | 0 <= i < |w|
      ensures line[i] == if i == j then c else 0
    {
      if i < |xs| {
        WholePart(xs[|xs| - 1 - i], if i == j then c else 0);
      }
    }
    InnerImpulse(w, line, |w|, j, c);
  }

  /** Once the line is full of an integer constant the output is that constant, for every constant,
      exactly when the norm is the sum of the weights. */
  lemma UnityGainExactly(w: seq<int>, norm: int)
    requires norm != 0
    ensures (forall xs, c | Settled(xs, |w|, c) :: Mean(w, norm, xs) == c as real) <==> norm == Sum(w, |w|)
  {
    hide Mean, Sum, Settled;
    if norm == Sum(w, |w|) {
      forall xs, c | Settled(xs, |w|, c)
        ensures Mean(w, norm, xs) == c as real
      {
        MeanOfConstant(w, norm, xs, c);
        Ratio(c, norm);
      }
    } else {
      var xs := seq(|w|, _ => 1.0);
      SettledOnes(|w|);
      MeanOfConstant(w, norm, xs, 1);
      RatioNotOne(Sum(w, |w|), norm);
      assert Mean(w, norm, xs) != 1 as real;
    }
  }

  lemma SettledOnes(n: nat)
    ensures Settled(seq(n, _ => 1.0), n, 1)
  {
  }

  lemma Ratio(c: int, norm: int)
    requires norm != 0
    ensures (c * norm) as real / norm as real == c as real
  {
    assert (c * norm) as real == c as real * norm as real;
  }

  lemma RatioNotOne(s: int, norm: int)
    requires norm != 0 && s != norm
    ensures (1 * s) as real / norm as real != 1.0
  {
  }

  /** A line full of an integer constant is answered with that constant. */
  ghost predicate PassesConstants(f: Filled)
    requires f.norm != 0
  {
    forall xs, c | Settled(xs, |f.w|, c) :: Mean(f.w, f.norm, xs) == c as real
  }

  /** So a window as the block builds it passes constants unchanged exactly as its norm is right. */
  lemma WindowPassesConstantsExactly(iw: int, nf: nat)
    requires Fill(iw, nf, nf).norm != 0
    ensures PassesConstants(Fill(iw, nf, nf)) <==> iw != PARABOLIC || (nf % 2 == 1 && nf != 3)
  {
    hide Mean, Sum, Settled;
    var f := Fill(iw, nf, nf);
    UnityGainExactly(f.w, f.norm);
    NormIsSumExactly(iw, nf);
  }

  // ------------------------------------------------------------------ the block

  class Decimate {
    const idec: int
    const weights: array<int>
    const xP: array<int>
    var wnorm: int
    var k: nat

    ghost predicate Valid(seen: seq<real>)
      reads this, xP
    {
      && weights != xP && weights.Length == xP.Length && wnorm != 0
      && xP[..] == Line(Stored(seen), xP.Length, 0)
      && k == if idec > 0 then |seen| % idec else |seen|
    }

    constructor (nf: nat, step: int)
      ensures fresh(weights) && fresh(xP) && weights != xP && weights.Length == xP.Length == nf && idec == step
      ensures forall j | 0 <= j < nf :: weights[j] == 0 && xP[j] == 0
      ensures wnorm == 0 && k == 0
    {
      idec := step;
      weights := new int[nf](_ => 0);
      xP := new int[nf](_ => 0);
      wnorm, k := 0, 0;
    }

    /** The writes of one pass. */
    method WritePass(iw: int, i: nat)
      requires i < weights.Length && Known(iw)
      modifies weights
      ensures weights[..] == Written(iw, old(weights[..]), i)
    {
      var nf := weights.Length;
      var nfd2, nfd3 := nf / 2, nf / 3 + 1;
      ParabolaIs(nf, i);
      hide Parabola;
      if iw == UNIFORM {
        weights[i] := 1;
      } else if iw == PARABOLIC {
        if i <= nfd3 {
          weights[i] := i * (i + 1) / 2;
          weights[nf - i - 1] := weights[i];
        } else if i <= nfd2 {
          weights[i] := nfd3 * (nfd3 + 1) / 2 + (i - nfd3) * (2 * nfd3 - 1 - i);
          weights[nf - i - 1] := weights[i];
        }
      } else if i <= nfd2 - 1 {
        weights[i] := i;
      } else {
        weights[i] := nf - i;
      }
    }

    /** The weight loop; an unknown window is an error at its first pass. */
    method FillWeights(iw: int) returns (status: int)
      requires weights != xP && weights.Length == xP.Length && wnorm == 0
      requires forall j | 0 <= j < weights.Length :: weights[j] == 0
      modifies this`wnorm, weights, xP
      ensures status == if weights.Length > 0 && !Known(iw) then 2 else 0
      ensures status == 0 ==> Filled(weights[..], wnorm) == Fill(iw, weights.Length, weights.Length)
      ensures status == 0 ==> forall j | 0 <= j < xP.Length :: xP[j] == 0
    {
      hide Written;
      var nf := weights.Length;
      var i := 0;
      while i < nf
        invariant 0 <= i <= nf && (i > 0 ==> Known(iw))
        invariant Filled(weights[..], wnorm) == Fill(iw, nf, i)
        invariant forall j | 0 <= j < i :: xP[j] == 0
      {
        if !Known(iw) {
          return 2;
        }
        WritePass(iw, i);
        xP[i] := 0;
        wnorm := wnorm + weights[i];
        i := i + 1;
      }
      return 0;
    }

    method InnerProduct() returns (sum: int)
      requires weights.Length == xP.Length
      ensures sum == DotInt(xP[..], weights[..], weights.Length)
    {
      sum := 0;
      var i := 0;
      while i < weights.Length
        invariant 0 <= i <= weights.Length && sum == DotInt(xP[..], weights[..], i)
      {
        sum := sum + xP[i] * weights[i];
        i := i + 1;
      }
    }

    /** One sample. */
    method Process(x: real, out: OutBuffer<real>, ghost before: seq<real>) returns (full: bool)
      requires Valid(before)
      modifies this`k, xP, out
      ensures wnorm != 0 && (!full ==> Valid(before + [x]))
      ensures full ==> idec > 0 && (|before| + 1) % idec == 0
      ensures out.cells == old(out.cells)
           + (if !full && idec > 0 && (|before| + 1) % idec == 0 then [Mean(weights[..], wnorm, before + [x])] else [])
    {
      hide Line, DotInt, Truncate;
      StoredSnoc(before, x);
      ShiftIn(xP, Truncate(x), Stored(before), 0);
      var sum := InnerProduct();
      CounterStep(|before|, idec);
      k := k + 1;
      full := false;
      if k == idec {
        full := out.Put(sum as real / wnorm as real);
        if !full {
          k := 0;
        }
      }
    }

    /** One visit: one weighted mean of the last samples for every idec samples, in order; a refused cell
        (99) ends the run. */
    method MainCode(inp: InBuffer<real>, out: OutBuffer<real>) returns (status: int)
      requires Valid(inp.taken) && out.cells == Decimated(weights[..], wnorm, idec, inp.taken)
      modifies this`k, xP, inp, out
      ensures status == 0 || status == 99
      ensures wnorm != 0 && old(inp.taken) <= inp.taken && old(inp.taken + inp.pending) == inp.taken + inp.pending
      ensures status == 0 ==> inp.pending == [] && Valid(inp.taken)
                              && out.cells == Decimated(weights[..], wnorm, idec, inp.taken)
      ensures status == 99 ==> inp.taken != []
                               && out.cells == Decimated(weights[..], wnorm, idec, inp.taken[..|inp.taken| - 1])
    {
      hide *;
      ghost var w := weights[..];
      SafeLine(inp.taken);
      while inp.pending != []
        invariant Valid(inp.taken) && weights[..] == w && wnorm != 0 && weights != xP
        invariant out.cells == Decimated(w, wnorm, idec, inp.taken)
        invariant old(inp.taken) <= inp.taken && old(inp.taken + inp.pending) == inp.taken + inp.pending
        decreases |inp.pending|
      {
        ghost var before := inp.taken;
        var x := inp.Take();
        DecimatedSnoc(w, wnorm, idec, before, x);
        assert inp.taken[..|inp.taken| - 1] == before;
        var full := Process(x, out, before);
        if full {
          return 99;
        }
      }
      return 0;
    }

    lemma SafeLine(seen: seq<real>)
      requires Valid(seen)
      ensures weights != xP && wnorm != 0
    {
      hide Line;
    }
  }

  /** Sets up the block: the weights and the norm of the window, an empty delay line, no sample counted. */
  method UserInit(iw: int, nf: nat, idec: int) returns (status: int, block: Decimate)
    ensures status == if nf > 0 && !Known(iw) then 2 else 0
    ensures fresh(block) && fresh(block.weights) && fresh(block.xP)
    ensures status == 0 ==> block.weights.Length == nf && block.idec == idec
                            && Filled(block.weights[..], block.wnorm) == Fill(iw, nf, nf)
    ensures status == 0 && Fill(iw, nf, nf).norm != 0 ==> block.Valid([])
  {
    hide Fill;
    block := new Decimate(nf, idec);
    status := block.FillWeights(iw);
  }

  lemma ParabolaIs(nf: nat, i: nat)
    ensures var m := nf / 3 + 1;
            && (i <= m ==> Parabola(nf, i) == i * (i + 1) / 2)
            && (i > m ==> Parabola(nf, i) == m * (m + 1) / 2 + (i - m) * (2 * m - 1 - i))
  {
  }

  lemma CounterStep(n: nat, idec: int)
    ensures idec > 0 ==> n % idec < idec && (n + 1) % idec == if n % idec + 1 == idec then 0 else n % idec + 1
  {
    if idec > 0 {
      var q, r := n / idec, n % idec;
      assert n == idec * q + r;
      if r + 1 == idec {
        assert n + 1 == idec * (q + 1) + 0;
        RemainderUnique(n + 1, idec, q + 1, 0);
      } else {
        RemainderUnique(n + 1, idec, q, r + 1);
      }
    }
  }
}
