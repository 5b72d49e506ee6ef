/** Least-mean-squares adaptation: the exact change of the weight error in one step, and what it adds
    up to over a whole run. */
module Lms {
  import opened Arith
  import opened Kernel
  import opened DelayLine
  import opened Vectors

  /** One pair of input samples: the signal and the desired response. */
  datatype Pair = Pair(x: real, z: real)

  ghost function Signal(seen: seq<Pair>): (s: seq<real>)
    ensures |s| == |seen|
  {
    seq(|seen|, i requires 0 <= i < |seen| => seen[i].x)
  }

  /** The delay line that meets the last sample of seen. */
  ghost function Regressor(n: nat, seen: seq<Pair>): (x: seq<real>)
    ensures |x| == n
  {
    Line(Signal(seen), n, 0.0)
  }

  ghost function ErrorOf(w: seq<real>, x: seq<real>, z: real): real
    requires |w| == |x|
  {
    z - Dot(x, w, |x|)
  }

  /** One step of the weights: along the delay line x by mu times the error of the prediction. */
  ghost function Adapted(w: seq<real>, x: seq<real>, mu: real, z: real): (v: seq<real>)
    requires |w| == |x|
    ensures |v| == |w|
  {
    Moved(w, x, mu, ErrorOf(w, x, z))
  }

  /** The weights after a run, all zero before it. */
  ghost function Weights(n: nat, mu: real, seen: seq<Pair>): (w: seq<real>)
    ensures |w| == n
  {
    if seen == [] then seq(n, _ => 0.0)
    else Adapted(Weights(n, mu, seen[..|seen| - 1]), Regressor(n, seen), mu, seen[|seen| - 1].z)
  }

  /** The error at the last sample of seen, made with the weights before it. */
  ghost function Error(n: nat, mu: real, seen: seq<Pair>): real
    requires seen != []
  {
    ErrorOf(Weights(n, mu, seen[..|seen| - 1]), Regressor(n, seen), seen[|seen| - 1].z)
  }

  /** What the desired response holds beyond the response of the filter t. */
  ghost function Disturbance(t: seq<real>, seen: seq<Pair>): real
    requires seen != []
  {
    seen[|seen| - 1].z - Dot(t, Regressor(|t|, seen), |t|)
  }

  ghost function Power(n: nat, seen: seq<Pair>): real {
    Dot(Regressor(n, seen), Regressor(n, seen), n)
  }

  /** mu e^2 (2 - mu |x|^2): what one step takes off the squared weight error. */
  ghost function Gain(mu: real, e: real, power: real): real {
    mu * (e * e) * (2.0 - mu * power)
  }

  /** mu (2 - mu |x|^2): the sign that decides whether a step helps. */
  ghost function Rate(mu: real, power: real): real {
    mu * (2.0 - mu * power)
  }

  ghost function WeightError(mu: real, seen: seq<Pair>, t: seq<real>): (d: real)
    ensures d >= 0.0
  {
    Distance2(Weights(|t|, mu, seen), t, |t|)
  }

  lemma GainIs(mu: real, e: real, v: real, p: real, q: real, r: real)
    requires q - p == e - v
    ensures Change(mu, e, p, q, r) == 2.0 * mu * (e * v) - Gain(mu, e, r)
  {
    assert p - q == v - e;
    assert 2.0 * (mu * e) * (v - e) == 2.0 * mu * (e * v) - 2.0 * mu * (e * e);
    assert (mu * e) * (mu * e) * r == mu * (e * e) * (mu * r);
  }

  lemma WeightsStep(n: nat, mu: real, seen: seq<Pair>)
    requires seen != []
    ensures Weights(n, mu, seen)
         == Adapted(Weights(n, mu, seen[..|seen| - 1]), Regressor(n, seen), mu, seen[|seen| - 1].z)
  {
    hide Adapted, Regressor;
  }

  lemma AdaptedIs(w: seq<real>, x: seq<real>, mu: real, z: real, e: real)
    requires |w| == |x| && e == ErrorOf(w, x, z)
    ensures Adapted(w, x, mu, z) == Moved(w, x, mu, e)
  {
  }

  lemma ErrorIs(n: nat, mu: real, seen: seq<Pair>)
    requires seen != []
    ensures Error(n, mu, seen)
         == ErrorOf(Weights(n, mu, seen[..|seen| - 1]), Regressor(n, seen), seen[|seen| - 1].z)
  {
    hide Weights, Regressor, ErrorOf;
  }

  lemma DisturbanceIs(w: seq<real>, t: seq<real>, seen: seq<Pair>)
    requires seen != [] && |w| == |t|
    ensures var x := Regressor(|t|, seen);
            Dot(t, x, |t|) - Dot(x, w, |t|) == ErrorOf(w, x, seen[|seen| - 1].z) - Disturbance(t, seen)
  {
    hide Dot, Regressor;
  }

  lemma Sizes(n: nat, mu: real, seen: seq<Pair>)
    ensures |Weights(n, mu, seen)| == |Regressor(n, seen)| == n
  {
  }

  lemma WeightErrorIs(mu: real, seen: seq<Pair>, t: seq<real>)
    ensures WeightError(mu, seen, t) == Distance2(Weights(|t|, mu, seen), t, |t|)
  {
    hide Weights, Distance2;
  }

  lemma PowerIs(n: nat, seen: seq<Pair>)
    ensures Power(n, seen) == Dot(Regressor(n, seen), Regressor(n, seen), n)
  {
    hide Regressor, Dot;
  }

  /** One step, for every state, every target t and every disturbance of the desired response. */
  lemma StepContracts(mu: real, seen: seq<Pair>, t: seq<real>)
    requires seen != []
    ensures WeightError(mu, seen, t)
         == WeightError(mu, seen[..|seen| - 1], t) - Gain(mu, Error(|t|, mu, seen), Power(|t|, seen))
            + 2.0 * mu * (Error(|t|, mu, seen) * Disturbance(t, seen))
  {
    hide *;
    var n := |t|;
    Sizes(n, mu, seen[..|seen| - 1]);
    Sizes(n, mu, seen);
    var w, x, z := Weights(n, mu, seen[..|seen| - 1]), Regressor(n, seen), seen[|seen| - 1].z;
    var e := ErrorOf(w, x, z);
    ErrorIs(n, mu, seen);
    WeightsStep(n, mu, seen);
    AdaptedIs(w, x, mu, z, e);
    WeightErrorIs(mu, seen, t);
    WeightErrorIs(mu, seen[..|seen| - 1], t);
    DisturbanceIs(w, t, seen);
    PowerIs(n, seen);
    DistanceMoved(w, x, mu, e, t, n);
    DotComm(w, x, n);
    GainIs(mu, e, Disturbance(t, seen), Dot(w, x, n), Dot(t, x, n), Dot(x, x, n));
  }

  /** Without a disturbance the weight error grows exactly when there is an error to learn from and
      the step size is negative or too large for the power in the delay line. */
  lemma NeverGrowsExactly(mu: real, seen: seq<Pair>, t: seq<real>)
    requires seen != [] && Disturbance(t, seen) == 0.0
    ensures WeightError(mu, seen, t) <= WeightError(mu, seen[..|seen| - 1], t)
       <==> Error(|t|, mu, seen) == 0.0 || Rate(mu, Power(|t|, seen)) >= 0.0
  {
    hide *;
    StepContracts(mu, seen, t);
    GainSign(mu, Error(|t|, mu, seen), Power(|t|, seen));
  }

  lemma GainSign(mu: real, e: real, power: real)
    ensures Gain(mu, e, power) >= 0.0 <==> e == 0.0 || Rate(mu, power) >= 0.0
  {
    var rate := mu * (2.0 - mu * power);
    assert Gain(mu, e, power) == (e * e) * rate;
    ProductSign(e, rate);
  }

  lemma ProductSign(e: real, r: real)
    ensures (e * e) * r >= 0.0 <==> e == 0.0 || r >= 0.0
  {
    if e != 0.0 {
      if r >= 0.0 {
        assert e * (e * r) >= 0.0;
      } else if e > 0.0 {
        NegativeProduct(e, r);
        NegativeProduct(e, e * r);
      } else {
        NegativeProduct(-e, r);
        NegativeProduct(-e, -(e * r));
      }
    }
  }

  lemma NegativeProduct(a: real, b: real)
    requires a > 0.0 && b < 0.0
    ensures a * b < 0.0
  {
  }

  // ------------------------------------------------------------------ whole runs

  ghost function Spent(n: nat, mu: real, seen: seq<Pair>): real {
    if seen == [] then 0.0
    else Spent(n, mu, seen[..|seen| - 1]) + Gain(mu, Error(n, mu, seen), Power(n, seen))
  }

  ghost function Disturbed(mu: real, seen: seq<Pair>, t: seq<real>): real {
    if seen == [] then 0.0
    else Disturbed(mu, seen[..|seen| - 1], t) + 2.0 * mu * (Error(|t|, mu, seen) * Disturbance(t, seen))
  }

  /** The balance of a run, for every input, step size and target. */
  lemma {:induction false} RunBalance(mu: real, seen: seq<Pair>, t: seq<real>)
    ensures WeightError(mu, seen, t) == Dot(t, t, |t|) - Spent(|t|, mu, seen) + Disturbed(mu, seen, t)
  {
    hide Gain, Error, Power, Disturbance, WeightError;
    if seen == [] {
      AtRest(mu, seen, t);
    } else {
      RunBalance(mu, seen[..|seen| - 1], t);
      StepContracts(mu, seen, t);
    }
  }

  lemma AtRest(mu: real, seen: seq<Pair>, t: seq<real>)
    requires seen == []
    ensures WeightError(mu, seen, t) == Dot(t, t, |t|)
  {
    DistanceFromZero(Weights(|t|, mu, seen), t, |t|);
  }

  /** The desired response is the response of t at every sample. */
  ghost predicate Generated(seen: seq<Pair>, t: seq<real>) {
    forall j | 0 < j <= |seen| :: Disturbance(t, seen[..j]) == 0.0
  }

  /** 0 <= mu |x|^2 <= 2 at every sample. */
  ghost predicate SmallSteps(n: nat, mu: real, seen: seq<Pair>) {
    mu >= 0.0 && forall j | 0 < j <= |seen| :: mu * Power(n, seen[..j]) <= 2.0
  }

  lemma PrefixFacts(n: nat, mu: real, seen: seq<Pair>, t: seq<real>)
    requires seen != []
    ensures Generated(seen, t) ==> Generated(seen[..|seen| - 1], t) && Disturbance(t, seen) == 0.0
    ensures SmallSteps(n, mu, seen) ==> mu >= 0.0 && SmallSteps(n, mu, seen[..|seen| - 1]) && mu * Power(n, seen) <= 2.0
  {
    hide Disturbance, Power;
    var before := seen[..|seen| - 1];
    assert seen[..|seen|] == seen;
    forall j | 0 < j <= |before|
      ensures before[..j] == seen[..j]
    {
    }
  }

  lemma {:induction false} NothingDisturbed(mu: real, seen: seq<Pair>, t: seq<real>)
    requires Generated(seen, t)
    ensures Disturbed(mu, seen, t) == 0.0
  {
    hide Generated, Error, Disturbance;
    if seen != [] {
      PrefixFacts(|t|, mu, seen, t);
      NothingDisturbed(mu, seen[..|seen| - 1], t);
    }
  }

  lemma {:induction false} SpentNonNegative(n: nat, mu: real, seen: seq<Pair>)
    requires SmallSteps(n, mu, seen)
    ensures Spent(n, mu, seen) >= 0.0
  {
    hide Error, Power, Gain;
    if seen != [] {
      PrefixFacts(n, mu, seen, []);
      SpentNonNegative(n, mu, seen[..|seen| - 1]);
      SmallGain(mu, Error(n, mu, seen), Power(n, seen));
    }
  }

  lemma SmallGain(mu: real, e: real, power: real)
    requires mu >= 0.0 && mu * power <= 2.0
    ensures Gain(mu, e, power) >= 0.0
  {
    hide Gain;
    GainSign(mu, e, power);
    assert Rate(mu, power) >= 0.0;
  }

  /** Under small steps the weight error never grows and all that is taken off it over the run is at
      most the squared size of the target. */
  lemma RunContracts(mu: real, seen: seq<Pair>, t: seq<real>)
    requires Generated(seen, t) && SmallSteps(|t|, mu, seen)
    ensures WeightError(mu, seen, t) + Spent(|t|, mu, seen) == Dot(t, t, |t|)
    ensures 0.0 <= Spent(|t|, mu, seen) <= Dot(t, t, |t|) && WeightError(mu, seen, t) <= Dot(t, t, |t|)
    ensures seen != [] ==> WeightError(mu, seen, t) <= WeightError(mu, seen[..|seen| - 1], t)
  {
    hide Generated, SmallSteps, Error, Power, Gain, Disturbance, Disturbed, Spent, Dot, WeightError, Weights, Distance2;
    RunBalance(mu, seen, t);
    NothingDisturbed(mu, seen, t);
    SpentNonNegative(|t|, mu, seen);
    DistanceFacts(mu, seen, t);
    if seen != [] {
      PrefixFacts(|t|, mu, seen, t);
      StepContracts(mu, seen, t);
      SmallGain(mu, Error(|t|, mu, seen), Power(|t|, seen));
    }
  }

  lemma DistanceFacts(mu: real, seen: seq<Pair>, t: seq<real>)
    ensures WeightError(mu, seen, t) >= 0.0
  {
  }

  /** How many errors of the run have a square of at least d. */
  ghost function LargeErrors(n: nat, mu: real, seen: seq<Pair>, d: real): (c: nat) {
    if seen == [] then 0
    else LargeErrors(n, mu, seen[..|seen| - 1], d) + (if Error(n, mu, seen) * Error(n, mu, seen) >= d then 1 else 0)
  }

  /** Large errors are few, however long the run: each one costs at least mu (2 - mu p) d of a budget
      that never exceeds the squared size of the target. */
  lemma FewLargeErrors(mu: real, seen: seq<Pair>, t: seq<real>, d: real, p: real)
    requires Generated(seen, t) && mu > 0.0 && mu * p <= 2.0 && d >= 0.0
    requires forall j | 0 < j <= |seen| :: Power(|t|, seen[..j]) <= p
    ensures LargeErrors(|t|, mu, seen, d) as real * (mu * (2.0 - mu * p) * d) <= Dot(t, t, |t|)
  {
    hide *;
    BoundedPower(|t|, mu, seen, p);
    RunContracts(mu, seen, t);
    LargeErrorsCost(|t|, mu, seen, d, p, mu * (2.0 - mu * p) * d);
    TotalIs(LargeErrors(|t|, mu, seen, d), mu * (2.0 - mu * p) * d);
  }

  lemma BoundedPower(n: nat, mu: real, seen: seq<Pair>, p: real)
    requires mu > 0.0 && mu * p <= 2.0
    requires forall j | 0 < j <= |seen| :: Power(n, seen[..j]) <= p
    ensures SmallSteps(n, mu, seen)
  {
    hide Power;
    forall j | 0 < j <= |seen|
      ensures mu * Power(n, seen[..j]) <= 2.0
    {
      TimesLessEq(Power(n, seen[..j]), p, mu);
    }
  }

  lemma {:induction false} LargeErrorsCost(n: nat, mu: real, seen: seq<Pair>, d: real, p: real, cost: real)
    requires mu > 0.0 && mu * p <= 2.0 && d >= 0.0 && cost == mu * (2.0 - mu * p) * d
    requires forall j | 0 < j <= |seen| :: Power(n, seen[..j]) <= p
    ensures Total(LargeErrors(n, mu, seen, d), cost) <= Spent(n, mu, seen)
  {
    hide Error, Power, Gain, Total;
    if seen != [] {
      var before := seen[..|seen| - 1];
      assert seen[..|seen|] == seen;
      assert forall j | 0 < j <= |before| :: before[..j] == seen[..j];
      LargeErrorsCost(n, mu, before, d, p, cost);
      CostOfOne(mu, Error(n, mu, seen), Power(n, seen), d, p);
      OneMore(LargeErrors(n, mu, before, d), cost);
    } else {
      OneMore(0, cost);
    }
  }

  /** The cost of c errors. */
  ghost function Total(c: nat, cost: real): real {
    c as real * cost
  }

  lemma TotalIs(c: nat, cost: real)
    ensures Total(c, cost) == c as real * cost
  {
  }

  lemma OneMore(c: nat, cost: real)
    ensures Total(c + 1, cost) == Total(c, cost) + cost && Total(0, cost) == 0.0
  {
  }

  lemma CostOfOne(mu: real, e: real, power: real, d: real, p: real)
    requires mu > 0.0 && power <= p && mu * p <= 2.0 && d >= 0.0
    ensures Gain(mu, e, power) >= 0.0
    ensures e * e >= d ==> Gain(mu, e, power) >= mu * (2.0 - mu * p) * d
  {
    var low, rate, s := 2.0 - mu * p, 2.0 - mu * power, e * e;
    TimesLessEq(power, p, mu);
    assert 0.0 <= low <= rate && s >= 0.0;
    TimesLessEq(low, rate, s);
    TimesLessEq(0.0, s, low);
    TimesLessEq(0.0, s * rate, mu);
    assert Gain(mu, e, power) == mu * (s * rate);
    if s >= d {
      TimesLessEq(d, s, low);
      TimesLessEq(low * d, s * rate, mu);
      assert mu * low * d == mu * (low * d);
    }
  }

  // ------------------------------------------------------------------ the range of step sizes

  ghost predicate Limited(seen: seq<Pair>, b: real) {
    forall i | 0 <= i < |seen| :: -b <= seen[i].x <= b
  }

  /** No step of any run of limited samples, for any target of n weights, makes the weight error grow. */
  ghost predicate NeverGrows(n: nat, mu: real, b: real) {
    forall seen, t | |t| == n && seen != [] && Limited(seen, b) && Generated(seen, t) ::
      WeightError(mu, seen, t) <= WeightError(mu, seen[..|seen| - 1], t)
  }

  /** The largest power n samples of size b can have. */
  function FullPower(n: nat, b: real): real {
    n as real * (b * b)
  }

  lemma {:induction false} DotLimited(x: seq<real>, n: nat, b: real)
    requires n <= |x| && b >= 0.0 && forall i | 0 <= i < n :: -b <= x[i] <= b
    ensures Dot(x, x, n) <= FullPower(n, b)
  {
    if n > 0 {
      DotLimited(x, n - 1, b);
      SquareLimited(x[n - 1], b);
      assert n as real * (b * b) == (n - 1) as real * (b * b) + b * b;
    }
  }

  lemma SquareLimited(v: real, b: real)
    requires -b <= v <= b
    ensures v * v <= b * b
  {
    var a := if v >= 0.0 then v else -v;
    assert v * v == a * a;
    TimesLessEq(a, b, a);
    TimesLessEq(a, b, b);
  }

  lemma {:induction false} DotConstant(x: seq<real>, n: nat, b: real)
    requires n <= |x| && forall i | 0 <= i < n :: x[i] == b
    ensures Dot(x, x, n) == FullPower(n, b)
  {
    if n > 0 {
      DotConstant(x, n - 1, b);
      assert n as real * (b * b) == (n - 1) as real * (b * b) + b * b;
    }
  }

  lemma {:induction false} DotZeros(x: seq<real>, w: seq<real>, n: nat)
    requires n <= |x| && n <= |w| && forall i | 0 <= i < n :: w[i] == 0.0
    ensures Dot(x, w, n) == 0.0 == Dot(w, x, n)
  {
    if n > 0 {
      DotZeros(x, w, n - 1);
    }
  }

  /** The target that looks only at the oldest cell of the delay line. */
  ghost function LastCellOnly(n: nat): (t: seq<real>)
    requires n > 0
    ensures |t| == n
  {
    seq(n, i requires 0 <= i < n => if i == n - 1 then 1.0 else 0.0)
  }

  /** n samples of size b, and the responses of that target: silent until the line is full. */
  ghost function Fill(n: nat, b: real): (seen: seq<Pair>)
    requires n > 0
    ensures |seen| == n
  {
    seq(n, i requires 0 <= i < n => Pair(b, if i == n - 1 then b else 0.0))
  }

  lemma FillLine(n: nat, b: real, j: nat)
    requires 0 < j <= n
    ensures Regressor(n, Fill(n, b)[..j])[n - 1] == (if j == n then b else 0.0)
    ensures j == n ==> forall i | 0 <= i < n :: Regressor(n, Fill(n, b)[..j])[i] == b
  {
    var s := Fill(n, b)[..j];
    forall i | 0 <= i < n
      ensures Regressor(n, s)[i] == if i < j then b else 0.0
    {
      assert Regressor(n, s)[i] == Tap(Signal(s), i, 0.0);
    }
  }

  lemma FillGenerated(n: nat, b: real)
    requires n > 0
    ensures Generated(Fill(n, b), LastCellOnly(n))
  {
    var t, seen := LastCellOnly(n), Fill(n, b);
    forall j | 0 < j <= |seen|
      ensures Disturbance(t, seen[..j]) == 0.0
    {
      FillLine(n, b, j);
      DotZeros(Regressor(n, seen[..j]), t, n - 1);
      hide Regressor;
    }
  }

  /** Until the line is full there is no error, so the weights stay at rest. */
  lemma {:induction false} FillAtRest(n: nat, mu: real, b: real, k: nat)
    requires k < n
    ensures forall i | 0 <= i < n :: Weights(n, mu, Fill(n, b)[..k])[i] == 0.0
  {
    hide Regressor, Dot, Line;
    var s := Fill(n, b)[..k];
    if k > 0 {
      assert s[..k - 1] == Fill(n, b)[..k - 1];
      FillAtRest(n, mu, b, k - 1);
      var w, x := Weights(n, mu, s[..k - 1]), Regressor(n, s);
      Sizes(n, mu, s);
      Sizes(n, mu, s[..k - 1]);
      DotZeros(x, w, n);
      WeightsStep(n, mu, s);
      StaysPut(w, x, mu, s[k - 1].z);
    }
  }

  lemma StaysPut(w: seq<real>, x: seq<real>, mu: real, z: real)
    requires |w| == |x| && z == 0.0 && Dot(x, w, |x|) == 0.0
    ensures Adapted(w, x, mu, z) == w
  {
    hide Dot;
    assert forall i | 0 <= i < |w| :: mu * x[i] * 0.0 == 0.0;
  }

  lemma FillFacts(n: nat, mu: real, b: real)
    requires n > 0 && b > 0.0
    ensures var seen := Fill(n, b);
            Error(n, mu, seen) == b && Power(n, seen) == FullPower(n, b) && Limited(seen, b)
  {
    var seen := Fill(n, b);
    assert seen[..n] == seen;
    FillLine(n, b, n);
    FillAtRest(n, mu, b, n - 1);
    hide Regressor, FullPower, Weights;
    DotConstant(Regressor(n, seen), n, b);
    DotZeros(Regressor(n, seen), Weights(n, mu, seen[..n - 1]), n);
  }

  lemma RateSign(mu: real, p: real)
    requires p > 0.0
    ensures Rate(mu, p) >= 0.0 <==> mu >= 0.0 && mu * p <= 2.0
  {
    var r := 2.0 - mu * p;
    if mu < 0.0 {
      NegativeProduct(p, mu);
      NegativeProduct(r, mu);
    } else if mu > 0.0 && r < 0.0 {
      NegativeProduct(mu, r);
    }
  }

  lemma PowerPositive(n: nat, b: real)
    requires n > 0 && b > 0.0
    ensures FullPower(n, b) > 0.0
  {
    var m := n as real * b;
    NegativeProduct(n as real, -b);
    assert m > 0.0;
    NegativeProduct(m, -b);
    assert FullPower(n, b) == m * b;
  }

  lemma PowerLimited(n: nat, seen: seq<Pair>, b: real)
    requires b > 0.0 && Limited(seen, b)
    ensures Power(n, seen) <= FullPower(n, b)
  {
    hide Dot, FullPower;
    var x := Regressor(n, seen);
    forall i | 0 <= i < n
      ensures -b <= x[i] <= b
    {
      assert x[i] == Tap(Signal(seen), i, 0.0);
    }
    DotLimited(x, n, b);
  }

  /** The step sizes under which nothing ever grows, for inputs of at most size b: exactly those from zero to
      two over the power of a full line. */
  lemma SafeStepExactly(n: nat, mu: real, b: real)
    requires n > 0 && b > 0.0
    ensures NeverGrows(n, mu, b) <==> mu >= 0.0 && mu * FullPower(n, b) <= 2.0
  {
    hide Generated, Limited, WeightError, FullPower, Fill, LastCellOnly, Rate;
    PowerPositive(n, b);
    RateSign(mu, FullPower(n, b));
    if mu >= 0.0 && mu * FullPower(n, b) <= 2.0 {
      forall seen, t | |t| == n && seen != [] && Limited(seen, b) && Generated(seen, t)
        ensures WeightError(mu, seen, t) <= WeightError(mu, seen[..|seen| - 1], t)
      {
        SafeStep(n, mu, b, seen, t);
      }
    } else {
      UnsafeStep(n, mu, b);
    }
  }

  lemma SafeStep(n: nat, mu: real, b: real, seen: seq<Pair>, t: seq<real>)
    requires n > 0 && b > 0.0 && mu >= 0.0 && mu * FullPower(n, b) <= 2.0
    requires |t| == n && seen != [] && Limited(seen, b) && Generated(seen, t)
    ensures WeightError(mu, seen, t) <= WeightError(mu, seen[..|seen| - 1], t)
  {
    hide *;
    PrefixFacts(n, mu, seen, t);
    PowerLimited(n, seen, b);
    TimesLessEq(Power(n, seen), FullPower(n, b), mu);
    SmallGain(mu, Error(n, mu, seen), Power(n, seen));
    StepContracts(mu, seen, t);
  }

  /** Outside the range, filling the line at full size with a target that looks at its last cell does it. */
  lemma UnsafeStep(n: nat, mu: real, b: real)
    requires n > 0 && b > 0.0 && Rate(mu, FullPower(n, b)) < 0.0
    ensures !NeverGrows(n, mu, b)
  {
    hide Generated, Limited, WeightError, FullPower, Fill, LastCellOnly, Error, Power, Gain, Disturbance, Rate;
    var seen, t := Fill(n, b), LastCellOnly(n);
    FillSizes(n, b);
    FillGenerated(n, b);
    FillFacts(n, mu, b);
    PrefixFacts(n, mu, seen, t);
    StepContracts(mu, seen, t);
    GainSign(mu, b, FullPower(n, b));
    assert Gain(mu, Error(n, mu, seen), Power(n, seen)) < 0.0;
    assert WeightError(mu, seen, t) > WeightError(mu, seen[..|seen| - 1], t);
  }

  lemma FillSizes(n: nat, b: real)
    requires n > 0
    ensures |Fill(n, b)| == |LastCellOnly(n)| == n
  {
  }

  // ------------------------------------------------------------------ the block

  /** What the block answers to the last sample of seen: the error, or the prediction. */
  ghost function Answer(n: nat, mu: real, wantError: bool, seen: seq<Pair>): real
    requires seen != []
  {
    if wantError then Error(n, mu, seen) else seen[|seen| - 1].z - Error(n, mu, seen)
  }

  ghost function Answers(n: nat, mu: real, wantError: bool, seen: seq<Pair>): (y: seq<real>)
    ensures |y| == |seen|
  {
    if seen == [] then []
    else Answers(n, mu, wantError, seen[..|seen| - 1]) + [Answer(n, mu, wantError, seen)]
  }

  lemma AnswersSnoc(n: nat, mu: real, wantError: bool, seen: seq<Pair>, v: Pair)
    ensures Answers(n, mu, wantError, seen + [v])
         == Answers(n, mu, wantError, seen) + [Answer(n, mu, wantError, seen + [v])]
  {
    hide Answer;
    assert (seen + [v])[..|seen|] == seen;
  }

  lemma AnswersLength(n: nat, mu: real, wantError: bool, seen: seq<Pair>)
    ensures |Answers(n, mu, wantError, seen)| == |seen|
  {
  }

  lemma AnswerIs(n: nat, mu: real, seen: seq<Pair>, v: Pair)
    ensures var p := Dot(Regressor(n, seen + [v]), Weights(n, mu, seen), n);
            Answer(n, mu, false, seen + [v]) == p && Answer(n, mu, true, seen + [v]) == v.z - p
  {
    hide Dot, Weights, Regressor;
    assert (seen + [v])[..|seen|] == seen;
  }

  lemma SameRegressor(n: nat, seen: seq<Pair>, v: Pair, w: Pair)
    requires v.x == w.x
    ensures Regressor(n, seen + [v]) == Regressor(n, seen + [w])
  {
    SignalSnoc(seen, v);
    SignalSnoc(seen, w);
  }

  /** The prediction is the response of the weights learnt so far to the signal, whatever response is desired
      of this sample; the error is what that response holds beyond it. */
  lemma PredictsFromSignal(n: nat, mu: real, seen: seq<Pair>, x: real, z: real, z': real)
    ensures var y := Answer(n, mu, false, seen + [Pair(x, z)]);
            && y == Dot(Regressor(n, seen + [Pair(x, z)]), Weights(n, mu, seen), n)
            && Answer(n, mu, false, seen + [Pair(x, z')]) == y
            && Answer(n, mu, true, seen + [Pair(x, z')]) == z' - y
  {
    hide *;
    AnswerIs(n, mu, seen, Pair(x, z));
    AnswerIs(n, mu, seen, Pair(x, z'));
    SameRegressor(n, seen, Pair(x, z), Pair(x, z'));
  }

  /** Every pair of `more`, read after `seen`, has exactly the response of the filter t. */
  ghost predicate Follows(seen: seq<Pair>, more: seq<Pair>, t: seq<real>) {
    forall j | 0 <= j < |more| :: Responds(t, seen + more[..j + 1], more[j].z)
  }

  ghost predicate Responds(t: seq<real>, seen: seq<Pair>, z: real) {
    z == Dot(t, Regressor(|t|, seen), |t|)
  }

  /** Once the weights have reached the filter that makes the desired response they stay there: predictions
      repeat that response and errors are zero, for every later pair. */
  lemma {:induction false} LockedOn(mu: real, seen: seq<Pair>, more: seq<Pair>, t: seq<real>)
    requires Weights(|t|, mu, seen) == t && Follows(seen, more, t)
    ensures Weights(|t|, mu, seen + more) == t
    ensures forall j | 0 <= j < |more| ::
              && Answers(|t|, mu, false, seen + more)[|seen| + j] == more[j].z
              && Answers(|t|, mu, true, seen + more)[|seen| + j] == 0.0
  {
    hide *;
    var n := |more| - 1;
    if more == [] {
      assert seen + more == seen;
    } else {
      var b, v := more[..n], more[n];
      assert seen + more == (seen + b) + [v];
      FollowsPrefix(seen, more, t);
      LockedOn(mu, seen, b, t);
      LockedStep(mu, seen + b, v, t);
      AnswersSnoc(|t|, mu, false, seen + b, v);
      AnswersSnoc(|t|, mu, true, seen + b, v);
      AnswersLength(|t|, mu, false, seen + b);
      AnswersLength(|t|, mu, true, seen + b);
      forall j | 0 <= j < |more|
        ensures Answers(|t|, mu, false, seen + more)[|seen| + j] == more[j].z
        ensures Answers(|t|, mu, true, seen + more)[|seen| + j] == 0.0
      {
        if j < n {
          assert b[j] == more[j];
        }
      }
    }
  }

  lemma FollowsPrefix(seen: seq<Pair>, more: seq<Pair>, t: seq<real>)
    requires more != [] && Follows(seen, more, t)
    ensures var b, v := more[..|more| - 1], more[|more| - 1];
            Follows(seen, b, t) && Responds(t, seen + b + [v], v.z)
  {
    hide Responds;
    var n := |more| - 1;
    var b := more[..n];
    forall j | 0 <= j < n
      ensures Responds(t, seen + b[..j + 1], b[j].z)
    {
      assert b[..j + 1] == more[..j + 1];
    }
    assert seen + more[..n + 1] == seen + b + [more[n]];
  }

  lemma LockedStep(mu: real, seen: seq<Pair>, v: Pair, t: seq<real>)
    requires Weights(|t|, mu, seen) == t && Responds(t, seen + [v], v.z)
    ensures Weights(|t|, mu, seen + [v]) == t
    ensures Answer(|t|, mu, false, seen + [v]) == v.z && Answer(|t|, mu, true, seen + [v]) == 0.0
  {
    hide Weights, Answer, Dot, Regressor, Adapted;
    var x := Regressor(|t|, seen + [v]);
    AnswerIs(|t|, mu, seen, v);
    Sizes(|t|, mu, seen + [v]);
    DotComm(t, x, |t|);
    assert (seen + [v])[..|seen|] == seen;
    WeightsStep(|t|, mu, seen + [v]);
    NothingToLearn(t, x, mu, v.z);
  }

  lemma NothingToLearn(w: seq<real>, x: seq<real>, mu: real, z: real)
    requires |w| == |x| && z == Dot(x, w, |x|)
    ensures Adapted(w, x, mu, z) == w
  {
    hide Dot;
  }

  /** The first n pairs of two streams. */
  ghost function Pairs(xs: seq<real>, zs: seq<real>, n: nat): (p: seq<Pair>)
    requires n <= |xs| && n <= |zs|
    ensures |p| == n
  {
    seq(n, i requires 0 <= i < n => Pair(xs[i], zs[i]))
  }

  lemma PairsSnoc(xs: seq<real>, zs: seq<real>, n: nat)
    requires n < |xs| && n < |zs|
    ensures Pairs(xs, zs, n + 1) == Pairs(xs, zs, n) + [Pair(xs[n], zs[n])]
  {
  }

  lemma NoPairs(xs: seq<real>, zs: seq<real>)
    ensures Pairs(xs, zs, 0) == []
  {
  }

  lemma SignalSnoc(seen: seq<Pair>, v: Pair)
    ensures Signal(seen + [v]) == Signal(seen) + [v.x]
  {
  }

  class LmsFilter {
    const mu: real
    const outputFlag: int
    const xP: array<real>
    const wP: array<real>
    ghost var seen: seq<Pair>

    ghost predicate Valid()
      reads this, xP, wP
    {
      && xP != wP && xP.Length == wP.Length
      && xP[..] == Regressor(wP.Length, seen) && wP[..] == Weights(wP.Length, mu, seen)
    }

    constructor (taps: nat, step: real, flag: int)
      ensures Valid() && fresh(xP) && fresh(wP) && seen == []
      ensures wP.Length == taps && mu == step && outputFlag == flag
    {
      mu, outputFlag, seen := step, flag, [];
      xP := new real[taps](_ => 0.0);
      wP := new real[taps](_ => 0.0);
    }

    /** The inner product of the delay line and the weights. */
    method Predict() returns (dhat: real)
      requires xP.Length == wP.Length
      ensures dhat == Dot(xP[..], wP[..], wP.Length)
    {
      dhat := 0.0;
      var i := 0;
      while i < wP.Length
        invariant 0 <= i <= wP.Length && dhat == Dot(xP[..], wP[..], i)
      {
        dhat := dhat + xP[i] * wP[i];
        i := i + 1;
      }
    }

    method Adapt(error: real)
      requires xP != wP && xP.Length == wP.Length
      modifies wP
      ensures wP[..] == Moved(old(wP[..]), xP[..], mu, error)
    {
      var i := 0;
      ghost var w := wP[..];
      while i < wP.Length
        invariant 0 <= i <= wP.Length && wP[i..] == w[i..]
        invariant forall k | 0 <= k < i :: wP[k] == w[k] + mu * xP[k] * error
      {
        wP[i] := wP[i] + mu * xP[i] * error;
        i := i + 1;
      }
      forall k | 0 <= k < wP.Length
        ensures wP[..][k] == Moved(w, xP[..], mu, error)[k]
      {
      }
    }

    /** One pair of samples: shifted in, predicted, and learnt from. */
    method Process(v: Pair) returns (dhat: real, error: real)
      requires Valid()
      modifies xP, wP, this`seen
      ensures Valid() && seen == old(seen) + [v]
      ensures error == Error(wP.Length, mu, seen) && dhat == v.z - error
    {
      hide Weights, Line, Dot, Moved, Signal;
      ghost var before, n, w := seen, wP.Length, wP[..];
      SignalSnoc(before, v);
      ShiftIn(xP, v.x, Signal(before), 0.0);
      seen := before + [v];
      assert seen[..|seen| - 1] == before;
      dhat := Predict();
      error := v.z - dhat;
      Adapt(error);
      WeightsStep(n, mu, seen);
    }

    /** One pair, and its answer put out. */
    method Respond(v: Pair, out: OutBuffer<real>) returns (full: bool)
      requires Valid()
      modifies xP, wP, this`seen, out
      ensures Valid() && seen == old(seen) + [v]
      ensures out.cells == old(out.cells) + (if full then [] else [Answer(wP.Length, mu, outputFlag != 0, seen)])
    {
      hide Valid;
      var dhat, error := Process(v);
      full := out.Put(if outputFlag == 0 then dhat else error);
    }

    /** One visit: as many pairs as both inputs hold are answered; a refused cell (99) ends the run
        after the weights have taken in the pair whose answer is lost. */
    method MainCode(x: InBuffer<real>, z: InBuffer<real>, out: OutBuffer<real>) returns (status: int, ghost used: nat)
      requires Valid() && x != z
      modifies xP, wP, this`seen, x, z, out
      ensures Valid() && (status == 0 || status == 99)
      ensures used <= |old(x.pending)| && used <= |old(z.pending)|
      ensures x.pending == old(x.pending)[used..] && z.pending == old(z.pending)[used..]
      ensures seen == old(seen) + Pairs(old(x.pending), old(z.pending), used)
      ensures var y := Answers(wP.Length, mu, outputFlag != 0, seen)[|old(seen)|..];
              if status == 0 then (x.pending == [] || z.pending == []) && out.cells == old(out.cells) + y
              else y != [] && out.cells == old(out.cells) + y[..|y| - 1]
    {
      hide *;
      used := 0;
      ghost var xs, zs, s0 := x.pending, z.pending, seen;
      NoPairs(xs, zs);
      AnswersLength(wP.Length, mu, outputFlag != 0, s0);
      var j := if |x.pending| <= |z.pending| then |x.pending| else |z.pending|;
      while j > 0
        invariant Valid() && 0 <= j
        invariant used + j <= |xs| && used + j <= |zs| && (used + j == |xs| || used + j == |zs|)
        invariant x.pending == xs[used..] && z.pending == zs[used..]
        invariant seen == s0 + Pairs(xs, zs, used) && |Answers(wP.Length, mu, outputFlag != 0, seen)| == |seen|
        invariant out.cells == old(out.cells) + Answers(wP.Length, mu, outputFlag != 0, seen)[|s0|..]
      {
        var xv := x.Take();
        var zv := z.Take();
        ghost var before := seen;
        PairsSnoc(xs, zs, used);
        var full := Respond(Pair(xv, zv), out);
        AnswersSnoc(wP.Length, mu, outputFlag != 0, before, Pair(xv, zv));
        LastCell(Answers(wP.Length, mu, outputFlag != 0, before), Answer(wP.Length, mu, outputFlag != 0, seen), |s0|);
        used := used + 1;
        if full {
          return 99, used;
        }
        j := j - 1;
      }
      return 0, used;
    }

    /** What the block keeps in every reachable state, for every target filter of its length. */
    lemma StateBalance(t: seq<real>)
      requires Valid() && |t| == wP.Length
      ensures Distance2(wP[..], t, |t|) == Dot(t, t, |t|) - Spent(|t|, mu, seen) + Disturbed(mu, seen, t)
    {
      hide Weights, Dot, Distance2, Spent, Disturbed, Regressor;
      RunBalance(mu, seen, t);
      WeightErrorIs(mu, seen, t);
    }
  }
}
