/** The cascade of second-order sections: one shared history vector carries every section, and the
    order of the sections does not change the output. */
module Cascade {
  import opened Kernel

  datatype Section = Section(zc1: real, zc2: real, pc1: real, pc2: real)

  /** The answer of a section to the input x0, with x1, x2 before it and y1, y2 answered before. */
  function Answer(s: Section, x0: real, x1: real, x2: real, y1: real, y2: real): real {
    x0 + s.zc1 * x1 + s.zc2 * x2 - s.pc1 * y1 - s.pc2 * y2
  }

  /** The signal after the first j sections; all signals are zero before sample 0. */
  ghost function Y(c: seq<Section>, xs: seq<real>, j: nat, n: int): real
    requires j <= |c|
    decreases if n < 0 then 0 else n + 1, j
  {
    if n < 0 then 0.0
    else if j == 0 then (if n < |xs| then xs[n] else 0.0)
    else
      Answer(c[j - 1], Y(c, xs, j - 1, n), Y(c, xs, j - 1, n - 1), Y(c, xs, j - 1, n - 2),
             Y(c, xs, j, n - 1), Y(c, xs, j, n - 2))
  }

  lemma Recurrence(c: seq<Section>, xs: seq<real>, j: nat, n: nat)
    requires j < |c|
    ensures Y(c, xs, j + 1, n)
         == Answer(c[j], Y(c, xs, j, n), Y(c, xs, j, n - 1), Y(c, xs, j, n - 2),
                   Y(c, xs, j + 1, n - 1), Y(c, xs, j + 1, n - 2))
  {
    hide Answer;
  }

  lemma BeforeStart(c: seq<Section>, xs: seq<real>, j: nat, n: int)
    requires j <= |c| && n < 0
    ensures Y(c, xs, j, n) == 0.0
  {
  }

  /** Sections further down and samples after n do not change what the first j sections answer at n. */
  lemma {:induction false} Causal(c: seq<Section>, d: seq<Section>, xs: seq<real>, zs: seq<real>, j: nat, n: int)
    requires j <= |c| && j <= |d| && c[..j] == d[..j]
    requires forall m | 0 <= m <= n :: Y(c, xs, 0, m) == Y(d, zs, 0, m)
    ensures Y(c, xs, j, n) == Y(d, zs, j, n)
    decreases if n < 0 then 0 else n + 1, j
  {
    hide Y, Answer;
    if n < 0 {
      BeforeStart(c, xs, j, n);
      BeforeStart(d, zs, j, n);
    } else if j > 0 {
      assert c[j - 1] == c[..j][j - 1] == d[j - 1];
      assert c[..j - 1] == c[..j][..j - 1] == d[..j - 1];
      Causal(c, d, xs, zs, j - 1, n);
      Causal(c, d, xs, zs, j - 1, n - 1);
      Causal(c, d, xs, zs, j - 1, n - 2);
      Causal(c, d, xs, zs, j, n - 1);
      Causal(c, d, xs, zs, j, n - 2);
      Recurrence(c, xs, j - 1, n);
      Recurrence(d, zs, j - 1, n);
    }
  }

  // ------------------------------------------------------------------ sections commute

  /** f(n) + a f(n-1) + b f(n-2) */
  ghost function Second(a: real, b: real, f: int -> real): int -> real {
    n => f(n) + a * f(n - 1) + b * f(n - 2)
  }

  ghost predicate Same(f: int -> real, g: int -> real) {
    forall n: int :: f(n) == g(n)
  }

  ghost predicate Starts(f: int -> real) {
    forall n: int | n < 0 :: f(n) == 0.0
  }

  lemma Commute(a: real, b: real, c: real, d: real, f: int -> real)
    ensures Same(Second(a, b, Second(c, d, f)), Second(c, d, Second(a, b, f)))
  {
    forall n: int
      ensures Second(a, b, Second(c, d, f))(n) == Second(c, d, Second(a, b, f))(n)
    {
      CommuteAt(a, b, c, d, f(n), f(n - 1), f(n - 2), f(n - 3), f(n - 4));
      assert n - 1 - 1 == n - 2 && n - 1 - 2 == n - 3 && n - 2 - 2 == n - 4;
    }
  }

  lemma CommuteAt(a: real, b: real, c: real, d: real, f0: real, f1: real, f2: real, f3: real, f4: real)
    ensures (f0 + c * f1 + d * f2) + a * (f1 + c * f2 + d * f3) + b * (f2 + c * f3 + d * f4)
         == (f0 + a * f1 + b * f2) + c * (f1 + a * f2 + b * f3) + d * (f2 + a * f3 + b * f4)
  {
  }

  lemma SecondSame(a: real, b: real, f: int -> real, g: int -> real)
    requires Same(f, g)
    ensures Same(Second(a, b, f), Second(a, b, g))
  {
    forall n: int
      ensures Second(a, b, f)(n) == Second(a, b, g)(n)
    {
      SecondSameAt(a, b, f, g, n);
    }
  }

  lemma SecondSameAt(a: real, b: real, f: int -> real, g: int -> real, n: int)
    requires f(n) == g(n) && f(n - 1) == g(n - 1) && f(n - 2) == g(n - 2)
    ensures Second(a, b, f)(n) == Second(a, b, g)(n)
  {
  }

  lemma SecondStarts(a: real, b: real, f: int -> real)
    requires Starts(f)
    ensures Starts(Second(a, b, f))
  {
  }

  lemma Chain(f: int -> real, g: int -> real, h: int -> real)
    requires Same(f, g) && Same(g, h)
    ensures Same(f, h) && Same(g, f)
  {
  }

  /** A recurrence that starts from zero has one solution. */
  lemma {:induction false} UniqueAt(a: real, b: real, f: int -> real, g: int -> real, n: int)
    requires Starts(f) && Starts(g) && Same(Second(a, b, f), Second(a, b, g))
    ensures f(n) == g(n)
    decreases if n < 0 then 0 else n + 1
  {
    if n >= 0 {
      UniqueAt(a, b, f, g, n - 1);
      UniqueAt(a, b, f, g, n - 2);
      assert Second(a, b, f)(n) == Second(a, b, g)(n);
    }
  }

  lemma Unique(a: real, b: real, f: int -> real, g: int -> real)
    requires Starts(f) && Starts(g) && Same(Second(a, b, f), Second(a, b, g))
    ensures Same(f, g)
  {
    forall n: int
      ensures f(n) == g(n)
    {
      UniqueAt(a, b, f, g, n);
    }
  }

  /** v answers f through section s. */
  ghost predicate Through(s: Section, f: int -> real, v: int -> real) {
    Starts(v) && Same(Second(s.pc1, s.pc2, v), Second(s.zc1, s.zc2, f))
  }

  /** The poles of s and t applied to what comes out of t behind s are their zeros applied to what goes in. */
  lemma TwoSections(s: Section, t: Section, x: int -> real, u: int -> real, v: int -> real)
    requires Through(s, x, u) && Through(t, u, v)
    ensures Same(Second(s.pc1, s.pc2, Second(t.pc1, t.pc2, v)), Second(t.zc1, t.zc2, Second(s.zc1, s.zc2, x)))
  {
    hide Same, Second, Starts;
    var pv, zu := Second(t.pc1, t.pc2, v), Second(t.zc1, t.zc2, u);
    var pu, zx := Second(s.pc1, s.pc2, u), Second(s.zc1, s.zc2, x);
    SecondSame(s.pc1, s.pc2, pv, zu);
    Commute(s.pc1, s.pc2, t.zc1, t.zc2, u);
    SecondSame(t.zc1, t.zc2, pu, zx);
    Chain(Second(s.pc1, s.pc2, pv), Second(s.pc1, s.pc2, zu), Second(t.zc1, t.zc2, pu));
    Chain(Second(s.pc1, s.pc2, pv), Second(t.zc1, t.zc2, pu), Second(t.zc1, t.zc2, zx));
  }

  /** Two sections in either order answer the same. */
  lemma SectionsCommute(s: Section, t: Section, x: int -> real, u: int -> real, v: int -> real,
                        u': int -> real, v': int -> real)
    requires Through(s, x, u) && Through(t, u, v) && Through(t, x, u') && Through(s, u', v')
    ensures Same(v, v')
  {
    hide Same, Second, Starts;
    TwoSections(s, t, x, u, v);
    TwoSections(t, s, x, u', v');
    var pv, pv' := Second(t.pc1, t.pc2, v), Second(t.pc1, t.pc2, v');
    var qv' := Second(s.pc1, s.pc2, v');
    var zz, zz' := Second(t.zc1, t.zc2, Second(s.zc1, s.zc2, x)), Second(s.zc1, s.zc2, Second(t.zc1, t.zc2, x));
    Commute(t.zc1, t.zc2, s.zc1, s.zc2, x);
    Commute(s.pc1, s.pc2, t.pc1, t.pc2, v');
    var a, b, b' := Second(s.pc1, s.pc2, pv), Second(s.pc1, s.pc2, pv'), Second(t.pc1, t.pc2, qv');
    Chain(a, zz, zz');
    Chain(b', zz', zz');
    Chain(a, zz', b');
    Chain(b, b', b');
    Chain(a, b', b);
    SecondStarts(t.pc1, t.pc2, v);
    SecondStarts(t.pc1, t.pc2, v');
    Unique(s.pc1, s.pc2, pv, pv');
    Unique(t.pc1, t.pc2, v, v');
  }

  ghost function Stage(c: seq<Section>, xs: seq<real>, j: nat): int -> real
    requires j <= |c|
  {
    n => Y(c, xs, j, n)
  }

  lemma StageThrough(c: seq<Section>, xs: seq<real>, j: nat)
    requires j < |c|
    ensures Through(c[j], Stage(c, xs, j), Stage(c, xs, j + 1))
  {
    hide Y;
    var f, v, s := Stage(c, xs, j), Stage(c, xs, j + 1), c[j];
    forall n: int
      ensures Second(s.pc1, s.pc2, v)(n) == Second(s.zc1, s.zc2, f)(n)
    {
      RecurrenceAt(c, xs, j, n);
    }
    forall n: int | n < 0
      ensures v(n) == 0.0
    {
      BeforeStart(c, xs, j + 1, n);
    }
  }

  lemma RecurrenceAt(c: seq<Section>, xs: seq<real>, j: nat, n: int)
    requires j < |c|
    ensures Y(c, xs, j + 1, n) + c[j].pc1 * Y(c, xs, j + 1, n - 1) + c[j].pc2 * Y(c, xs, j + 1, n - 2)
         == Y(c, xs, j, n) + c[j].zc1 * Y(c, xs, j, n - 1) + c[j].zc2 * Y(c, xs, j, n - 2)
  {
    hide Y;
    if n >= 0 {
      Recurrence(c, xs, j, n);
    } else {
      AllZero(c, xs, j, n);
      AllZero(c, xs, j + 1, n);
    }
  }

  lemma AllZero(c: seq<Section>, xs: seq<real>, j: nat, n: int)
    requires j <= |c| && n < 0
    ensures Y(c, xs, j, n) == Y(c, xs, j, n - 1) == Y(c, xs, j, n - 2) == 0.0
  {
  }

  /** The same input through the same remaining sections gives the same output. */
  lemma {:induction false} SameTail(c: seq<Section>, d: seq<Section>, xs: seq<real>, from: nat, j: nat)
    requires from <= j <= |c| == |d| && c[from..] == d[from..]
    requires Same(Stage(c, xs, from), Stage(d, xs, from))
    ensures Same(Stage(c, xs, j), Stage(d, xs, j))
    decreases j
  {
    hide Same, Second, Starts, Stage;
    if j > from {
      SameTail(c, d, xs, from, j - 1);
      var s := c[j - 1];
      assert c[from..][j - 1 - from] == d[from..][j - 1 - from];
      StageThrough(c, xs, j - 1);
      StageThrough(d, xs, j - 1);
      var f, g := Stage(c, xs, j - 1), Stage(d, xs, j - 1);
      var v, w := Stage(c, xs, j), Stage(d, xs, j);
      SecondSame(s.zc1, s.zc2, f, g);
      Chain(Second(s.pc1, s.pc2, v), Second(s.zc1, s.zc2, f), Second(s.zc1, s.zc2, g));
      Chain(Second(s.pc1, s.pc2, w), Second(s.zc1, s.zc2, g), Second(s.zc1, s.zc2, g));
      Chain(Second(s.pc1, s.pc2, v), Second(s.zc1, s.zc2, g), Second(s.pc1, s.pc2, w));
      Unique(s.pc1, s.pc2, v, w);
    }
  }

  ghost function Swapped(c: seq<Section>, i: nat): (d: seq<Section>)
    requires i + 1 < |c|
    ensures |d| == |c|
  {
    c[i := c[i + 1]][i + 1 := c[i]]
  }

  /** Exchanging two neighbouring sections anywhere in the cascade leaves every output sample as it was;
      so does any reordering, one exchange at a time. */
  lemma OrderDoesNotMatter(c: seq<Section>, xs: seq<real>, i: nat, n: int)
    requires i + 1 < |c|
    ensures Y(c, xs, |c|, n) == Y(Swapped(c, i), xs, |c|, n)
  {
    hide Y, Same, Through;
    var d := Swapped(c, i);
    SamePrefix(c, d, xs, i);
    StageThrough(c, xs, i);
    StageThrough(c, xs, i + 1);
    StageThrough(d, xs, i);
    StageThrough(d, xs, i + 1);
    var x, x' := Stage(c, xs, i), Stage(d, xs, i);
    ThroughSame(c[i + 1], x', x, Stage(d, xs, i + 1));
    SectionsCommute(c[i], c[i + 1], x, Stage(c, xs, i + 1), Stage(c, xs, i + 2), Stage(d, xs, i + 1),
                    Stage(d, xs, i + 2));
    assert c[i + 2..] == d[i + 2..];
    SameTail(c, d, xs, i + 2, |c|);
    SameAt(Stage(c, xs, |c|), Stage(d, xs, |c|), n);
  }

  lemma SameAt(f: int -> real, g: int -> real, n: int)
    requires Same(f, g)
    ensures f(n) == g(n)
  {
  }

  lemma ThroughSame(s: Section, f: int -> real, g: int -> real, v: int -> real)
    requires Through(s, f, v) && Same(f, g)
    ensures Through(s, g, v)
  {
    hide Second, Starts;
    SecondSame(s.zc1, s.zc2, f, g);
    hide Same;
    Chain(Second(s.pc1, s.pc2, v), Second(s.zc1, s.zc2, f), Second(s.zc1, s.zc2, g));
  }

  lemma SamePrefix(c: seq<Section>, d: seq<Section>, xs: seq<real>, i: nat)
    requires i <= |c| && i <= |d| && c[..i] == d[..i]
    ensures Same(Stage(c, xs, i), Stage(d, xs, i)) && Same(Stage(d, xs, i), Stage(c, xs, i))
  {
    forall n: int
      ensures Y(c, xs, i, n) == Y(d, xs, i, n)
    {
      hide Y;
      forall m | 0 <= m <= n
        ensures Y(c, xs, 0, m) == Y(d, xs, 0, m)
      {
        InputIs(c, xs, m);
        InputIs(d, xs, m);
      }
      Causal(c, d, xs, xs, i, n);
    }
  }

  lemma InputIs(c: seq<Section>, xs: seq<real>, n: int)
    ensures Y(c, xs, 0, n) == if 0 <= n < |xs| then xs[n] else 0.0
  {
  }

  // ------------------------------------------------------------------ the block

  /** The cell of the history vector that holds answer jj of section j, the newest first. */
  function Cell(j: nat, jj: nat): nat {
    3 * j + jj
  }

  /** Every cell that ns sections use lies inside a history vector of this size. */
  ghost predicate HistoryFits(ns: nat, size: nat) {
    forall j: nat, jj: nat | j < ns && jj < 2 :: Cell(j, jj) < size
  }

  /** The history vector of 20 cells holds every cell used exactly when there are at most 7 sections,
      although coefficients of up to 35 are read. */
  lemma HistoryFitsExactly(ns: nat)
    ensures HistoryFits(ns, 20) <==> ns <= 7
  {
    if ns > 7 {
      assert Cell(7, 0) >= 20;
    }
  }

  /** The answer to sample n; without sections nothing is ever copied to the output. */
  ghost function Output(c: seq<Section>, xs: seq<real>, wnorm: real, n: int): real
    requires wnorm != 0.0
  {
    (if c == [] then 0.0 else Y(c, xs, |c|, n)) / wnorm
  }

  ghost function Outputs(c: seq<Section>, xs: seq<real>, wnorm: real): (y: seq<real>)
    requires wnorm != 0.0
    ensures |y| == |xs|
  {
    seq(|xs|, n requires 0 <= n < |xs| => Output(c, xs, wnorm, n))
  }

  /** The samples put out, undone of the norm. */
  ghost function Unnormed(c: seq<Section>, xs: seq<real>, wnorm: real): int -> real
    requires wnorm != 0.0
  {
    n => wnorm * Output(c, xs, wnorm, n)
  }

  /** The input as a signal, zero outside the run. */
  ghost function Input(xs: seq<real>): int -> real {
    n => if 0 <= n < |xs| then xs[n] else 0.0
  }

  lemma Cancels(y: real, wnorm: real)
    requires wnorm != 0.0
    ensures wnorm * (y / wnorm) == y
  {
  }

  lemma UnnormedIs(c: seq<Section>, xs: seq<real>, wnorm: real)
    requires wnorm != 0.0 && c != []
    ensures Same(Unnormed(c, xs, wnorm), Stage(c, xs, |c|)) && Same(Stage(c, xs, |c|), Unnormed(c, xs, wnorm))
  {
    hide Y;
    forall n: int
      ensures Unnormed(c, xs, wnorm)(n) == Stage(c, xs, |c|)(n)
    {
      Cancels(Y(c, xs, |c|, n), wnorm);
    }
  }

  lemma ThroughSameAnswer(s: Section, f: int -> real, v: int -> real, w: int -> real)
    requires Through(s, f, v) && Same(v, w)
    ensures Through(s, f, w)
  {
    hide Second;
    SecondSame(s.pc1, s.pc2, v, w);
    assert Starts(w);
    hide Same, Starts;
    Chain(Second(s.pc1, s.pc2, v), Second(s.pc1, s.pc2, w), Second(s.pc1, s.pc2, w));
    Chain(Second(s.pc1, s.pc2, w), Second(s.pc1, s.pc2, v), Second(s.zc1, s.zc2, f));
  }

  /** What is put out, times the norm, is what the last section makes of what the sections before it would put
      out, times the norm; with one section, of the input. */
  lemma LastSection(c: seq<Section>, xs: seq<real>, wnorm: real)
    requires wnorm != 0.0 && c != []
    ensures var k := |c| - 1;
            Through(c[k], if k == 0 then Input(xs) else Unnormed(c[..k], xs, wnorm), Unnormed(c, xs, wnorm))
  {
    hide Y, Through, Same, Unnormed;
    var k := |c| - 1;
    StageThrough(c, xs, k);
    UnnormedIs(c, xs, wnorm);
    ThroughSameAnswer(c[k], Stage(c, xs, k), Stage(c, xs, k + 1), Unnormed(c, xs, wnorm));
    if k == 0 {
      InputStage(c, xs);
      ThroughSame(c[k], Stage(c, xs, k), Input(xs), Unnormed(c, xs, wnorm));
    } else {
      var b := c[..k];
      assert b[..k] == c[..k];
      SamePrefix(c, b, xs, k);
      UnnormedIs(b, xs, wnorm);
      Chain(Stage(c, xs, k), Stage(b, xs, k), Unnormed(b, xs, wnorm));
      ThroughSame(c[k], Stage(c, xs, k), Unnormed(b, xs, wnorm), Unnormed(c, xs, wnorm));
    }
  }

  lemma InputStage(c: seq<Section>, xs: seq<real>)
    ensures Same(Stage(c, xs, 0), Input(xs))
  {
    forall n: int
      ensures Stage(c, xs, 0)(n) == Input(xs)(n)
    {
      InputIs(c, xs, n);
    }
  }

  /** Sample n of a run; zero before its start. */
  ghost function SampleAt(s: seq<real>, n: int): real
    requires n < |s|
  {
    if n < 0 then 0.0 else s[n]
  }

  /** The difference equation of the block with one section, in the samples it takes in and puts out. */
  lemma OneSection(s: Section, xs: seq<real>, wnorm: real, n: nat)
    requires wnorm != 0.0 && n < |xs|
    ensures var y := Outputs([s], xs, wnorm);
            wnorm * (SampleAt(y, n) + s.pc1 * SampleAt(y, n - 1) + s.pc2 * SampleAt(y, n - 2))
            == SampleAt(xs, n) + s.zc1 * SampleAt(xs, n - 1) + s.zc2 * SampleAt(xs, n - 2)
  {
    hide *;
    var c := [s];
    LastSection(c, xs, wnorm);
    ThroughAt(s, Input(xs), Unnormed(c, xs, wnorm), n);
    var y := Outputs(c, xs, wnorm);
    SampleOut(c, xs, wnorm, n);
    SampleOut(c, xs, wnorm, n - 1);
    SampleOut(c, xs, wnorm, n - 2);
    InputAt(xs, n);
    InputAt(xs, n - 1);
    InputAt(xs, n - 2);
    Factored(wnorm, SampleAt(y, n), s.pc1, SampleAt(y, n - 1), s.pc2, SampleAt(y, n - 2));
  }

  lemma ThroughAt(s: Section, f: int -> real, v: int -> real, n: int)
    requires Through(s, f, v)
    ensures v(n) + s.pc1 * v(n - 1) + s.pc2 * v(n - 2) == f(n) + s.zc1 * f(n - 1) + s.zc2 * f(n - 2)
  {
    hide Starts;
    SameAt(Second(s.pc1, s.pc2, v), Second(s.zc1, s.zc2, f), n);
  }

  lemma InputAt(xs: seq<real>, n: int)
    requires n < |xs|
    ensures Input(xs)(n) == SampleAt(xs, n)
  {
  }

  lemma SampleOut(c: seq<Section>, xs: seq<real>, wnorm: real, n: int)
    requires wnorm != 0.0 && n < |xs|
    ensures |Outputs(c, xs, wnorm)| == |xs| && Unnormed(c, xs, wnorm)(n) == wnorm * SampleAt(Outputs(c, xs, wnorm), n)
  {
    hide Y;
    if n < 0 {
      BeforeStart(c, xs, |c|, n);
    }
  }

  lemma Factored(w: real, y0: real, a: real, y1: real, b: real, y2: real)
    ensures w * y0 + a * (w * y1) + b * (w * y2) == w * (y0 + a * y1 + b * y2)
  {
  }

  /** Exchanging two neighbouring sections leaves everything the block puts out as it was. */
  lemma SwappedOutputs(c: seq<Section>, xs: seq<real>, wnorm: real, i: nat)
    requires wnorm != 0.0 && i + 1 < |c|
    ensures Outputs(Swapped(c, i), xs, wnorm) == Outputs(c, xs, wnorm)
  {
    var d := Swapped(c, i);
    hide Y, Swapped;
    forall n: int
      ensures Output(d, xs, wnorm, n) == Output(c, xs, wnorm, n)
    {
      OrderDoesNotMatter(c, xs, i, n);
    }
  }

  lemma OutputsSnoc(c: seq<Section>, xs: seq<real>, v: real, wnorm: real)
    requires wnorm != 0.0
    ensures Outputs(c, xs + [v], wnorm) == Outputs(c, xs, wnorm) + [Output(c, xs + [v], wnorm, |xs|)]
    ensures |Outputs(c, xs, wnorm)| == |xs|
  {
    forall n | 0 <= n < |xs|
      ensures Output(c, xs + [v], wnorm, n) == Output(c, xs, wnorm, n)
    {
      SameBefore(c, xs, v, |c|, n);
      hide Y;
    }
  }

  lemma SameBefore(c: seq<Section>, xs: seq<real>, v: real, j: nat, n: int)
    requires j <= |c| && n < |xs|
    ensures Y(c, xs + [v], j, n) == Y(c, xs, j, n)
  {
    hide Y;
    forall m | 0 <= m <= n
      ensures Y(c, xs + [v], 0, m) == Y(c, xs, 0, m)
    {
      InputIs(c, xs, m);
      InputIs(c, xs + [v], m);
    }
    Causal(c, c, xs + [v], xs, j, n);
  }

  /** Cells 3j and 3j+1 hold the last two answers of section j, up to sample n. */
  ghost predicate HistoryOf(ycas: seq<real>, c: seq<Section>, xs: seq<real>, j: nat, n: int)
    requires |ycas| == 20 && j < |c| <= 7
  {
    ycas[Cell(j, 0)] == Y(c, xs, j + 1, n) && ycas[Cell(j, 1)] == Y(c, xs, j + 1, n - 1)
  }

  ghost predicate Histories(ycas: seq<real>, c: seq<Section>, xs: seq<real>, from: nat, to: nat, n: int)
    requires |ycas| == 20 && to <= |c| <= 7
  {
    forall j | from <= j < to :: HistoryOf(ycas, c, xs, j, n)
  }

  /** Running section j moves the border between new and old history by one. */
  lemma BorderMoves(h: seq<real>, g: seq<real>, c: seq<Section>, xs: seq<real>, j: nat, n: int)
    requires |h| == |g| == 20 && j < |c| <= 7
    requires forall i | 0 <= i < 20 && !(Cell(j, 0) <= i <= Cell(j, 1)) :: g[i] == h[i]
    requires Histories(h, c, xs, 0, j, n) && Histories(h, c, xs, j, |c|, n - 1) && HistoryOf(g, c, xs, j, n)
    ensures Histories(g, c, xs, 0, j + 1, n) && Histories(g, c, xs, j + 1, |c|, n - 1)
  {
    hide Y;
    forall i | 0 <= i < j
      ensures HistoryOf(g, c, xs, i, n)
    {
      assert HistoryOf(h, c, xs, i, n);
    }
    var m := n - 1;
    forall i | j + 1 <= i < |c|
      ensures HistoryOf(g, c, xs, i, m)
    {
      assert HistoryOf(h, c, xs, i, m);
    }
  }

  lemma HistoryAt(h: seq<real>, c: seq<Section>, xs: seq<real>, j: nat, n: int)
    requires |h| == 20 && j < |c| <= 7 && Histories(h, c, xs, j, |c|, n)
    ensures HistoryOf(h, c, xs, j, n)
  {
  }

  lemma HistoriesExtended(h: seq<real>, c: seq<Section>, xs: seq<real>, v: real)
    requires |h| == 20 && |c| <= 7 && Histories(h, c, xs, 0, |c|, |xs| - 1)
    ensures Histories(h, c, xs + [v], 0, |c|, |xs| - 1)
  {
    hide Y;
    var n := |xs| - 1;
    forall j | 0 <= j < |c|
      ensures HistoryOf(h, c, xs + [v], j, n)
    {
      assert HistoryOf(h, c, xs, j, n);
      SameBefore(c, xs, v, j + 1, n);
      SameBefore(c, xs, v, j + 1, n - 1);
    }
  }

  lemma NoHistories(h: seq<real>, c: seq<Section>, xs: seq<real>, from: nat, n: int)
    requires |h| == 20 && from <= |c| <= 7
    ensures Histories(h, c, xs, from, from, n)
  {
  }

  /** The three newest samples of the signal after j sections. */
  ghost predicate Newest(v: seq<real>, c: seq<Section>, xs: seq<real>, j: nat, n: int)
    requires |v| == 3 && j <= |c|
  {
    v[0] == Y(c, xs, j, n) && v[1] == Y(c, xs, j, n - 1) && v[2] == Y(c, xs, j, n - 2)
  }

  class IirFil {
    const sections: seq<Section>
    const wnorm: real
    const ycas: array<real>
    const xs: array<real>
    const ys: array<real>
    var n: nat

    ghost predicate Shaped() {
      |sections| <= 7 && wnorm != 0.0 && ycas.Length == 20 && xs.Length == ys.Length == 3
      && ycas != xs && ycas != ys && xs != ys
    }

    ghost predicate Valid(seen: seq<real>)
      reads this, ycas, ys
    {
      && Shaped() && n == |seen|
      && Histories(ycas[..], sections, seen, 0, |sections|, n - 1)
      && (sections == [] ==> ys[0] == 0.0)
    }

    constructor (coefficients: seq<Section>, norm: real)
      requires HistoryFits(|coefficients|, 20) && norm != 0.0
      ensures Valid([]) && fresh(ycas) && fresh(xs) && fresh(ys) && sections == coefficients && wnorm == norm
    {
      HistoryFitsExactly(|coefficients|);
      sections, wnorm, n := coefficients, norm, 0;
      ycas := new real[20](_ => 0.0);
      xs := new real[3](_ => 0.0);
      ys := new real[3](_ => 0.0);
    }

    /** The input of section j: the signal itself for the first, else what the last section left. */
    method LoadInput(j: nat, inp: InBuffer<real>)
      requires Shaped() && j < |sections| && |inp.taken| == n + 1
      requires j > 0 ==> Newest(ys[..], sections, inp.taken, j, n)
      modifies xs
      ensures Newest(xs[..], sections, inp.taken, j, n)
    {
      hide Y;
      if j == 0 {
        xs[1] := 0.0;
        xs[2] := 0.0;
        xs[0] := inp.taken[n];
        if n > 0 {
          xs[1] := inp.taken[n - 1];
        }
        if n > 1 {
          xs[2] := inp.taken[n - 2];
        }
        InputIs(sections, inp.taken, n);
        InputIs(sections, inp.taken, n - 1);
        InputIs(sections, inp.taken, n - 2);
      } else {
        var jj := 0;
        while jj < 3
          invariant 0 <= jj <= 3 && xs[..jj] == ys[..jj]
        {
          xs[jj] := ys[jj];
          jj := jj + 1;
        }
        assert xs[..] == xs[..3] == ys[..3] == ys[..];
      }
    }

    /** One section: its two old answers are fetched, the new one computed, both stored back. */
    method RunSection(j: nat, ghost seen: seq<real>)
      requires Shaped() && j < |sections| && |seen| == n + 1
      requires Newest(xs[..], sections, seen, j, n) && HistoryOf(ycas[..], sections, seen, j, n - 1)
      modifies ys, ycas
      ensures Newest(ys[..], sections, seen, j + 1, n) && HistoryOf(ycas[..], sections, seen, j, n)
      ensures forall i | 0 <= i < 20 && !(Cell(j, 0) <= i <= Cell(j, 1)) :: ycas[i] == old(ycas[i])
    {
      hide Y, Answer;
      var jj := 0;
      while jj < 2
        invariant 0 <= jj <= 2 && ycas[..] == old(ycas[..])
        invariant ys[1..jj + 1] == ycas[Cell(j, 0)..Cell(j, jj)]
        modifies ys
      {
        ys[jj + 1] := ycas[Cell(j, jj)];
        jj := jj + 1;
      }
      assert ys[1] == ys[1..3][0] == ycas[Cell(j, 0)..Cell(j, 2)][0];
      assert ys[2] == ys[1..3][1] == ycas[Cell(j, 0)..Cell(j, 2)][1];
      ys[0] := Answer(sections[j], xs[0], xs[1], xs[2], ys[1], ys[2]);
      Recurrence(sections, seen, j, n);
      ghost var y := ys[..];
      jj := 0;
      while jj < 2
        invariant 0 <= jj <= 2 && ys[..] == y
        invariant forall k | 0 <= k < jj :: ycas[Cell(j, k)] == y[k]
        invariant forall i | 0 <= i < 20 && !(Cell(j, 0) <= i < Cell(j, jj)) :: ycas[i] == old(ycas[i])
        modifies ycas
      {
        ycas[Cell(j, jj)] := ys[jj];
        jj := jj + 1;
      }
      assert ycas[Cell(j, 0)] == y[0] && ycas[Cell(j, 1)] == y[1];
    }

    /** One sample through every section. */
    method Process(inp: InBuffer<real>, ghost before: seq<real>, ghost v: real) returns (sample: real)
      requires Valid(before) && inp.taken == before + [v]
      modifies xs, ys, ycas
      ensures Shaped() && Histories(ycas[..], sections, inp.taken, 0, |sections|, n)
      ensures sections == [] ==> ys[0] == 0.0
      ensures sample == Output(sections, inp.taken, wnorm, n)
    {
      hide Y, HistoryOf, Histories;
      HistoriesExtended(ycas[..], sections, before, v);
      NoHistories(ycas[..], sections, inp.taken, 0, n);
      var j: nat := 0;
      while j < |sections|
        invariant 0 <= j <= |sections| && (sections == [] ==> ys[0] == 0.0)
        invariant j > 0 ==> Newest(ys[..], sections, inp.taken, j, n)
        invariant Histories(ycas[..], sections, inp.taken, 0, j, n)
        invariant Histories(ycas[..], sections, inp.taken, j, |sections|, n - 1)
      {
        LoadInput(j, inp);
        ghost var h := ycas[..];
        HistoryAt(h, sections, inp.taken, j, n - 1);
        RunSection(j, inp.taken);
        BorderMoves(h, ycas[..], sections, inp.taken, j, n);
        j := j + 1;
      }
      return ys[0] / wnorm;
    }

    /** The newest sample, and its answer put out. */
    method Respond(inp: InBuffer<real>, out: OutBuffer<real>, ghost before: seq<real>, ghost v: real)
      returns (full: bool)
      requires Valid(before) && inp.taken == before + [v]
      modifies this, xs, ys, ycas, out
      ensures !full ==> Valid(inp.taken)
      ensures wnorm != 0.0
      ensures out.cells == old(out.cells) + (if full then [] else [Output(sections, inp.taken, wnorm, |before|)])
    {
      hide Output, Histories;
      var sample := Process(inp, before, v);
      full := out.Put(sample);
      if !full {
        n := n + 1;
      }
    }

    lemma HasNorm(seen: seq<real>)
      requires Valid(seen)
      ensures wnorm != 0.0
    {
      hide Histories;
    }

    /** One visit: every sample is answered by the cascade of all the samples read so far; a refused
        cell (99) ends the run. */
    method MainCode(inp: InBuffer<real>, out: OutBuffer<real>) returns (status: int)
      requires Valid(inp.taken)
      modifies this, xs, ys, ycas, inp, out
      ensures status == 0 || status == 99
      ensures status == 0 ==> Valid(inp.taken) && inp.pending == []
      ensures old(inp.taken) <= inp.taken && old(inp.pending) == inp.taken[|old(inp.taken)|..] + inp.pending
      ensures wnorm != 0.0
      ensures var y := Outputs(sections, inp.taken, wnorm)[|old(inp.taken)|..];
              if status == 0 then out.cells == old(out.cells) + y
              else y != [] && out.cells == old(out.cells) + y[..|y| - 1]
    {
      hide *;
      ghost var t0 := inp.taken;
      HasNorm(t0);
      OutputsSnoc(sections, t0, 0.0, wnorm);
      while inp.pending != []
        invariant Valid(inp.taken) && t0 <= inp.taken && old(inp.pending) == inp.taken[|t0|..] + inp.pending
        invariant |Outputs(sections, inp.taken, wnorm)| == |inp.taken|
        invariant out.cells == old(out.cells) + Outputs(sections, inp.taken, wnorm)[|t0|..]
        decreases |inp.pending|
      {
        ghost var before := inp.taken;
        var v := inp.Take();
        OutputsSnoc(sections, before, v, wnorm);
        LastCell(Outputs(sections, before, wnorm), Output(sections, before + [v], wnorm, |before|), |t0|);
        LastCell(before, v, |t0|);
        var full := Respond(inp, out, before, v);
        if full {
          return 99;
        }
      }
      return 0;
    }
  }
}
