/** The SNR-setting block: it waits for a loud window, collects a preamble, then releases the
    preamble and every later window with noise added. */
module SnrSetting {
  import opened Complex
  import opened Kernel
  import opened Arith
  import opened Vectors

  datatype Mode = Silence | Preamble | Symbols

  /** What the block has seen: the window being filled while it is silent, or everything from the
      first sample of the triggering window on. */
  datatype Phase = Waiting(window: seq<Cx>) | Detected(kept: seq<Cx>)

  function Power(window: seq<Cx>): real {
    if window == [] then 0.0
    else
      var v := window[|window| - 1];
      Power(window[..|window| - 1]) + (v.re * v.re + v.im * v.im)
  }

  /** The mean power of a window. */
  function MeanOf(window: seq<Cx>): real
    requires window != []
  {
    Power(window) / |window| as real
  }

  ghost predicate Loud(window: seq<Cx>, threshold: real) {
    window != [] && MeanOf(window) > threshold
  }

  /** One sample. While silent a zero sample is passed on at once and leaves the window alone. */
  ghost function Next(m: Phase, x: Cx, size: nat, threshold: real): Phase {
    match m
    case Detected(kept) => Detected(kept + [x])
    case Waiting(window) =>
      if x == ZERO then m
      else if |window| + 1 < size then Waiting(window + [x])
      else if Loud(window + [x], threshold) then Detected(window + [x])
      else Waiting([])
  }

  ghost function PhaseOf(xs: seq<Cx>, size: nat, threshold: real): Phase {
    if xs == [] then Waiting([]) else Next(PhaseOf(xs[..|xs| - 1], size, threshold), xs[|xs| - 1], size, threshold)
  }

  /** How many of n kept samples have been released: nothing before the first full window after the
      preamble, then the preamble and every full window. */
  function Released(n: nat, preamble: nat, size: nat): (k: nat)
    requires size > 0
  {
    if n < preamble + size then 0 else preamble + size * ((n - preamble) / size)
  }

  /** Never more than the whole preamble and all but one sample of a window are held back. */
  lemma Backlog(n: nat, preamble: nat, size: nat)
    requires size > 0
    ensures Released(n, preamble, size) <= n <= Released(n, preamble, size) + preamble + size - 1
  {
    if n >= preamble + size {
      var r := n - preamble;
      assert r == size * (r / size) + r % size;
    }
  }

  /** Filling a window: nothing is released until it is full, then all of it (and the preamble, the
      first time). */
  lemma ReleaseStep(preamble: nat, size: nat, q: nat, c: nat)
    requires 0 <= c < size
    ensures var n := preamble + size * q + c;
            && Released(n, preamble, size) == (if q == 0 then 0 else preamble + size * q)
            && (c + 1 == size ==> Released(n + 1, preamble, size) == preamble + size * q + size)
  {
    var n := preamble + size * q + c;
    QuotientUnique(n - preamble, size, q, c);
    if q > 0 {
      NextMultiple(size, 0, q);
    }
    if c + 1 == size {
      assert size * (q + 1) == size * q + size;
      QuotientUnique(n + 1 - preamble, size, q + 1, 0);
    }
  }

  /** Once detected, every sample is kept, in order. */
  lemma {:induction false} KeptInOrder(xs: seq<Cx>, ys: seq<Cx>, size: nat, threshold: real)
    requires PhaseOf(xs, size, threshold).Detected?
    ensures PhaseOf(xs + ys, size, threshold) == Detected(PhaseOf(xs, size, threshold).kept + ys)
  {
    hide *;
    if ys == [] {
      assert xs + ys == xs;
    } else {
      var b, y := ys[..|ys| - 1], ys[|ys| - 1];
      KeptInOrder(xs, b, size, threshold);
      assert ys == b + [y] && xs + ys == (xs + b) + [y];
      PhaseSnoc(xs + b, y, size, threshold);
      StillKept(PhaseOf(xs, size, threshold).kept + b, y, size, threshold);
    }
  }

  lemma StillKept(kept: seq<Cx>, x: Cx, size: nat, threshold: real)
    ensures Next(Detected(kept), x, size, threshold) == Detected(kept + [x])
  {
  }

  /** The first `size` samples kept are a loud window of non-zero samples; the rest are the input
      samples that followed it, none missing. */
  ghost predicate Faithful(p: Phase, xs: seq<Cx>, size: nat, threshold: real) {
    match p
    case Waiting(window) => |window| < size && |window| <= |xs| && forall i | 0 <= i < |window| :: window[i] != ZERO
    case Detected(kept) =>
      && size <= |kept| <= |xs|
      && Loud(kept[..size], threshold)
      && (forall i | 0 <= i < size :: kept[i] != ZERO)
      && kept[size..] == xs[|xs| - (|kept| - size)..]
  }

  lemma FaithfulStep(p: Phase, xs: seq<Cx>, x: Cx, size: nat, threshold: real)
    requires size > 0 && Faithful(p, xs, size, threshold)
    ensures Faithful(Next(p, x, size, threshold), xs + [x], size, threshold)
  {
    hide Loud;
    match p {
      case Waiting(window) =>
        assert (window + [x])[..|window| + 1] == window + [x];
      case Detected(kept) =>
        assert (kept + [x])[..size] == kept[..size];
        assert (kept + [x])[size..] == kept[size..] + [x];
    }
  }

  lemma {:induction false} DetectedFrom(xs: seq<Cx>, size: nat, threshold: real)
    requires size > 0
    ensures Faithful(PhaseOf(xs, size, threshold), xs, size, threshold)
  {
    if xs != [] {
      var before := xs[..|xs| - 1];
      DetectedFrom(before, size, threshold);
      hide Faithful, Next;
      FaithfulStep(PhaseOf(before, size, threshold), before, xs[|xs| - 1], size, threshold);
      assert before + [xs[|xs| - 1]] == xs;
    }
  }

  // ------------------------------------------------------------------ what counts as loud

  ghost function RealParts(w: seq<Cx>): (p: seq<real>)
    ensures |p| == |w|
  {
    seq(|w|, i requires 0 <= i < |w| => w[i].re)
  }

  ghost function ImaginaryParts(w: seq<Cx>): (p: seq<real>)
    ensures |p| == |w|
  {
    seq(|w|, i requires 0 <= i < |w| => w[i].im)
  }

  /** The squared size of a sample. */
  function Size2(v: Cx): real {
    v.re * v.re + v.im * v.im
  }

  lemma PowerSnoc(w: seq<Cx>, v: Cx)
    ensures Power(w + [v]) == Power(w) + Size2(v) && Power([]) == 0.0
  {
    assert (w + [v])[..|w|] == w;
  }

  lemma PartsSnoc(w: seq<Cx>, v: Cx)
    ensures RealParts(w + [v]) == RealParts(w) + [v.re] && ImaginaryParts(w + [v]) == ImaginaryParts(w) + [v.im]
  {
  }

  /** The power of a window is that of its real parts and that of its imaginary parts. */
  lemma {:induction false} PowerOfParts(w: seq<Cx>)
    ensures Power(w) == Dot(RealParts(w), RealParts(w), |w|) + Dot(ImaginaryParts(w), ImaginaryParts(w), |w|)
  {
    hide *;
    if w == [] {
      NoPower(w);
    } else {
      var n := |w| - 1;
      var r, i, v := RealParts(w[..n]), ImaginaryParts(w[..n]), w[n];
      PowerOfParts(w[..n]);
      assert w == w[..n] + [v];
      PartsSnoc(w[..n], v);
      PowerSnoc(w[..n], v);
      DotSnoc(r, r, v.re, v.re);
      DotSnoc(i, i, v.im, v.im);
      SizeIs(v);
    }
  }

  lemma SizeIs(v: Cx)
    ensures Size2(v) == v.re * v.re + v.im * v.im
  {
  }

  lemma NoPower(w: seq<Cx>)
    requires w == []
    ensures Power(w) == 0.0 == Dot(RealParts(w), RealParts(w), 0) == Dot(ImaginaryParts(w), ImaginaryParts(w), 0)
  {
  }

  lemma TurnedSize(u: Cx, v: Cx)
    requires Size2(u) == 1.0
    ensures Size2(Mul(u, v)) == Size2(v) && (Mul(u, v) == ZERO <==> v == ZERO)
  {
    hide *;
    SizeOfProduct(u, v);
    SizePositive(v);
    SizePositive(Mul(u, v));
  }

  lemma SizeProduct(a: real, b: real, c: real, d: real)
    ensures (a * c - b * d) * (a * c - b * d) + (a * d + b * c) * (a * d + b * c) == (a * a + b * b) * (c * c + d * d)
  {
  }

  lemma SizeOfProduct(u: Cx, v: Cx)
    requires Size2(u) == 1.0
    ensures Size2(Mul(u, v)) == Size2(v)
  {
    SizeProduct(u.re, u.im, v.re, v.im);
  }

  lemma SizePositive(v: Cx)
    ensures Size2(v) >= 0.0 && (Size2(v) == 0.0 <==> v == ZERO)
  {
    if Size2(v) == 0.0 {
      SquareZero(v.re, v.im);
      SquareZero(v.im, v.re);
    }
  }

  lemma TurnedSnoc(u: Cx, w: seq<Cx>, v: Cx)
    ensures ScaleBy(u, w + [v]) == ScaleBy(u, w) + [Mul(u, v)] && ScaleBy(u, []) == []
    ensures |ScaleBy(u, w)| == |w|
  {
  }

  lemma {:induction false} TurnedPower(u: Cx, w: seq<Cx>)
    requires Size2(u) == 1.0
    ensures Power(ScaleBy(u, w)) == Power(w)
  {
    hide *;
    if w == [] {
      TurnedSnoc(u, w, ZERO);
    } else {
      var b, v := w[..|w| - 1], w[|w| - 1];
      assert w == b + [v];
      TurnedPower(u, b);
      TurnedSnoc(u, b, v);
      PowerSnoc(b, v);
      PowerSnoc(ScaleBy(u, b), Mul(u, v));
      TurnedSize(u, v);
    }
  }

  /** The same phase of the block, every sample held turned by u. */
  ghost function Turned(p: Phase, u: Cx): Phase {
    match p
    case Waiting(window) => Waiting(ScaleBy(u, window))
    case Detected(kept) => Detected(ScaleBy(u, kept))
  }

  lemma TurnedStep(p: Phase, x: Cx, u: Cx, size: nat, threshold: real)
    requires Size2(u) == 1.0
    ensures Next(Turned(p, u), Mul(u, x), size, threshold) == Turned(Next(p, x, size, threshold), u)
  {
    hide Power, Mul, ScaleBy, Size2;
    TurnedSize(u, x);
    var held := if p.Waiting? then p.window else p.kept;
    TurnedSnoc(u, held, x);
    TurnedPower(u, held + [x]);
  }

  /** Turning every input sample by one angle turns what is held by that angle and changes nothing else: the
      same sample triggers, and as many are kept. */
  lemma {:induction false} TurnedAlike(xs: seq<Cx>, u: Cx, size: nat, threshold: real)
    requires Size2(u) == 1.0
    ensures PhaseOf(ScaleBy(u, xs), size, threshold) == Turned(PhaseOf(xs, size, threshold), u)
  {
    hide *;
    if xs == [] {
      TurnedSnoc(u, [], ZERO);
      NoPhase(u, size, threshold);
    } else {
      var b, x := xs[..|xs| - 1], xs[|xs| - 1];
      assert xs == b + [x];
      TurnedAlike(b, u, size, threshold);
      TurnedSnoc(u, b, x);
      TurnedStep(PhaseOf(b, size, threshold), x, u, size, threshold);
      PhaseSnoc(b, x, size, threshold);
      PhaseSnoc(ScaleBy(u, b), Mul(u, x), size, threshold);
    }
  }

  lemma NoPhase(u: Cx, size: nat, threshold: real)
    ensures PhaseOf([], size, threshold) == Waiting([]) == Turned(Waiting([]), u)
  {
  }

  lemma PhaseSnoc(xs: seq<Cx>, x: Cx, size: nat, threshold: real)
    ensures PhaseOf(xs + [x], size, threshold) == Next(PhaseOf(xs, size, threshold), x, size, threshold)
  {
    hide Next;
    assert (xs + [x])[..|xs|] == xs;
  }

  /** A steady signal. */
  function Tone(n: nat, v: Cx): (s: seq<Cx>)
    ensures |s| == n
  {
    seq(n, _ => v)
  }

  lemma ToneSnoc(n: nat, v: Cx)
    ensures Tone(n + 1, v) == Tone(n, v) + [v] && Tone(0, v) == []
  {
  }

  function Total(n: nat, p: real): real {
    n as real * p
  }

  lemma TotalNext(n: nat, p: real)
    ensures Total(n + 1, p) == Total(n, p) + p && Total(0, p) == 0.0
    ensures n > 0 ==> Total(n, p) / n as real == p
  {
  }

  lemma {:induction false} TonePower(n: nat, v: Cx)
    ensures Power(Tone(n, v)) == Total(n, Size2(v))
  {
    hide *;
    if n > 0 {
      TonePower(n - 1, v);
      ToneSnoc(n - 1, v);
      PowerSnoc(Tone(n - 1, v), v);
      TotalNext(n - 1, Size2(v));
    } else {
      ToneSnoc(0, v);
      PowerSnoc([], v);
      TotalNext(0, Size2(v));
    }
  }

  lemma ToneLoud(n: nat, v: Cx, threshold: real)
    requires n > 0
    ensures Loud(Tone(n, v), threshold) <==> Size2(v) > threshold
  {
    hide Power, Total, Tone;
    TonePower(n, v);
    TotalNext(n, Size2(v));
  }

  lemma {:induction false} TonePhase(n: nat, v: Cx, size: nat, threshold: real)
    requires size > 0
    ensures PhaseOf(Tone(n, v), size, threshold)
         == if v == ZERO then Waiting([])
            else if n >= size && Size2(v) > threshold then Detected(Tone(n, v))
            else Waiting(Tone(n % size, v))
  {
    hide *;
    if n == 0 {
      ToneSnoc(0, v);
      NoPhase(v, size, threshold);
    } else {
      TonePhase(n - 1, v, size, threshold);
      ToneSnoc(n - 1, v);
      PhaseSnoc(Tone(n - 1, v), v, size, threshold);
      ToneStep(n - 1, v, size, threshold);
    }
  }

  lemma ToneStep(n: nat, v: Cx, size: nat, threshold: real)
    requires size > 0
    ensures var loud := Size2(v) > threshold;
            && Next(Waiting([]), ZERO, size, threshold) == Waiting([])
            && (v != ZERO && loud ==> Next(Detected(Tone(n, v)), v, size, threshold) == Detected(Tone(n + 1, v)))
            && (v != ZERO ==>
                  Next(Waiting(Tone(n % size, v)), v, size, threshold)
                  == if (n + 1) % size != 0 then Waiting(Tone((n + 1) % size, v))
                     else if loud then Detected(Tone(size, v)) else Waiting([]))
            && Tone(0, v) == []
  {
    hide Loud, Size2, Tone;
    var m := n % size;
    ToneSnoc(0, v);
    ToneSnoc(n, v);
    ToneSnoc(m, v);
    ToneLoud(size, v, threshold);
    Cyclic(n, size);
  }

  lemma Cyclic(n: nat, size: nat)
    requires size > 0
    ensures (n + 1) % size == if n % size + 1 == size then 0 else n % size + 1
    ensures n < size ==> n % size == n
  {
    var q, m := n / size, n % size;
    assert n == size * q + m;
    if m + 1 == size {
      assert n + 1 == size * (q + 1);
      RemainderUnique(n + 1, size, q + 1, 0);
    } else {
      RemainderUnique(n + 1, size, q, m + 1);
    }
  }

  /** A steady signal is detected exactly when it is not zero, its squared size is above the threshold and a
      window of it has been read. */
  lemma ToneDetectedExactly(n: nat, v: Cx, size: nat, threshold: real)
    requires size > 0
    ensures PhaseOf(Tone(n, v), size, threshold).Detected? <==> v != ZERO && Size2(v) > threshold && n >= size
  {
    hide *;
    TonePhase(n, v, size, threshold);
  }

  // ------------------------------------------------------------------ the block

  type Ratio = r: real | r > 0.0 witness 1.0

  /** How noise is made: the ratio of signal to noise power, the square root, and the unit noise the generator
      gives for release k; None when it gives up. */
  datatype Source = Source(ratio: Ratio, root: real -> real, gauss: nat -> Option<Cx>)

  function Size(r: real): (s: real)
    ensures s >= 0.0
  {
    if r >= 0.0 then r else -r
  }

  /** The deviation of the noise for a window. */
  function Level(window: seq<Cx>, src: Source): real {
    if window == [] then 0.0 else src.root(Size(MeanOf(window) / src.ratio))
  }

  /** Where the window begins whose level release k takes; the preamble takes that of the first window after it. */
  function WindowStart(k: nat, preamble: nat, size: nat): nat
    requires size > 0
  {
    if k < preamble + size then preamble else preamble + size * ((k - preamble) / size)
  }

  function LastWindow(kept: seq<Cx>, size: nat): seq<Cx> {
    if size <= |kept| then kept[|kept| - size..] else kept
  }

  /** The noise added to release k of the samples kept. */
  ghost function NoiseOf(kept: seq<Cx>, preamble: nat, size: nat, src: Source, k: nat): Cx
    requires size > 0
  {
    var s := WindowStart(k, preamble, size);
    Noise(if s + size <= |kept| then Level(kept[s..s + size], src) else 0.0, src.gauss, k)
  }

  /** Samples with noise of deviation dev added, the one the generator gave for releases from, from + 1, ... */
  ghost function Noisy(clean: seq<Cx>, dev: real, gauss: nat -> Option<Cx>, from: nat): (y: seq<Cx>)
    ensures |y| == |clean|
  {
    seq(|clean|, i requires 0 <= i < |clean| => Add(clean[i], Noise(dev, gauss, from + i)))
  }

  ghost function Noise(dev: real, gauss: nat -> Option<Cx>, k: nat): Cx {
    match gauss(k)
    case None => ZERO
    case Some(y) => Scale(dev, y)
  }

  /** What one more sample releases, when `from` noisy samples are already out. */
  ghost function Emission(before: Phase, x: Cx, from: nat, preamble: nat, size: nat, src: Source): seq<Cx>
    requires size > 0
  {
    match before
    case Waiting(_) => if x == ZERO then [ZERO] else []
    case Detected(kept) =>
      var to := Released(|kept| + 1, preamble, size);
      var all := kept + [x];
      if from <= to <= |all| then Noisy(all[from..to], Level(LastWindow(all, size), src), src.gauss, from) else []
  }

  ghost function ReleasedIn(p: Phase, preamble: nat, size: nat): nat
    requires size > 0
  {
    if p.Waiting? then 0 else Released(|p.kept|, preamble, size)
  }

  /** Everything a block that starts silent puts out for the samples xs. */
  ghost function RunOutput(xs: seq<Cx>, preamble: nat, size: nat, threshold: real, src: Source): seq<Cx>
    requires size > 0
  {
    if xs == [] then []
    else
      var before := xs[..|xs| - 1];
      var p := PhaseOf(before, size, threshold);
      RunOutput(before, preamble, size, threshold, src)
      + Emission(p, xs[|xs| - 1], ReleasedIn(p, preamble, size), preamble, size, src)
  }

  /** Zero samples read before detection. */
  ghost function Quiet(xs: seq<Cx>, size: nat, threshold: real): nat {
    if xs == [] then 0
    else
      var before := xs[..|xs| - 1];
      Quiet(before, size, threshold)
      + (if PhaseOf(before, size, threshold).Waiting? && xs[|xs| - 1] == ZERO then 1 else 0)
  }

  function Take(s: seq<Cx>, k: nat): (t: seq<Cx>) {
    if k <= |s| then s[..k] else s
  }

  /** The noisy part of the output: the first released samples of what was kept, each with its noise. */
  ghost function Visible(p: Phase, preamble: nat, size: nat, src: Source): seq<Cx>
    requires size > 0
  {
    if p.Waiting? then []
    else
      var clean := Take(p.kept, ReleasedIn(p, preamble, size));
      seq(|clean|, i requires 0 <= i < |clean| => Add(clean[i], NoiseOf(p.kept, preamble, size, src, i)))
  }

  lemma Parts(n: nat, size: nat) returns (q: nat, c: nat)
    requires size > 0
    ensures n == size * q + c && c < size
  {
    q, c := n / size, n % size;
  }

  lemma ShortRelease(n: nat, preamble: nat, size: nat)
    requires 0 < size && n < preamble + size
    ensures Released(n, preamble, size) == 0
  {
  }

  lemma ReleasedMonotone(n: nat, preamble: nat, size: nat)
    requires 1 <= size < preamble
    ensures Released(n, preamble, size) <= Released(n + 1, preamble, size) <= n + 1
  {
    hide *;
    Backlog(n + 1, preamble, size);
    if n < preamble {
      ShortRelease(n, preamble, size);
      ShortRelease(n + 1, preamble, size);
    } else {
      var q, c := Parts(n - preamble, size);
      ReleaseStep(preamble, size, q, c);
      if c + 1 < size {
        ReleaseStep(preamble, size, q, c + 1);
      }
    }
  }

  lemma QuietEmission(window: seq<Cx>, x: Cx, preamble: nat, size: nat, threshold: real, src: Source)
    requires 1 <= size < preamble && |window| < size
    ensures ReleasedIn(Waiting(window), preamble, size) == 0 && Visible(Waiting(window), preamble, size, src) == []
    ensures Visible(Next(Waiting(window), x, size, threshold), preamble, size, src) == []
    ensures Emission(Waiting(window), x, 0, preamble, size, src) == if x == ZERO then [ZERO] else []
  {
    hide Loud, Noisy, NoiseOf;
    assert Take(window + [x], 0) == [];
  }

  lemma EmissionExtends(p: Phase, x: Cx, preamble: nat, size: nat, threshold: real, src: Source)
    requires 1 <= size < preamble && (p.Waiting? ==> |p.window| < size)
    ensures var e := Emission(p, x, ReleasedIn(p, preamble, size), preamble, size, src);
            if p.Waiting? then Visible(p, preamble, size, src) == []
                               && Visible(Next(p, x, size, threshold), preamble, size, src) == []
                               && e == (if x == ZERO then [ZERO] else [])
            else Visible(Next(p, x, size, threshold), preamble, size, src) == Visible(p, preamble, size, src) + e
  {
    hide *;
    match p {
      case Waiting(window) =>
        QuietEmission(window, x, preamble, size, threshold, src);
      case Detected(kept) =>
        KeptEmission(kept, x, Released(|kept|, preamble, size), Released(|kept| + 1, preamble, size), preamble, size,
                     threshold, src);
    }
  }

  lemma KeptEmission(kept: seq<Cx>, x: Cx, from: nat, to: nat, preamble: nat, size: nat, threshold: real,
                     src: Source)
    requires 1 <= size < preamble
    requires from == Released(|kept|, preamble, size) && to == Released(|kept| + 1, preamble, size)
    ensures ReleasedIn(Detected(kept), preamble, size) == from
    ensures Visible(Next(Detected(kept), x, size, threshold), preamble, size, src)
         == Visible(Detected(kept), preamble, size, src) + Emission(Detected(kept), x, from, preamble, size, src)
  {
    hide Noisy, Released, Loud, NoiseOf, Level, LastWindow;
    ReleasedMonotone(|kept|, preamble, size);
    Backlog(|kept|, preamble, size);
    var all := kept + [x];
    var dev := Level(LastWindow(all, size), src);
    NoisyLength(all[from..to], dev, src.gauss, from);
    var before, after := Visible(Detected(kept), preamble, size, src), Visible(Detected(all), preamble, size, src);
    forall i: nat | i < to
      ensures after[i] == if i < from then before[i] else Noisy(all[from..to], dev, src.gauss, from)[i - from]
    {
      if i < from {
        OldNoise(kept, x, preamble, size, src, i);
      } else {
        NewNoise(kept, x, preamble, size, src, i);
        NoisyCell(all[from..to], dev, src.gauss, from, i - from);
      }
    }
  }

  /** Where the window of a release lies: before everything released, and the new one at the very end. */
  lemma WindowInside(n: nat, k: nat, preamble: nat, size: nat)
    requires 1 <= size < preamble
    ensures k < Released(n, preamble, size) ==> WindowStart(k, preamble, size) + size <= n
    ensures Released(n, preamble, size) <= k < Released(n + 1, preamble, size) ==>
              WindowStart(k, preamble, size) + size == n + 1
  {
    if n >= preamble {
      var q, c := Parts(n - preamble, size);
      ReleaseStep(preamble, size, q, c);
      if c + 1 < size {
        ReleaseStep(preamble, size, q, c + 1);
      }
      if k >= preamble + size {
        var j, d := Parts(k - preamble, size);
        QuotientUnique(k - preamble, size, j, d);
        hide Released;
        if j < q {
          NextMultiple(size, j, q);
        } else if j > q {
          NextMultiple(size, q, j);
        }
      } else if q > 0 {
        NextMultiple(size, 0, q);
      }
    }
  }

  lemma OldNoise(kept: seq<Cx>, x: Cx, preamble: nat, size: nat, src: Source, k: nat)
    requires 1 <= size < preamble && k < Released(|kept|, preamble, size)
    ensures NoiseOf(kept + [x], preamble, size, src, k) == NoiseOf(kept, preamble, size, src, k)
  {
    hide Released, WindowStart, Level;
    WindowInside(|kept|, k, preamble, size);
    var s := WindowStart(k, preamble, size);
    assert (kept + [x])[s..s + size] == kept[s..s + size];
  }

  lemma NewNoise(kept: seq<Cx>, x: Cx, preamble: nat, size: nat, src: Source, k: nat)
    requires 1 <= size < preamble
    requires Released(|kept|, preamble, size) <= k < Released(|kept| + 1, preamble, size)
    ensures NoiseOf(kept + [x], preamble, size, src, k)
         == Noise(Level(LastWindow(kept + [x], size), src), src.gauss, k)
  {
    hide Released, WindowStart, Level;
    WindowInside(|kept|, k, preamble, size);
    var s, all := WindowStart(k, preamble, size), kept + [x];
    assert all[s..s + size] == all[|all| - size..];
  }

  /** The whole output: the zeros of the silence, then a prefix of the kept samples, in order and each
      with the noise of its window; the backlog is less than a preamble and a window. */
  lemma {:induction false} RunOutputIs(xs: seq<Cx>, preamble: nat, size: nat, threshold: real, src: Source)
    requires 1 <= size < preamble
    ensures var p := PhaseOf(xs, size, threshold);
            && RunOutput(xs, preamble, size, threshold, src)
               == Zeros(Quiet(xs, size, threshold)) + Visible(p, preamble, size, src)
            && (p.Detected? ==> var k := ReleasedIn(p, preamble, size); k <= |p.kept| <= k + preamble + size - 1)
  {
    hide *;
    BacklogOf(PhaseOf(xs, size, threshold), preamble, size);
    if xs == [] {
      RunOutputEmpty(xs, preamble, size, threshold, src);
    } else {
      var before, x := xs[..|xs| - 1], xs[|xs| - 1];
      RunOutputIs(before, preamble, size, threshold, src);
      ShortWindow(before, size, threshold);
      EmissionExtends(PhaseOf(before, size, threshold), x, preamble, size, threshold, src);
      assert xs == before + [x];
      RunOutputSnoc(before, x, preamble, size, threshold, src);
      QuietSnoc(before, x, size, threshold);
    }
  }

  /** What each release adds to the sample kept is the noise of its window, and nothing else. */
  lemma ReleasedWithNoise(xs: seq<Cx>, preamble: nat, size: nat, threshold: real, src: Source, i: nat)
    requires 1 <= size < preamble && PhaseOf(xs, size, threshold).Detected?
    requires i < ReleasedIn(PhaseOf(xs, size, threshold), preamble, size)
    ensures var y, q := RunOutput(xs, preamble, size, threshold, src), Quiet(xs, size, threshold);
            var kept := PhaseOf(xs, size, threshold).kept;
            && i < |kept| && |y| == q + ReleasedIn(PhaseOf(xs, size, threshold), preamble, size)
            && Sub(y[q + i], kept[i]) == NoiseOf(kept, preamble, size, src, i)
  {
    hide *;
    RunOutputIs(xs, preamble, size, threshold, src);
    ZerosLength(Quiet(xs, size, threshold));
    VisibleAt(PhaseOf(xs, size, threshold), preamble, size, src, i);
  }

  lemma ZerosLength(n: nat)
    ensures |Zeros(n)| == n
  {
  }

  lemma VisibleAt(p: Phase, preamble: nat, size: nat, src: Source, i: nat)
    requires size > 0 && p.Detected? && i < ReleasedIn(p, preamble, size) <= |p.kept|
    ensures |Visible(p, preamble, size, src)| == ReleasedIn(p, preamble, size)
    ensures Sub(Visible(p, preamble, size, src)[i], p.kept[i]) == NoiseOf(p.kept, preamble, size, src, i)
  {
    hide NoiseOf, ReleasedIn;
  }

  lemma ScaledSize(dev: real, g: Cx)
    ensures Size2(Scale(dev, g)) == (dev * dev) * Size2(g)
  {
  }

  lemma {:induction false} PowerNonNegative(w: seq<Cx>)
    ensures Power(w) >= 0.0
  {
    if w != [] {
      PowerNonNegative(w[..|w| - 1]);
      SizePositive(w[|w| - 1]);
    }
  }

  lemma LevelSquared(window: seq<Cx>, src: Source)
    requires window != [] && forall p :: p >= 0.0 ==> src.root(p) * src.root(p) == p
    ensures src.ratio * (Level(window, src) * Level(window, src)) == MeanOf(window)
  {
    PowerNonNegative(window);
    QuotientSign(Power(window), |window| as real);
    QuotientSign(MeanOf(window), src.ratio);
    hide Power;
  }

  lemma QuotientSign(a: real, b: real)
    requires a >= 0.0 && b > 0.0
    ensures a / b >= 0.0 && b * (a / b) == a
  {
  }

  /** The ratio asked for: with a true square root, the squared size of the noise added to a sample, times the ratio,
      is the mean power of the sample's window times that of the unit noise drawn for it. */
  lemma RatioExactly(xs: seq<Cx>, preamble: nat, size: nat, threshold: real, src: Source, i: nat)
    requires 1 <= size < preamble && PhaseOf(xs, size, threshold).Detected?
    requires i < ReleasedIn(PhaseOf(xs, size, threshold), preamble, size) && src.gauss(i).Some?
    requires forall p :: p >= 0.0 ==> src.root(p) * src.root(p) == p
    ensures var y, q := RunOutput(xs, preamble, size, threshold, src), Quiet(xs, size, threshold);
            var kept, s := PhaseOf(xs, size, threshold).kept, WindowStart(i, preamble, size);
            && i < |kept| && q + i < |y| && s + size <= |kept|
            && src.ratio * Size2(Sub(y[q + i], kept[i])) == MeanOf(kept[s..s + size]) * Size2(src.gauss(i).value)
  {
    hide RunOutput, Quiet, PhaseOf, Released, WindowStart, MeanOf, Size2, Level, Scale, Sub;
    var kept, s := PhaseOf(xs, size, threshold).kept, WindowStart(i, preamble, size);
    ReleasedWithNoise(xs, preamble, size, threshold, src, i);
    WindowInside(|kept|, i, preamble, size);
    var w, g := kept[s..s + size], src.gauss(i).value;
    LevelSquared(w, src);
    ScaledSize(Level(w, src), g);
    Regrouped(src.ratio, Level(w, src), Size2(g));
  }

  lemma Regrouped(ratio: real, dev: real, g: real)
    ensures ratio * ((dev * dev) * g) == (ratio * (dev * dev)) * g
  {
  }

  lemma BacklogOf(p: Phase, preamble: nat, size: nat)
    requires size > 0
    ensures p.Detected? ==> var k := ReleasedIn(p, preamble, size); k <= |p.kept| <= k + preamble + size - 1
  {
    if p.Detected? {
      Backlog(|p.kept|, preamble, size);
    }
  }

  lemma RunOutputEmpty(xs: seq<Cx>, preamble: nat, size: nat, threshold: real, src: Source)
    requires xs == [] && size > 0
    ensures RunOutput(xs, preamble, size, threshold, src) == [] == Zeros(Quiet(xs, size, threshold))
    ensures Visible(PhaseOf(xs, size, threshold), preamble, size, src) == []
  {
  }

  lemma ShortWindow(xs: seq<Cx>, size: nat, threshold: real)
    requires size > 0
    ensures var p := PhaseOf(xs, size, threshold); p.Waiting? ==> |p.window| < size
  {
    DetectedFrom(xs, size, threshold);
  }

  lemma QuietSnoc(xs: seq<Cx>, x: Cx, size: nat, threshold: real)
    ensures Zeros(Quiet(xs + [x], size, threshold))
         == Zeros(Quiet(xs, size, threshold))
            + (if PhaseOf(xs, size, threshold).Waiting? && x == ZERO then [ZERO] else [])
  {
    assert (xs + [x])[..|xs|] == xs;
  }

  class CxSetSnr {
    const preambleSize: nat
    const windowSize: nat
    const threshold: real
    const src: Source
    const buffer: array<Cx>
    const wbuffer: array<Cx>
    var windowCount: nat
    var preambleCount: nat
    var theState: Mode
    var dumpPreamble: bool
    var dumpWindow: bool
    var windowFull: bool
    /** How many noisy samples have been released: the position of the noise generator. */
    var sent: nat
    /** The deviation of the noise, set by every full window once the preamble is over. */
    var dev: real
    ghost var phase: Phase
    ghost var seen: seq<Cx>

    ghost predicate Shaped() {
      && 1 <= windowSize < preambleSize
      && buffer.Length == preambleSize && wbuffer.Length == windowSize && buffer != wbuffer
    }

    ghost predicate Valid()
      reads this, buffer, wbuffer
    {
      Shaped() && !dumpWindow &&
      match phase
      case Waiting(window) =>
        && theState == Silence && dumpPreamble && sent == 0 && preambleCount == windowSize
        && windowCount == |window| < windowSize && wbuffer[..windowCount] == window
      case Detected(kept) =>
        && |kept| >= windowSize && sent == Released(|kept|, preambleSize, windowSize)
        && if |kept| < preambleSize then
             theState == Preamble && dumpPreamble && windowCount == 0
             && preambleCount == |kept| && buffer[..preambleCount] == kept
           else
             Held(kept) && windowCount < windowSize
    }

    /** After the preamble: what is kept and not released is in the two buffers. */
    ghost predicate Held(kept: seq<Cx>)
      reads this`windowCount, this`preambleCount, this`theState, this`dumpPreamble, this`dumpWindow, this`sent
      reads buffer, wbuffer
    {
      && Shaped() && !dumpWindow && theState == Symbols && windowCount <= windowSize && preambleSize <= |kept|
      && |kept| == sent + windowCount + (if dumpPreamble then preambleSize else 0)
      && wbuffer[..windowCount] == kept[|kept| - windowCount..]
      && preambleCount == (if dumpPreamble then 0 else preambleSize)
      && (dumpPreamble ==> sent == 0 && buffer[..] == kept[..preambleSize])
    }

    constructor (snrPreamble: nat, snrWindow: nat, silence: real, source: Source)
      requires 1 <= snrWindow < snrPreamble
      ensures Valid() && fresh(buffer) && fresh(wbuffer) && phase == Waiting([]) && seen == []
      ensures preambleSize == snrPreamble && windowSize == snrWindow && threshold == silence && src == source
    {
      preambleSize, windowSize, threshold, src := snrPreamble, snrWindow, silence, source;
      buffer := new Cx[snrPreamble](_ => ZERO);
      wbuffer := new Cx[snrWindow](_ => ZERO);
      windowCount, preambleCount := 0, snrWindow;
      theState, dumpPreamble, dumpWindow, windowFull := Silence, true, false, false;
      phase, sent, dev, seen := Waiting([]), 0, 0.0, [];
    }

    /** The mean power of the full window. */
    method MeanPower() returns (mean: real)
      requires Shaped()
      ensures wbuffer[..] != [] && mean == MeanOf(wbuffer[..])
    {
      var sum := 0.0;
      var i := 0;
      while i < windowSize
        invariant 0 <= i <= windowSize && sum == Power(wbuffer[..i])
      {
        var v := wbuffer[i];
        sum := sum + (v.re * v.re + v.im * v.im);
        assert wbuffer[..i + 1][..i] == wbuffer[..i];
        i := i + 1;
      }
      assert wbuffer[..windowSize] == wbuffer[..];
      return sum / windowSize as real;
    }

    /** Puts out the preamble buffer: each noise value is drawn before its cell is asked for. */
    method ReleasePreamble(out: OutBuffer<Cx>) returns (status: int)
      modifies this`sent, this`preambleCount, out
      ensures status == 0 || status == 2 || status == 99
      ensures status == 0 ==> sent == old(sent) + buffer.Length && preambleCount == old(preambleCount) + buffer.Length
                              && out.cells == old(out.cells) + Noisy(buffer[..], dev, src.gauss, old(sent))
      ensures status != 0 ==> Partly(old(out.cells), Noisy(buffer[..], dev, src.gauss, old(sent)), out.cells)
    {
      hide Add, Noisy, Noise, Partly;
      var i := 0;
      ghost var cells, from, all := buffer[..], sent, Noisy(buffer[..], dev, src.gauss, sent);
      NoisyLength(cells, dev, src.gauss, from);
      while i < buffer.Length
        invariant 0 <= i <= buffer.Length && sent == from + i && preambleCount == old(preambleCount) + i
        invariant out.cells == old(out.cells) + all[..i]
      {
        NoisyCell(cells, dev, src.gauss, from, i);
        PartSoFar(old(out.cells), all, i);
        match src.gauss(sent) {
          case None => return 2;
          case Some(y) =>
            var full := out.Put(Add(buffer[i], Scale(dev, y)));
            if full {
              return 99;
            }
        }
        sent := sent + 1;
        preambleCount := preambleCount + 1;
        i := i + 1;
      }
      return 0;
    }

    /** Puts out the window buffer: each cell is asked for before its noise value is drawn, so when the
        generator gives up one cell is left as the kernel handed it out. */
    method ReleaseWindow(out: OutBuffer<Cx>) returns (status: int)
      modifies this`sent, out
      ensures status == 0 || status == 2 || status == 99
      ensures status == 0 ==> sent == old(sent) + wbuffer.Length
                              && out.cells == old(out.cells) + Noisy(wbuffer[..], dev, src.gauss, old(sent))
      ensures status == 99 ==> Partly(old(out.cells), Noisy(wbuffer[..], dev, src.gauss, old(sent)), out.cells)
      ensures status == 2 ==>
                out.cells != []
                && Partly(old(out.cells), Noisy(wbuffer[..], dev, src.gauss, old(sent)), out.cells[..|out.cells| - 1])
    {
      hide Add, Noisy, Noise, Partly;
      var i := 0;
      ghost var cells, from, all := wbuffer[..], sent, Noisy(wbuffer[..], dev, src.gauss, sent);
      NoisyLength(cells, dev, src.gauss, from);
      while i < wbuffer.Length
        invariant 0 <= i <= wbuffer.Length && sent == from + i
        invariant out.cells == old(out.cells) + all[..i]
      {
        NoisyCell(cells, dev, src.gauss, from, i);
        PartSoFar(old(out.cells), all, i);
        var stale: Cx := *;
        var full := out.Put(stale);
        if full {
          return 99;
        }
        match src.gauss(sent) {
          case None => return 2;
          case Some(y) => out.Write(Add(wbuffer[i], Scale(dev, y)));
        }
        sent := sent + 1;
        i := i + 1;
      }
      return 0;
    }

    /** One sample of the loop. */
    method Process(x: Cx, out: OutBuffer<Cx>) returns (status: int)
      requires Valid()
      modifies this`windowCount, this`preambleCount, this`theState, this`dumpPreamble, this`dumpWindow,
               this`windowFull, this`phase, this`sent, this`dev, buffer, wbuffer, out
      ensures phase == Next(old(phase), x, windowSize, threshold)
      ensures status == 0 || status == 2 || status == 99
      ensures var emitted := Emission(old(phase), x, old(sent), preambleSize, windowSize, src);
              if status == 0 then Valid() && out.cells == old(out.cells) + emitted
              else BrokenOff(old(out.cells), emitted, out.cells)
    {
      if x == ZERO && theState == Silence {
        var full := out.Put(x);
        return if full then 99 else 0;
      }
      match theState {
        case Silence => Listen(x); return 0;
        case Preamble => Collect(x); return 0;
        case Symbols => status := Stream(x, out);
      }
    }

    ghost predicate Consistent()
      reads this, buffer, wbuffer
    {
      Valid() && phase == PhaseOf(seen, windowSize, threshold)
    }

    /** One visit. The output stays what `RunOutput` says of every sample seen so far; a refused cell
        (99) or an exhausted noise generator (2) ends the run part of the way through one release. */
    method MainCode(inp: InBuffer<Cx>, out: OutBuffer<Cx>) returns (status: int)
      requires Consistent()
      modifies this, buffer, wbuffer, inp, out
      ensures status == 0 || status == 2 || status == 99
      ensures old(seen) <= seen && old(inp.pending) == seen[|old(seen)|..] + inp.pending
      ensures status == 0 ==> Consistent() && inp.pending == []
      ensures var y0 := RunOutput(old(seen), preambleSize, windowSize, threshold, src);
              var y := RunOutput(seen, preambleSize, windowSize, threshold, src);
              && y0 <= y
              && if status == 0 then out.cells == old(out.cells) + y[|y0|..]
                 else BrokenOff(old(out.cells), y[|y0|..], out.cells)
    {
      hide *;
      HasWindow();
      ghost var s0 := seen;
      ghost var y0 := RunOutput(s0, preambleSize, windowSize, threshold, src);
      while inp.pending != []
        invariant Consistent()
        invariant s0 <= seen && old(inp.pending) == seen[|s0|..] + inp.pending
        invariant y0 <= RunOutput(seen, preambleSize, windowSize, threshold, src)
        invariant out.cells == old(out.cells) + RunOutput(seen, preambleSize, windowSize, threshold, src)[|y0|..]
        decreases |inp.pending|
      {
        var x := inp.Take();
        ghost var y := RunOutput(seen, preambleSize, windowSize, threshold, src);
        WhereItStands(x);
        Continued(old(out.cells), y, |y0|, Emission(phase, x, sent, preambleSize, windowSize, src));
        status := Process(x, out);
        seen := seen + [x];
        if status != 0 {
          return;
        }
        StillConsistent();
      }
      return 0;
    }

    lemma WhereItStands(x: Cx)
      requires Consistent()
      ensures Valid() && PhaseOf(seen + [x], windowSize, threshold) == Next(phase, x, windowSize, threshold)
      ensures RunOutput(seen + [x], preambleSize, windowSize, threshold, src)
           == RunOutput(seen, preambleSize, windowSize, threshold, src)
              + Emission(phase, x, sent, preambleSize, windowSize, src)
    {
      hide Next, Loud, Noisy, Released, Emission, RunOutput, PhaseOf, Power;
      RunOutputSnoc(seen, x, preambleSize, windowSize, threshold, src);
    }

    lemma HasWindow()
      requires Consistent()
      ensures windowSize > 0
    {
    }

    lemma StillConsistent()
      requires Valid() && phase == PhaseOf(seen, windowSize, threshold)
      ensures Consistent()
    {
    }

    /** A non-zero sample while silent. */
    method Listen(x: Cx)
      requires Valid() && phase.Waiting? && x != ZERO
      modifies this`windowCount, this`theState, this`windowFull, this`phase, buffer, wbuffer
      ensures Valid() && phase == Next(old(phase), x, windowSize, threshold)
    {
      hide Power, Released, Noisy;
      ghost var window := phase.window;
      wbuffer[windowCount] := x;
      windowCount := windowCount + 1;
      assert wbuffer[..windowCount] == window + [x];
      phase := Next(phase, x, windowSize, threshold);
      if windowCount == windowSize {
        windowFull := true;
        assert wbuffer[..] == window + [x];
        var sum := MeanPower();
        if sum > threshold {
          theState := Preamble;
          CopyWindow();
          ShortRelease(windowSize, preambleSize, windowSize);
        }
        windowCount := 0;
      }
    }

    /** The detected window becomes the beginning of the preamble. */
    method CopyWindow()
      requires Shaped()
      modifies buffer
      ensures buffer[..windowSize] == wbuffer[..]
    {
      var i := 0;
      while i < windowSize
        invariant 0 <= i <= windowSize && buffer[..i] == wbuffer[..i]
      {
        buffer[i] := wbuffer[i];
        i := i + 1;
      }
      assert wbuffer[..windowSize] == wbuffer[..];
    }

    /** A sample of the preamble. */
    method Collect(x: Cx)
      requires Valid() && phase.Detected? && theState == Preamble
      modifies this`windowCount, this`preambleCount, this`theState, this`phase, buffer, wbuffer
      ensures Valid() && phase == Next(old(phase), x, windowSize, threshold)
      ensures sent == old(sent) == 0 == Released(|phase.kept|, preambleSize, windowSize)
    {
      hide Power, Released, Noisy, Loud;
      ShortRelease(|phase.kept|, preambleSize, windowSize);
      ShortRelease(|phase.kept| + 1, preambleSize, windowSize);
      wbuffer[windowCount] := x;
      windowCount := windowCount + 1;
      buffer[preambleCount] := x;
      preambleCount := preambleCount + 1;
      phase := Next(phase, x, windowSize, threshold);
      assert buffer[..preambleCount] == phase.kept;
      if preambleCount == preambleSize {
        theState := Symbols;
        preambleCount := 0;
        assert buffer[..] == phase.kept;
      }
      windowCount := 0;
    }

    /** A sample after the preamble goes into the window. */
    method Store(x: Cx)
      requires phase.Detected? && Held(phase.kept) && windowCount < windowSize
      modifies this`windowCount, this`phase, wbuffer
      ensures phase == Detected(old(phase.kept) + [x]) && windowCount == old(windowCount) + 1
      ensures Held(phase.kept)
    {
      ghost var kept := phase.kept;
      wbuffer[windowCount] := x;
      windowCount := windowCount + 1;
      phase := Detected(kept + [x]);
    }

    /** A sample after the preamble: stored, and everything released when its window is full. */
    method Stream(x: Cx, out: OutBuffer<Cx>) returns (status: int)
      requires Valid() && theState == Symbols
      modifies this`windowCount, this`preambleCount, this`dumpPreamble, this`dumpWindow, this`windowFull, this`phase,
               this`sent, this`dev, wbuffer, out
      ensures phase == Detected(old(phase.kept) + [x])
      ensures status == 0 || status == 2 || status == 99
      ensures var emitted := Emission(old(phase), x, old(sent), preambleSize, windowSize, src);
              if status == 0 then Valid() && out.cells == old(out.cells) + emitted
              else BrokenOff(old(out.cells), emitted, out.cells)
    {
      hide *;
      InSymbols();
      StreamAt(|phase.kept|, preambleSize, windowSize, sent, windowCount, dumpPreamble);
      EmissionAt(phase.kept, x, sent, preambleSize, windowSize, src);
      Store(x);
      status := 0;
      if windowCount == windowSize {
        status := Flush(out);
        if status != 0 {
          return;
        }
      } else {
        assert out.cells == old(out.cells) + [];
      }
      BackInSymbols();
    }

    lemma InSymbols()
      requires Valid() && theState == Symbols
      ensures phase.Detected? && Held(phase.kept) && windowCount < windowSize
      ensures 1 <= windowSize < preambleSize <= |phase.kept|
      ensures sent == Released(|phase.kept|, preambleSize, windowSize)
      ensures |phase.kept| == sent + windowCount + (if dumpPreamble then preambleSize else 0)
      ensures dumpPreamble ==> sent == 0
    {
      hide Released;
    }

    lemma BackInSymbols()
      requires phase.Detected? && Held(phase.kept) && windowCount < windowSize
      requires windowSize > 0 && sent == Released(|phase.kept|, preambleSize, windowSize)
      ensures Valid()
    {
      hide Released;
    }

    /** A full window: its noise is set, and everything held is put out. */
    method Flush(out: OutBuffer<Cx>) returns (status: int)
      requires phase.Detected? && Held(phase.kept) && windowCount == windowSize
      modifies this`windowCount, this`preambleCount, this`dumpPreamble, this`dumpWindow, this`windowFull, this`sent,
               this`dev, out
      ensures status == 0 || status == 2 || status == 99
      ensures var kept := phase.kept;
              var all := Noisy(kept[old(sent)..], Level(LastWindow(kept, windowSize), src), src.gauss, old(sent));
              if status == 0 then
                Held(kept) && sent == |kept| && windowCount == 0 && out.cells == old(out.cells) + all
              else BrokenOff(old(out.cells), all, out.cells)
    {
      hide Noisy, BrokenOff, Partly, Level, LastWindow;
      windowFull, dumpWindow, windowCount := true, true, 0;
      assert wbuffer[..] == wbuffer[..windowSize];
      SetLevel(phase.kept);
      status := Dump(out, phase.kept);
    }

    /** The full window sets the deviation of its noise. */
    method SetLevel(ghost kept: seq<Cx>)
      requires Shaped() && windowSize <= |kept| && wbuffer[..] == kept[|kept| - windowSize..]
      modifies this`dev
      ensures dev == Level(LastWindow(kept, windowSize), src)
    {
      hide Level, LastWindow, MeanOf;
      var sum := MeanPower();
      dev := src.root(Size(sum / src.ratio));
      LevelIs(kept, wbuffer[..], src);
    }

    /** Releases the preamble, if it is still held, and then the full window. */
    method Dump(out: OutBuffer<Cx>, ghost kept: seq<Cx>) returns (status: int)
      requires Shaped() && dumpWindow && windowFull && |kept| >= windowSize
      requires wbuffer[..] == kept[|kept| - windowSize..]
      requires if dumpPreamble then
                 sent == 0 && |kept| == preambleSize + windowSize && buffer[..] == kept[..preambleSize]
               else |kept| == sent + windowSize
      requires preambleCount == if dumpPreamble then 0 else preambleSize
      modifies this`dumpPreamble, this`dumpWindow, this`windowFull, this`preambleCount, this`sent, out
      ensures status == 0 || status == 2 || status == 99
      ensures var all := Noisy(kept[old(sent)..], dev, src.gauss, old(sent));
              if status == 0 then
                sent == |kept| && !dumpPreamble && !dumpWindow && preambleCount == preambleSize
                && out.cells == old(out.cells) + all
              else BrokenOff(old(out.cells), all, out.cells)
    {
      hide Noisy;
      if dumpPreamble && dumpWindow {
        dumpPreamble := false;
        assert kept[0..] == buffer[..] + wbuffer[..];
        NoisyConcat(buffer[..], wbuffer[..], dev, src.gauss, 0);
        status := ReleasePreamble(out);
        if status != 0 {
          return;
        }
      }
      if dumpWindow && windowFull {
        dumpWindow, windowFull := false, false;
        status := ReleaseWindow(out);
      }
    }

    /** The counters of the block are those of the control state machine, in every reachable state. */
    lemma CountersAgree()
      requires Consistent()
      ensures CountersOf(seen, preambleSize, windowSize, threshold)
           == Counters(theState, wbuffer[..windowCount], preambleCount, dumpPreamble)
    {
      hide PhaseOf, CountersOf, CountersFor, Released, Power, Loud;
      CountersArePhase(seen, preambleSize, windowSize, threshold);
      match phase {
        case Waiting(window) =>
          CountersWaiting(window, preambleSize, windowSize);
        case Detected(kept) =>
          if |kept| < preambleSize {
            CountersInPreamble(kept, preambleSize, windowSize);
          } else {
            CountersInSymbols(kept, preambleSize, windowSize, windowCount, dumpPreamble);
          }
      }
    }
  }

  lemma EmissionAt(kept: seq<Cx>, x: Cx, from: nat, preamble: nat, size: nat, src: Source)
    requires size > 0
    ensures var to := Released(|kept| + 1, preamble, size);
            && (to == from <= |kept| ==> Emission(Detected(kept), x, from, preamble, size, src) == [])
            && (from <= to == |kept| + 1 ==>
                  Emission(Detected(kept), x, from, preamble, size, src)
                  == Noisy((kept + [x])[from..], Level(LastWindow(kept + [x], size), src), src.gauss, from))
  {
    hide Released, Level, LastWindow;
    assert (kept + [x])[..|kept| + 1] == kept + [x];
  }

  lemma RunOutputSnoc(xs: seq<Cx>, x: Cx, preamble: nat, size: nat, threshold: real, src: Source)
    requires size > 0
    ensures var p := PhaseOf(xs, size, threshold);
            && PhaseOf(xs + [x], size, threshold) == Next(p, x, size, threshold)
            && RunOutput(xs + [x], preamble, size, threshold, src)
               == RunOutput(xs, preamble, size, threshold, src)
                  + Emission(p, x, ReleasedIn(p, preamble, size), preamble, size, src)
  {
    assert (xs + [x])[..|xs|] == xs;
    hide Next, Emission;
  }

  lemma NoisyConcat(a: seq<Cx>, b: seq<Cx>, dev: real, gauss: nat -> Option<Cx>, from: nat)
    ensures Noisy(a + b, dev, gauss, from) == Noisy(a, dev, gauss, from) + Noisy(b, dev, gauss, from + |a|)
  {
    hide Add;
  }

  lemma NoisyLength(clean: seq<Cx>, dev: real, gauss: nat -> Option<Cx>, from: nat)
    ensures |Noisy(clean, dev, gauss, from)| == |clean|
  {
  }

  /** Release number k puts out its sample with noise value k, scaled, added to it. */
  lemma NoisyCell(clean: seq<Cx>, dev: real, gauss: nat -> Option<Cx>, from: nat, i: nat)
    requires i < |clean|
    ensures Noisy(clean, dev, gauss, from)[i] == Add(clean[i], Noise(dev, gauss, from + i))
    ensures gauss(from + i).Some? ==> Noise(dev, gauss, from + i) == Scale(dev, gauss(from + i).value)
  {
    hide Add;
  }

  lemma PartSoFar(before: seq<Cx>, all: seq<Cx>, i: nat)
    requires i < |all|
    ensures Partly(before, all, before + all[..i]) && (before + all[..i]) + [all[i]] == before + all[..i + 1]
  {
  }

  lemma LevelIs(kept: seq<Cx>, window: seq<Cx>, src: Source)
    requires window != [] && |window| <= |kept| && window == kept[|kept| - |window|..]
    ensures Level(LastWindow(kept, |window|), src) == src.root(Size(MeanOf(window) / src.ratio))
  {
  }

  /** The counters after n kept samples say what the next one releases. */
  lemma StreamAt(n: nat, preamble: nat, size: nat, sent: nat, count: nat, held: bool)
    requires 1 <= size < preamble <= n && count < size && sent == Released(n, preamble, size)
    requires n == sent + count + (if held then preamble else 0) && (held ==> sent == 0)
    ensures var to := Released(n + 1, preamble, size);
            if count + 1 < size then to == sent
            else to == n + 1 == (if held then preamble + size else sent + size)
  {
    hide Released;
    var q, c := Parts(n - preamble, size);
    ReleaseStep(preamble, size, q, c);
    if q > 0 {
      NextMultiple(size, 0, q);
    }
    if c + 1 < size {
      ReleaseStep(preamble, size, q, c + 1);
    }
  }

  // ------------------------------------------------------------------ the preamble buffer

  /** The control state of the block: its state, the window being filled, the index the next sample of the
      preamble is written to, and whether the preamble is still held. */
  datatype Counters = Counters(mode: Mode, window: seq<Cx>, preambleCount: nat, held: bool)

  /** One sample, as the code counts. The preamble state is left only when the count, just increased, comes
      to equal the size of the preamble. */
  ghost function Counted(d: Counters, x: Cx, preamble: nat, size: nat, threshold: real): Counters {
    if x == ZERO && d.mode == Silence then d
    else if d.mode == Preamble then
      var n := d.preambleCount + 1;
      if n == preamble then Counters(Symbols, [], 0, d.held) else Counters(Preamble, [], n, d.held)
    else
      var w := d.window + [x];
      if |w| != size then d.(window := w)
      else if d.mode == Silence then d.(mode := if Loud(w, threshold) then Preamble else Silence, window := [])
      else Counters(Symbols, [], d.preambleCount + (if d.held then preamble else 0), false)
  }

  /** The control state after the samples xs; the count starts at the size of the window, whose samples the
      buffer already holds when the preamble begins. */
  ghost function CountersOf(xs: seq<Cx>, preamble: nat, size: nat, threshold: real): Counters {
    if xs == [] then Counters(Silence, [], size, true)
    else Counted(CountersOf(xs[..|xs| - 1], preamble, size, threshold), xs[|xs| - 1], preamble, size, threshold)
  }

  /** In the preamble state the next sample is written to the preamble buffer, at the count. */
  ghost predicate WritesInside(d: Counters, preamble: nat) {
    d.mode == Preamble ==> d.preambleCount < preamble
  }

  /** While the window is shorter the count stays between the two sizes. */
  lemma {:induction false} CountBounded(xs: seq<Cx>, preamble: nat, size: nat, threshold: real)
    requires 1 <= size < preamble
    ensures var d := CountersOf(xs, preamble, size, threshold);
            && (d.mode == Silence ==> d.preambleCount == size)
            && (d.mode == Preamble ==> size <= d.preambleCount < preamble)
  {
    if xs != [] {
      CountBounded(xs[..|xs| - 1], preamble, size, threshold);
    }
  }

  /** A count that has reached the size of the preamble inside the preamble state never comes back: every
      further sample is written one place further out. */
  lemma {:induction false} CountRunsAway(xs: seq<Cx>, ys: seq<Cx>, preamble: nat, size: nat, threshold: real)
    requires var d := CountersOf(xs, preamble, size, threshold); d.mode == Preamble && d.preambleCount >= preamble
    ensures var d := CountersOf(xs + ys, preamble, size, threshold);
            d.mode == Preamble && d.preambleCount == CountersOf(xs, preamble, size, threshold).preambleCount + |ys|
  {
    if ys == [] {
      assert xs + ys == xs;
    } else {
      var zs := xs + ys;
      assert zs[..|zs| - 1] == xs + ys[..|ys| - 1];
      CountRunsAway(xs, ys[..|ys| - 1], preamble, size, threshold);
    }
  }

  /** How far the current window is filled, n samples after the trigger. */
  lemma WindowOf(n: nat, preamble: nat, size: nat, count: nat, held: bool)
    requires 1 <= size < preamble <= n && count < size
    requires n == Released(n, preamble, size) + count + (if held then preamble else 0)
    requires held ==> Released(n, preamble, size) == 0
    ensures count == (n - preamble) % size && (held <==> n < preamble + size)
  {
    var q, c := (n - preamble) / size, (n - preamble) % size;
    assert n == preamble + size * q + c;
    ReleaseStep(preamble, size, q, c);
    if q > 0 {
      NextMultiple(size, 0, q);
    }
  }

  /** The control state a phase stands for. */
  ghost function CountersFor(p: Phase, preamble: nat, size: nat): Counters
    requires size > 0
  {
    match p
    case Waiting(window) => Counters(Silence, window, size, true)
    case Detected(kept) =>
      if |kept| < preamble then Counters(Preamble, [], |kept|, true)
      else
        var held := |kept| < preamble + size;
        Counters(Symbols, kept[|kept| - (|kept| - preamble) % size..], if held then 0 else preamble, held)
  }

  lemma CountersWaiting(window: seq<Cx>, preamble: nat, size: nat)
    requires size > 0
    ensures CountersFor(Waiting(window), preamble, size) == Counters(Silence, window, size, true)
  {
  }

  lemma CountersInPreamble(kept: seq<Cx>, preamble: nat, size: nat)
    requires |kept| < preamble && size > 0
    ensures CountersFor(Detected(kept), preamble, size) == Counters(Preamble, [], |kept|, true)
  {
  }

  lemma CountersInSymbols(kept: seq<Cx>, preamble: nat, size: nat, count: nat, held: bool)
    requires 1 <= size < preamble <= |kept| && count < size
    requires |kept| == Released(|kept|, preamble, size) + count + (if held then preamble else 0)
    requires held ==> Released(|kept|, preamble, size) == 0
    ensures CountersFor(Detected(kept), preamble, size)
         == Counters(Symbols, kept[|kept| - count..], if held then 0 else preamble, held)
  {
    hide Released;
    WindowOf(|kept|, preamble, size, count, held);
  }

  lemma CountedStep(p: Phase, x: Cx, preamble: nat, size: nat, threshold: real)
    requires 1 <= size < preamble && (p.Waiting? ==> |p.window| < size) && (p.Detected? ==> |p.kept| >= size)
    ensures Counted(CountersFor(p, preamble, size), x, preamble, size, threshold)
         == CountersFor(Next(p, x, size, threshold), preamble, size)
  {
    hide Loud;
    if p.Detected? && |p.kept| >= preamble {
      FillStep(|p.kept|, preamble, size);
    } else if p.Detected? && |p.kept| + 1 == preamble {
      assert (|p.kept| + 1 - preamble) % size == 0;
      var all := p.kept + [x];
      assert all[|all|..] == [];
    }
  }

  lemma FillStep(n: nat, preamble: nat, size: nat)
    requires 1 <= size && preamble <= n
    ensures var c := (n - preamble) % size;
            && c < size && (n + 1 - preamble) % size == (if c + 1 == size then 0 else c + 1)
            && (c + 1 == size ==> n + 1 >= preamble + size)
            && (c + 1 < size ==> (n + 1 < preamble + size <==> n < preamble + size))
  {
    var q, c := (n - preamble) / size, (n - preamble) % size;
    assert n - preamble == size * q + c;
    if q > 0 {
      NextMultiple(size, 0, q);
    }
    if c + 1 == size {
      assert size * (q + 1) == size * q + size;
      RemainderUnique(n + 1 - preamble, size, q + 1, 0);
    } else {
      RemainderUnique(n + 1 - preamble, size, q, c + 1);
    }
  }

  lemma {:induction false} CountersArePhase(xs: seq<Cx>, preamble: nat, size: nat, threshold: real)
    requires 1 <= size < preamble
    ensures CountersOf(xs, preamble, size, threshold) == CountersFor(PhaseOf(xs, size, threshold), preamble, size)
  {
    hide Counted, CountersFor, Next;
    if xs == [] {
      StartCounters(preamble, size, threshold);
    } else {
      var before := xs[..|xs| - 1];
      CountersArePhase(before, preamble, size, threshold);
      PhaseSizes(before, size, threshold);
      CountedStep(PhaseOf(before, size, threshold), xs[|xs| - 1], preamble, size, threshold);
    }
  }

  lemma StartCounters(preamble: nat, size: nat, threshold: real)
    requires size > 0
    ensures CountersOf([], preamble, size, threshold) == CountersFor(PhaseOf([], size, threshold), preamble, size)
  {
  }

  lemma PhaseSizes(xs: seq<Cx>, size: nat, threshold: real)
    requires size > 0
    ensures var p := PhaseOf(xs, size, threshold);
            (p.Waiting? ==> |p.window| < size) && (p.Detected? ==> |p.kept| >= size)
  {
    DetectedFrom(xs, size, threshold);
  }

  /** A steady loud tone brings the block into the preamble state with the count at the size of the window. */
  lemma ToneDetected(preamble: nat, size: nat, threshold: real) returns (xs: seq<Cx>)
    requires size > 0
    ensures CountersOf(xs, preamble, size, threshold) == Counters(Preamble, [], size, true)
  {
    hide *;
    var v := Real(if threshold > 0.0 then threshold + 1.0 else 1.0);
    LoudEnough(threshold, v);
    xs := Tone(size, v);
    ToneWindow(size - 1, v, preamble, size, threshold);
    ToneSnoc(size - 1, v);
    ToneLoud(size, v, threshold);
    CountersSnoc(Tone(size - 1, v), v, preamble, size, threshold);
    ToneCounted(v, preamble, size, threshold);
  }

  lemma ToneCounted(v: Cx, preamble: nat, size: nat, threshold: real)
    requires size > 0 && v != ZERO && Loud(Tone(size, v), threshold)
    ensures Counted(Counters(Silence, Tone(size - 1, v), size, true), v, preamble, size, threshold)
         == Counters(Preamble, [], size, true)
  {
    hide Loud;
    ToneSnoc(size - 1, v);
  }

  lemma CountersSnoc(xs: seq<Cx>, x: Cx, preamble: nat, size: nat, threshold: real)
    ensures CountersOf(xs + [x], preamble, size, threshold)
         == Counted(CountersOf(xs, preamble, size, threshold), x, preamble, size, threshold)
  {
    hide Counted;
    assert (xs + [x])[..|xs|] == xs;
  }

  lemma {:induction false} ToneWindow(n: nat, v: Cx, preamble: nat, size: nat, threshold: real)
    requires n < size && v != ZERO
    ensures CountersOf(Tone(n, v), preamble, size, threshold) == Counters(Silence, Tone(n, v), size, true)
  {
    hide Loud;
    if n > 0 {
      ToneSnoc(n - 1, v);
      ToneWindow(n - 1, v, preamble, size, threshold);
      CountersSnoc(Tone(n - 1, v), v, preamble, size, threshold);
    }
  }

  lemma LoudEnough(threshold: real, v: Cx)
    requires v == Real(if threshold > 0.0 then threshold + 1.0 else 1.0)
    ensures v != ZERO && Size2(v) > threshold
  {
    if threshold > 0.0 {
      assert (threshold + 1.0) * (threshold + 1.0) == threshold * threshold + 2.0 * threshold + 1.0;
      assert threshold * threshold > 0.0;
    }
  }

  /** Every write to the preamble buffer is inside it, in every run, exactly when the window is shorter than
      the preamble; the block accepts equal sizes too. */
  lemma PreambleWritesExactly(preamble: nat, size: nat, threshold: real)
    requires 1 <= size <= preamble
    ensures (forall xs: seq<Cx> :: WritesInside(CountersOf(xs, preamble, size, threshold), preamble))
            <==> size < preamble
  {
    hide CountersOf;
    if size == preamble {
      var xs := ToneDetected(preamble, size, threshold);
      assert !WritesInside(CountersOf(xs, preamble, size, threshold), preamble);
    } else {
      forall xs: seq<Cx>
        ensures WritesInside(CountersOf(xs, preamble, size, threshold), preamble)
      {
        CountBounded(xs, preamble, size, threshold);
      }
    }
  }

  /** With equal sizes some run writes arbitrarily far behind the preamble buffer. */
  lemma EqualSizesRunAway(size: nat, threshold: real, ys: seq<Cx>) returns (xs: seq<Cx>)
    requires size > 0
    ensures CountersOf(xs + ys, size, size, threshold) == Counters(Preamble, [], size + |ys|, true)
  {
    hide CountersOf, Counted;
    xs := ToneDetected(size, size, threshold);
    CountRunsAway(xs, ys, size, size, threshold);
    StillHeld(xs, ys, size, threshold);
  }

  lemma {:induction false} StillHeld(xs: seq<Cx>, ys: seq<Cx>, size: nat, threshold: real)
    requires CountersOf(xs, size, size, threshold) == Counters(Preamble, [], size, true)
    ensures var d := CountersOf(xs + ys, size, size, threshold); d.window == [] && d.held
  {
    if ys == [] {
      assert xs + ys == xs;
    } else {
      var zs := xs + ys;
      assert zs[..|zs| - 1] == xs + ys[..|ys| - 1];
      StillHeld(xs, ys[..|ys| - 1], size, threshold);
      CountRunsAway(xs, ys[..|ys| - 1], size, size, threshold);
    }
  }
}
