/** The tapped delay line every filter block shares: cell k holds the sample k places back. */
module DelayLine {

  /** The sample k places before the newest one; `rest` before the start of the run. */
  ghost function Tap<T>(seen: seq<T>, k: nat, rest: T): (v: T) {
    if k < |seen| then seen[|seen| - 1 - k] else rest
  }

  /** The last n samples, newest first. */
  ghost function Line<T>(seen: seq<T>, n: nat, rest: T): (line: seq<T>)
    ensures |line| == n
  {
    seq(n, k requires 0 <= k < n => Tap(seen, k, rest))
  }

  lemma TapShift<T>(seen: seq<T>, v: T, k: nat, rest: T)
    ensures Tap(seen + [v], k, rest) == if k == 0 then v else Tap(seen, k - 1, rest)
  {
  }

  lemma LineShift<T>(seen: seq<T>, v: T, n: nat, k: nat, rest: T)
    requires k < n
    ensures Line(seen + [v], n, rest)[k] == if k == 0 then v else Line(seen, n, rest)[k - 1]
  {
    hide Tap;
    TapShift(seen, v, k, rest);
  }

  lemma LineSnoc<T>(seen: seq<T>, v: T, n: nat, rest: T)
    ensures Line(seen + [v], n + 1, rest) == [v] + Line(seen, n + 1, rest)[..n]
  {
    hide Tap;
    var a, b := Line(seen + [v], n + 1, rest), [v] + Line(seen, n + 1, rest)[..n];
    forall k | 0 <= k < n + 1
      ensures a[k] == b[k]
    {
      LineShift(seen, v, n + 1, k, rest);
    }
  }

  /** The shift loop: every cell moves one place and the new sample goes first. */
  method ShiftIn<T>(a: array<T>, v: T, ghost seen: seq<T>, ghost rest: T)
    requires a[..] == Line(seen, a.Length, rest)
    modifies a
    ensures a[..] == Line(seen + [v], a.Length, rest)
  {
    hide *;
    var tmp2, i := v, 0;
    ghost var line := a[..];
    while i < a.Length
      invariant 0 <= i <= a.Length
      invariant tmp2 == if i == 0 then v else line[i - 1]
      invariant forall k | 0 <= k < i :: a[k] == if k == 0 then v else line[k - 1]
      invariant a[i..] == line[i..]
    {
      var tmp1 := a[i];
      a[i] := tmp2;
      tmp2 := tmp1;
      i := i + 1;
    }
    forall k | 0 <= k < a.Length
      ensures a[k] == Line(seen + [v], a.Length, rest)[k]
    {
      LineShift(seen, v, a.Length, k, rest);
    }
  }
}
