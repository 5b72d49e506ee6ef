/** Sorting eigenvalues in place, 1-based, with the columns of the eigenvector matrix moved along. */
module EigenSort {
  import opened Vectors

  datatype Pair = Pair(value: real, vector: seq<real>)

  ghost function Column(v: array2<real>, n: nat, j: nat): (c: seq<real>)
    requires n < v.Length0 && j < v.Length1
    reads v
    ensures |c| == n
  {
    seq(n, r requires 0 <= r < n && n < v.Length0 && j < v.Length1 reads v => v[r + 1, j])
  }

  /** Eigenvalue j with column j, for j from 1 to n. */
  ghost function Pairs(d: array<real>, v: array2<real>, n: nat): (p: seq<Pair>)
    requires n < d.Length && n < v.Length0 && n < v.Length1
    reads d, v
    ensures |p| == n
  {
    seq(n, j requires 0 <= j < n && n < d.Length && n < v.Length0 && n < v.Length1 reads d, v =>
          Pair(d[j + 1], Column(v, n, j + 1)))
  }

  ghost predicate Descending(d: array<real>, n: nat)
    requires n < d.Length
    reads d
  {
    forall a, b | 1 <= a <= b <= n :: d[a] >= d[b]
  }

  function Exchanged(p: seq<Pair>, i: nat, k: nat): (q: seq<Pair>)
    requires i < |p| && k < |p|
    ensures |q| == |p|
  {
    p[i := p[k]][k := p[i]]
  }

  lemma ExchangedAt(p: seq<Pair>, i: nat, k: nat, j: nat)
    requires i < |p| && k < |p| && j < |p|
    ensures Exchanged(p, i, k)[j] == p[Partner(j + 1, i + 1, k + 1) - 1]
  {
  }

  lemma ExchangeKeeps(p: seq<Pair>, i: nat, k: nat)
    requires i < |p| && k < |p|
    ensures multiset(Exchanged(p, i, k)) == multiset(p)
  {
  }

  // ------------------------------------------------------------------ eigenpairs

  /** A x == value x, row by row. */
  ghost predicate EigenPair(a: seq<seq<real>>, p: Pair) {
    && |a| == |p.vector|
    && forall r | 0 <= r < |a| :: |a[r]| == |a| && Dot(a[r], p.vector, |a|) == p.value * p.vector[r]
  }

  ghost predicate AllEigenPairs(a: seq<seq<real>>, p: seq<Pair>) {
    forall j | 0 <= j < |p| :: EigenPair(a, p[j])
  }

  /** What holds of every pair before the sort holds of every pair after it. */
  lemma StillEigenPairs(a: seq<seq<real>>, before: seq<Pair>, after: seq<Pair>)
    requires multiset(before) == multiset(after) && AllEigenPairs(a, before)
    ensures AllEigenPairs(a, after)
  {
    hide EigenPair;
    forall j | 0 <= j < |after|
      ensures EigenPair(a, after[j])
    {
      assert after[j] in multiset(after);
      assert after[j] in before;
    }
  }

  // ------------------------------------------------------------------ the sort

  /** The last position of the largest value from i to n. */
  method Largest(d: array<real>, i: nat, n: nat) returns (k: nat, p: real)
    requires 1 <= i <= n < d.Length
    ensures i <= k <= n && p == d[k]
    ensures forall j | i <= j <= n :: d[j] <= p
    ensures forall j | k < j <= n :: d[j] < p
  {
    k, p := i, d[i];
    var j := i + 1;
    while j <= n
      invariant i < j <= n + 1 && i <= k < j && p == d[k]
      invariant forall m | i <= m < j :: d[m] <= p
      invariant forall m | k < m < j :: d[m] < p
    {
      if d[j] >= p {
        k, p := j, d[j];
      }
      j := j + 1;
    }
  }

  /** Where position c finds its new contents when i and k change places. */
  function Partner(c: nat, i: nat, k: nat): nat {
    if c == i then k else if c == k then i else c
  }

  method ExchangeColumns(v: array2<real>, n: nat, i: nat, k: nat)
    requires n < v.Length0 && i < v.Length1 && k < v.Length1 && i != k
    modifies v
    ensures forall c: nat | c < v.Length1 :: Column(v, n, c) == old(Column(v, n, Partner(c, i, k)))
  {
    var j := 1;
    while j <= n
      invariant 1 <= j <= n + 1
      invariant forall r, c | 1 <= r < j && 0 <= c < v.Length1 ::
                  v[r, c] == old(v[r, Partner(c, i, k)])
      invariant forall r, c | j <= r <= n && 0 <= c < v.Length1 :: v[r, c] == old(v[r, c])
    {
      var p := v[j, i];
      v[j, i] := v[j, k];
      v[j, k] := p;
      j := j + 1;
    }
  }

  /** Exchanges values i and k together with their columns. */
  method Exchange(d: array<real>, v: array2<real>, n: nat, i: nat, k: nat, p: real)
    requires 1 <= i <= n < d.Length && 1 <= k <= n && i != k && p == d[k]
    requires n < v.Length0 && n < v.Length1
    modifies d, v
    ensures Pairs(d, v, n) == Exchanged(old(Pairs(d, v, n)), i - 1, k - 1)
    ensures d[..] == old(d[..][i := d[k]][k := d[i]])
  {
    hide Column, Exchanged;
    ghost var was := Pairs(d, v, n);
    ghost var values := d[..];
    d[k] := d[i];
    d[i] := p;
    assert d[..] == values[i := values[k]][k := values[i]];
    ExchangeColumns(v, n, i, k);
    forall j | 0 <= j < n
      ensures Pairs(d, v, n)[j] == Exchanged(was, i - 1, k - 1)[j]
    {
      ExchangedAt(was, i - 1, k - 1, j);
      assert d[j + 1] == values[Partner(j + 1, i, k)];
    }
  }

  /** Afterwards the values are in descending order and the pairs are the same, counted with multiplicity;
      so an eigensystem of any matrix is one still. */
  method Eigsrt(d: array<real>, v: array2<real>, n: nat)
    requires n < d.Length && n < v.Length0 && n < v.Length1
    modifies d, v
    ensures Descending(d, n)
    ensures multiset(Pairs(d, v, n)) == multiset(old(Pairs(d, v, n)))
    ensures forall a | AllEigenPairs(a, old(Pairs(d, v, n))) :: AllEigenPairs(a, Pairs(d, v, n))
  {
    hide Pairs, Exchanged, AllEigenPairs;
    ghost var before := Pairs(d, v, n);
    var i := 1;
    while i < n
      invariant 1 <= i && (n > 0 ==> i <= n)
      invariant forall a, b | 1 <= a < i && a <= b <= n :: d[a] >= d[b]
      invariant multiset(Pairs(d, v, n)) == multiset(old(Pairs(d, v, n)))
    {
      var k, p := Largest(d, i, n);
      if k != i {
        PairCount(d, v, n);
        ExchangeKeeps(Pairs(d, v, n), i - 1, k - 1);
        Exchange(d, v, n, i, k, p);
      }
      i := i + 1;
    }
    forall a | AllEigenPairs(a, before)
      ensures AllEigenPairs(a, Pairs(d, v, n))
    {
      StillEigenPairs(a, before, Pairs(d, v, n));
    }
  }

  lemma PairCount(d: array<real>, v: array2<real>, n: nat)
    requires n < d.Length && n < v.Length0 && n < v.Length1
    ensures |Pairs(d, v, n)| == n
  {
  }
}
