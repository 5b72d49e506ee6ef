/** Bits to bytes, and bytes to vectors cut after each marker: no byte is lost, the cuts are exactly where
    the rule says, and the growing buffer is never written past its end. */
module MarkerSplit {
  import opened Kernel
  import opened Arith

  type Byte = bv8

  const MARKER: Byte := 0xff

  /** A float sample read as a bit: the integer part after a nudge, of which one byte can matter. */
  function ReadBit(y: real): Byte {
    (ReadInt(y) % 256) as bv8
  }

  ghost function Bits(xs: seq<real>): (b: seq<Byte>)
    ensures |b| == |xs|
  {
    seq(|xs|, i requires 0 <= i < |xs| => ReadBit(xs[i]))
  }

  lemma BitsSnoc(xs: seq<real>, x: real)
    ensures Bits(xs + [x]) == Bits(xs) + [ReadBit(x)] && Bits([]) == []
  {
    hide ReadBit;
  }

  /** bit << k, for the eight places of a byte. */
  function Shifted(bit: Byte, k: nat): Byte
    requires k < 8
  {
    match k
    case 0 => bit
    case 1 => bit << 1
    case 2 => bit << 2
    case 3 => bit << 3
    case 4 => bit << 4
    case 5 => bit << 5
    case 6 => bit << 6
    case 7 => bit << 7
  }

  /** The byte of up to eight bits, the first one lowest. */
  function Assemble(bits: seq<Byte>): Byte
    requires |bits| <= 8
  {
    if bits == [] then 0 else Assemble(bits[..|bits| - 1]) | Shifted(bits[|bits| - 1], |bits| - 1)
  }

  predicate Holds(b: Byte, i: nat)
    requires i < 8
  {
    b & Shifted(1, i) != 0
  }

  predicate Binary(bits: seq<Byte>) {
    forall i | 0 <= i < |bits| :: bits[i] <= 1
  }

  predicate Fits(b: Byte, k: nat)
    requires k <= 8
  {
    k < 8 ==> b < Shifted(1, k)
  }

  lemma PutKeeps(b: Byte, bit: Byte, k: nat, i: nat)
    requires i <= k < 8 && bit <= 1 && Fits(b, k)
    ensures Holds(b | Shifted(bit, k), i) <==> if i == k then bit == 1 else Holds(b, i)
    ensures Fits(b | Shifted(bit, k), k + 1)
  {
  }

  lemma {:induction false} AssembledBits(bits: seq<Byte>, i: nat)
    requires |bits| <= 8 && Binary(bits) && i < 8
    ensures Fits(Assemble(bits), |bits|)
    ensures i < |bits| ==> (Holds(Assemble(bits), i) <==> bits[i] == 1)
  {
    hide Holds, Shifted;
    if bits == [] {
      NothingFits();
    } else {
      var n := |bits| - 1;
      assert bits[n] <= 1;
      AssembledBits(bits[..n], i);
      if i <= n {
        PutKeeps(Assemble(bits[..n]), bits[n], n, i);
      } else {
        PutKeeps(Assemble(bits[..n]), bits[n], n, n);
      }
    }
  }

  lemma NothingFits()
    ensures Fits(0, 0)
  {
  }

  /** The bytes of a bit stream; a last group of fewer than eight bits waits. */
  ghost function Bytes(bits: seq<Byte>): (b: seq<Byte>)
    ensures |b| == |bits| / 8
  {
    seq(|bits| / 8, k requires 0 <= k < |bits| / 8 => Assemble(bits[8 * k..8 * k + 8]))
  }

  ghost function Waiting(bits: seq<Byte>): (w: seq<Byte>)
    ensures |w| == |bits| % 8
  {
    bits[8 * (|bits| / 8)..]
  }

  lemma BitArrives(bits: seq<Byte>, bit: Byte)
    ensures |Waiting(bits)| < 8
    ensures if |Waiting(bits)| == 7 then
              Bytes(bits + [bit]) == Bytes(bits) + [Assemble(Waiting(bits) + [bit])] && Waiting(bits + [bit]) == []
            else Bytes(bits + [bit]) == Bytes(bits) && Waiting(bits + [bit]) == Waiting(bits) + [bit]
  {
    hide Assemble;
    var all, n := bits + [bit], |bits| / 8;
    forall k | 0 <= k < n
      ensures Bytes(all)[k] == Bytes(bits)[k]
    {
      assert all[8 * k..8 * k + 8] == bits[8 * k..8 * k + 8];
    }
    if |bits| % 8 == 7 {
      assert all[8 * n..8 * n + 8] == Waiting(bits) + [bit];
    }
  }

  /** Bit i of byte k of the stream is bit 8k + i that came in. */
  lemma EveryBitInPlace(bits: seq<Byte>, k: nat, i: nat)
    requires Binary(bits) && k < |bits| / 8 && i < 8
    ensures Holds(Bytes(bits)[k], i) <==> bits[8 * k + i] == 1
  {
    hide Holds, Assemble, Shifted;
    AssembledBits(bits[8 * k..8 * k + 8], i);
  }

  /** So for samples that are zero or one, each byte holds its eight samples, the first one lowest. */
  lemma SamplesInPlace(xs: seq<real>, k: nat, i: nat)
    requires (forall m | 0 <= m < |xs| :: BinarySample(xs[m])) && k < |xs| / 8 && i < 8
    ensures Holds(Bytes(Bits(xs))[k], i) <==> xs[8 * k + i] == 1.0
  {
    hide Holds, Bytes, ReadBit;
    forall m | 0 <= m < |xs|
      ensures Bits(xs)[m] <= 1 && (Bits(xs)[m] == 1 <==> xs[m] == 1.0)
    {
      assert BinarySample(xs[m]);
      BinaryBit(xs[m]);
    }
    EveryBitInPlace(Bits(xs), k, i);
  }

  lemma BinaryBit(x: real)
    requires BinarySample(x)
    ensures ReadBit(x) == if x == 1.0 then 1 else 0
  {
    hide ReadInt;
    ReadsBits(x);
    SmallWord(ReadInt(x));
  }

  lemma SmallWord(n: int)
    requires n == 0 || n == 1
    ensures (n % 256) as bv8 == if n == 1 then 1 else 0
  {
    if n == 1 {
      assert n % 256 == 1;
    } else {
      assert n % 256 == 0;
    }
  }

  // ------------------------------------------------------------------ cuts

  /** The rule of the marker: 0xff and a non-zero byte close the vector that holds the second one. */
  predicate CutAfter(bytes: seq<Byte>, k: int)
    requires k < |bytes|
  {
    k > 0 && bytes[k - 1] == MARKER && bytes[k] != 0
  }

  datatype Split = Split(vectors: seq<seq<Byte>>, tail: seq<Byte>)

  function SplitOf(bytes: seq<Byte>): Split {
    if bytes == [] then Split([], [])
    else
      var s, last := SplitOf(bytes[..|bytes| - 1]), |bytes| - 1;
      if CutAfter(bytes, last) then Split(s.vectors + [s.tail + [bytes[last]]], [])
      else Split(s.vectors, s.tail + [bytes[last]])
  }

  ghost function Joined(vectors: seq<seq<Byte>>): seq<Byte> {
    if vectors == [] then [] else Joined(vectors[..|vectors| - 1]) + vectors[|vectors| - 1]
  }

  lemma JoinedSnoc(vectors: seq<seq<Byte>>, v: seq<Byte>)
    ensures Joined(vectors + [v]) == Joined(vectors) + v
  {
    assert (vectors + [v])[..|vectors|] == vectors;
  }

  lemma SplitSnoc(bytes: seq<Byte>, b: Byte)
    ensures SplitOf(bytes + [b])
         == if CutAfter(bytes + [b], |bytes|) then Split(SplitOf(bytes).vectors + [SplitOf(bytes).tail + [b]], [])
            else Split(SplitOf(bytes).vectors, SplitOf(bytes).tail + [b])
  {
    assert (bytes + [b])[..|bytes|] == bytes;
  }

  /** Nothing is lost or reordered. */
  lemma {:induction false} NothingLost(bytes: seq<Byte>)
    ensures Joined(SplitOf(bytes).vectors) + SplitOf(bytes).tail == bytes
  {
    hide *;
    if bytes == [] {
      NoVectors();
    } else {
      var before, b := bytes[..|bytes| - 1], bytes[|bytes| - 1];
      NothingLost(before);
      var s := SplitOf(before);
      assert bytes == before + [b];
      SplitSnoc(before, b);
      JoinedSnoc(s.vectors, s.tail + [b]);
      assert Joined(s.vectors) + (s.tail + [b]) == Joined(s.vectors) + s.tail + [b];
    }
  }

  lemma NoVectors()
    ensures SplitOf([]) == Split([], []) && Joined([]) == []
  {
  }

  /** A vector of the split ends just after byte k. */
  ghost predicate EndsAfter(vectors: seq<seq<Byte>>, k: int) {
    exists j | 0 < j <= |vectors| :: |Joined(vectors[..j])| == k + 1
  }

  /** The vectors end exactly where the rule cuts. */
  lemma {:induction false} CutsExactly(bytes: seq<Byte>, k: nat)
    requires k < |bytes|
    ensures EndsAfter(SplitOf(bytes).vectors, k) <==> CutAfter(bytes, k)
  {
    hide Joined, SplitOf, CutAfter;
    var last := |bytes| - 1;
    var before, b := bytes[..last], bytes[last];
    assert bytes == before + [b];
    var s := SplitOf(before);
    SplitSnoc(before, b);
    NothingLost(before);
    JoinedSnoc(s.vectors, s.tail + [b]);
    SameRule(before, b, k);
    if k < last {
      CutsExactly(before, k);
    } else {
      EndsInside(s.vectors, k);
    }
    if CutAfter(bytes, last) {
      EndsSnoc(s.vectors, s.tail + [b], k);
    }
  }

  /** The vectors of a byte stream end exactly behind the bytes that follow 0xff and are not zero. */
  lemma CutsAtMarkers(bytes: seq<Byte>, k: nat)
    requires k < |bytes|
    ensures EndsAfter(SplitOf(bytes).vectors, k) <==> k > 0 && bytes[k - 1] == 0xff && bytes[k] != 0
  {
    hide EndsAfter, SplitOf;
    CutsExactly(bytes, k);
  }

  lemma SameRule(before: seq<Byte>, b: Byte, k: nat)
    requires k <= |before|
    ensures k < |before| ==> (CutAfter(before + [b], k) <==> CutAfter(before, k))
  {
  }

  lemma EndsSnoc(vectors: seq<seq<Byte>>, v: seq<Byte>, k: int)
    ensures EndsAfter(vectors + [v], k) <==> EndsAfter(vectors, k) || |Joined(vectors + [v])| == k + 1
  {
    hide Joined;
    var all := vectors + [v];
    assert all[..|all|] == all;
    assert forall j | 0 < j <= |vectors| :: all[..j] == vectors[..j];
    if EndsAfter(vectors, k) {
      var j :| 0 < j <= |vectors| && |Joined(vectors[..j])| == k + 1;
      assert |Joined(all[..j])| == k + 1;
    }
    if EndsAfter(all, k) {
      var j :| 0 < j <= |all| && |Joined(all[..j])| == k + 1;
      if j <= |vectors| {
        assert |Joined(vectors[..j])| == k + 1;
      }
    }
  }

  lemma {:induction false} JoinedGrows(vectors: seq<seq<Byte>>, j: nat)
    requires j <= |vectors|
    ensures |Joined(vectors[..j])| <= |Joined(vectors)|
  {
    if j == |vectors| {
      assert vectors[..j] == vectors;
    } else {
      var n := |vectors| - 1;
      assert vectors[..n][..j] == vectors[..j];
      JoinedGrows(vectors[..n], j);
    }
  }

  lemma EndsInside(vectors: seq<seq<Byte>>, k: int)
    requires |Joined(vectors)| <= k
    ensures !EndsAfter(vectors, k)
  {
    hide Joined;
    if EndsAfter(vectors, k) {
      var j :| 0 < j <= |vectors| && |Joined(vectors[..j])| == k + 1;
      JoinedGrows(vectors, j);
    }
  }

  // ------------------------------------------------------------------ the block

  class BitVec {
    var byteval: Byte
    var bitCount: nat
    var byteCount: nat
    var vect: array?<Byte>
    var markerFlag: bool
    ghost var bits: seq<Byte>

    /** The buffer holds the bytes after the last cut and has room for one more. */
    ghost predicate Room()
      reads this`vect, this`byteCount, vect
    {
      if vect == null then byteCount == 0
      else byteCount < vect.Length == 16 * (byteCount / 16) + 16
    }

    ghost function Kept(): (s: seq<Byte>)
      requires Room()
      reads this`vect, this`byteCount, vect
    {
      if vect == null then [] else vect[..byteCount]
    }

    ghost predicate Stored(bytes: seq<Byte>)
      reads this`vect, this`byteCount, this`markerFlag, vect
    {
      && Room() && Kept() == SplitOf(bytes).tail
      && (markerFlag <==> bytes != [] && bytes[|bytes| - 1] == MARKER)
    }

    ghost predicate Valid(out: OutBuffer<seq<Byte>>)
      reads this, vect, out
    {
      Cut(Bytes(bits), out) && Built()
    }

    /** The vectors out and the vector kept are the split of these bytes. */
    ghost predicate Cut(bytes: seq<Byte>, out: OutBuffer<seq<Byte>>)
      reads this`vect, this`byteCount, this`markerFlag, vect, out
    {
      Stored(bytes) && out.cells == SplitOf(bytes).vectors
    }

    /** The byte under construction holds the bits that wait. */
    ghost predicate Built()
      reads this`bits, this`bitCount, this`byteval
    {
      bitCount == |Waiting(bits)| && byteval == Assemble(Waiting(bits))
    }

    constructor (out: OutBuffer<seq<Byte>>)
      requires out.cells == []
      ensures Valid(out) && bits == []
    {
      byteval, bitCount, byteCount, vect, markerFlag, bits := 0, 0, 0, null, false, [];
    }

    /** Appends a byte to the vector, with memory taken in chunks of sixteen. */
    method Append(b: Byte)
      requires Room()
      modifies this`vect, this`byteCount, vect
      ensures Room() && Kept() == old(Kept()) + [b] && vect != null
      ensures vect == old(vect) || fresh(vect)
    {
      ghost var kept := Kept();
      if vect == null {
        vect := new Byte[16](_ => 0);
      }
      var v: array<Byte> := vect;
      v[byteCount] := b;
      byteCount := byteCount + 1;
      assert v[..byteCount] == kept + [b];
      if byteCount % 16 == 0 {
        var grown := new Byte[byteCount + 16](i requires 0 <= i < byteCount + 16 reads this, v =>
                                                if i < byteCount && i < v.Length then v[i] else 0);
        assert grown[..byteCount] == v[..byteCount];
        vect := grown;
      }
    }

    /** A whole byte: appended, and the vector put out if it completes a marker. */
    method TakeByte(b: Byte, out: OutBuffer<seq<Byte>>, ghost before: seq<Byte>) returns (full: bool)
      requires Cut(before, out)
      modifies this`vect, this`byteCount, this`markerFlag, vect, out
      ensures vect == old(vect) || vect == null || fresh(vect)
      ensures !full ==> Cut(before + [b], out)
      ensures full ==> CutAfter(before + [b], |before|) && out.cells == old(out.cells)
    {
      hide SplitOf, MARKER;
      SplitSnoc(before, b);
      Append(b);
      if markerFlag {
        if b != 0 {
          full := out.Put(vect[..byteCount]);
          if full {
            return;
          }
          vect := null;
          byteCount := 0;
          markerFlag := false;
        } else {
          markerFlag := false;
        }
      }
      if b == MARKER {
        markerFlag := true;
      }
      full := false;
    }

    /** Adds a bit to the byte under construction. */
    method Build(bit: Byte)
      requires Built()
      modifies this`byteval, this`bitCount, this`bits
      ensures bits == old(bits) + [bit] && bitCount <= 8
      ensures if bitCount < 8 then Built() && Bytes(bits) == old(Bytes(bits))
              else Waiting(bits) == [] && Bytes(bits) == old(Bytes(bits)) + [byteval]
    {
      hide Bytes, Waiting, Assemble, Shifted;
      BitArrives(bits, bit);
      AssembleSnoc(Waiting(bits), bit);
      bits := bits + [bit];
      byteval := byteval | Shifted(bit, bitCount);
      bitCount := bitCount + 1;
    }

    /** One bit. */
    method Process(y: real, out: OutBuffer<seq<Byte>>) returns (full: bool)
      requires Valid(out)
      modifies this, vect, out
      ensures vect == old(vect) || vect == null || fresh(vect)
      ensures bits == old(bits) + [ReadBit(y)]
      ensures !full ==> Valid(out)
      ensures full ==> CutAfter(Bytes(bits), |Bytes(bits)| - 1) && out.cells == old(out.cells)
    {
      hide Cut, Bytes, Waiting, Assemble, Shifted, ReadBit, CutAfter, MARKER;
      ghost var before := Bytes(bits);
      Build(ReadBit(y));
      full := false;
      if bitCount == 8 {
        full := TakeByte(byteval, out, before);
        if full {
          return;
        }
        NoBits();
        byteval := 0;
        bitCount := 0;
      }
    }

    /** One visit: at any time what is out and what is kept are the bytes of all bits seen. */
    method MainCode(inp: InBuffer<real>, out: OutBuffer<seq<Byte>>) returns (status: int)
      requires Valid(out)
      modifies this, vect, inp, out
      ensures status == 0 || status == 99
      ensures status == 0 ==> Valid(out) && inp.pending == []
                              && bits == old(bits) + Bits(old(inp.pending))
      ensures status == 99 ==> old(bits) < bits && CutAfter(Bytes(bits), |Bytes(bits)| - 1)
                               && out.cells == SplitOf(Bytes(bits[..|bits| - 1])).vectors
    {
      hide SplitOf, Bytes, Waiting, Assemble, ReadBit, CutAfter;
      ghost var xs, b0 := inp.pending, bits;
      ghost var i: nat := 0;
      BitsSnoc([], 0.0);
      while inp.pending != []
        invariant Valid(out) && i <= |xs| && inp.pending == xs[i..]
        invariant vect == old(vect) || vect == null || fresh(vect)
        invariant bits == b0 + Bits(xs[..i])
        decreases |inp.pending|
      {
        var y := inp.Take();
        ghost var before := bits;
        var full := Process(y, out);
        BitsSnoc(xs[..i], y);
        assert xs[..i + 1] == xs[..i] + [y];
        i := i + 1;
        if full {
          assert bits[..|bits| - 1] == before;
          return 99;
        }
      }
      assert xs[..i] == xs;
      return 0;
    }

    /** What every reachable state promises about all the bytes so far. */
    lemma StreamKept(out: OutBuffer<seq<Byte>>)
      requires Valid(out)
      ensures Joined(out.cells) + Kept() == Bytes(bits)
    {
      NothingLost(Bytes(bits));
    }
  }

  lemma AssembleSnoc(w: seq<Byte>, bit: Byte)
    requires |w| < 8
    ensures Assemble(w + [bit]) == Assemble(w) | Shifted(bit, |w|)
  {
    hide Shifted;
    assert (w + [bit])[..|w|] == w;
  }

  lemma NoBits()
    ensures Assemble([]) == 0
  {
  }
}
