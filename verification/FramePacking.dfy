/** Collecting a frame of bits in bytes, highest bit first, and reading it out again: whole frames, and
    exactly when the number of bits is a multiple of eight, the same bits. */
module FramePacking {
  import opened Kernel
  import opened Arith

  type Word = bv16

  /** A float sample read as a bit: the integer part after a nudge. */
  function ReadBit(x: real): Word {
    (ReadInt(x) % 65536) as bv16
  }

  function Twice(v: Word): Word {
    v << 1
  }

  function Joined(v: Word, b: Word): Word {
    v | b
  }

  function LowByte(v: Word): Word {
    v & 0xff
  }

  /** The word bits build up to: each one enters at the low end after a shift. */
  function Built(bits: seq<Word>): Word {
    if bits == [] then 0 else Joined(Twice(Built(bits[..|bits| - 1])), bits[|bits| - 1])
  }

  /** Bit p of a byte. */
  function BitAt(v: Word, p: nat): Word
    requires p < 8
  {
    match p
    case 0 => v & 1
    case 1 => (v >> 1) & 1
    case 2 => (v >> 2) & 1
    case 3 => (v >> 3) & 1
    case 4 => (v >> 4) & 1
    case 5 => (v >> 5) & 1
    case 6 => (v >> 6) & 1
    case 7 => (v >> 7) & 1
  }

  predicate Binary(bits: seq<Word>) {
    forall i | 0 <= i < |bits| :: bits[i] <= 1
  }

  lemma BitEnters(v: Word, b: Word, p: nat)
    requires p < 8 && b <= 1
    ensures BitAt(Joined(Twice(v), b), p) == if p == 0 then b else BitAt(v, p - 1)
  {
  }

  lemma LowByteBits(v: Word, p: nat)
    requires p < 8
    ensures BitAt(LowByte(v), p) == BitAt(v, p) && BitAt(0, p) == 0
  {
  }

  /** The first of m bits ends up highest, at place m-1; the places above hold nothing. */
  lemma {:induction false} BuiltBits(bits: seq<Word>, p: nat)
    requires Binary(bits) && |bits| <= 8 && p < 8
    ensures BitAt(Built(bits), p) == if p < |bits| then bits[|bits| - 1 - p] else 0
  {
    hide BitAt, Joined, Twice, LowByte;
    if bits == [] {
      LowByteBits(0, p);
    } else {
      var n := |bits| - 1;
      assert bits[n] <= 1;
      BitEnters(Built(bits[..n]), bits[n], p);
      if p > 0 {
        BuiltBits(bits[..n], p - 1);
      }
    }
  }

  // ------------------------------------------------------------------ a frame

  /** The bits of byte k of a frame; the last byte may be short. */
  ghost function Group(frame: seq<Word>, k: nat): (g: seq<Word>)
    requires 8 * k <= |frame|
  {
    if 8 * k + 8 <= |frame| then frame[8 * k..8 * k + 8] else frame[8 * k..]
  }

  /** Bit i of a frame as it is put out. */
  ghost function Reissued(frame: seq<Word>, i: nat): Word
    requires i < |frame|
  {
    BitAt(Built(Group(frame, i / 8)), 7 - i % 8)
  }

  ghost function FrameOut(frame: seq<Word>): (y: seq<Word>)
    ensures |y| == |frame|
  {
    seq(|frame|, i requires 0 <= i < |frame| => Reissued(frame, i))
  }

  /** In a whole byte every bit comes back; in a short last byte of r bits the first 8-r samples are zero
      and the rest are the bits from the start of the byte on, 8-r places late. */
  lemma ReissuedBit(frame: seq<Word>, i: nat)
    requires Binary(frame) && i < |frame|
    ensures var k, r := i / 8, |frame| - 8 * (i / 8);
            Reissued(frame, i) == if r >= 8 then frame[i] else if i % 8 >= 8 - r then frame[i - (8 - r)] else 0
  {
    hide BitAt, Built;
    var g := Group(frame, i / 8);
    GroupBinary(frame, i / 8);
    BuiltBits(g, 7 - i % 8);
  }

  lemma GroupBinary(frame: seq<Word>, k: nat)
    requires Binary(frame) && 8 * k <= |frame|
    ensures Binary(Group(frame, k)) && |Group(frame, k)| <= 8
  {
  }

  /** Every frame of n bits comes back unchanged exactly when n is a multiple of eight. */
  lemma FrameIntactExactly(n: nat)
    ensures (forall frame | |frame| == n && Binary(frame) :: FrameOut(frame) == frame) <==> n % 8 == 0
  {
    hide Reissued;
    if n % 8 == 0 {
      forall frame | |frame| == n && Binary(frame)
        ensures FrameOut(frame) == frame
      {
        WholeBytes(frame);
      }
    } else {
      var frame := seq(n, _ => 1 as Word);
      assert Binary(frame) && |frame| == n;
      var i := 8 * (n / 8);
      ReissuedBit(frame, i);
      assert FrameOut(frame)[i] != frame[i];
    }
  }

  lemma WholeBytes(frame: seq<Word>)
    requires Binary(frame) && |frame| % 8 == 0
    ensures FrameOut(frame) == frame
  {
    hide Reissued;
    forall i | 0 <= i < |frame|
      ensures Reissued(frame, i) == frame[i]
    {
      ReissuedBit(frame, i);
    }
  }

  // ------------------------------------------------------------------ the block

  ghost function Bits(xs: seq<real>): (b: seq<Word>)
    ensures |b| == |xs|
  {
    seq(|xs|, i requires 0 <= i < |xs| => ReadBit(xs[i]))
  }

  /** Samples that are zero or one are read as the bits they stand for. */
  lemma BinarySamples(xs: seq<real>)
    requires forall m | 0 <= m < |xs| :: BinarySample(xs[m])
    ensures Binary(Bits(xs)) && forall m | 0 <= m < |xs| :: Bits(xs)[m] == 1 <==> xs[m] == 1.0
  {
    hide ReadBit;
    forall m | 0 <= m < |xs|
      ensures Bits(xs)[m] <= 1 && (Bits(xs)[m] == 1 <==> xs[m] == 1.0)
    {
      assert BinarySample(xs[m]);
      BinaryBit(xs[m]);
    }
  }

  lemma BinaryBit(x: real)
    requires BinarySample(x)
    ensures ReadBit(x) == if x == 1.0 then 1 else 0
  {
    hide ReadInt;
    ReadsBits(x);
    SmallWord(ReadInt(x));
  }

  lemma SmallWord(n: int)
    requires n == 0 || n == 1
    ensures (n % 65536) as bv16 == if n == 1 then 1 else 0
  {
    if n == 1 {
      assert n % 65536 == 1;
    } else {
      assert n % 65536 == 0;
    }
  }

  lemma BitsSnoc(xs: seq<real>, x: real)
    ensures Bits(xs + [x]) == Bits(xs) + [ReadBit(x)] && Bits([]) == []
  {
    hide ReadBit;
  }

  /** The first m bytes of a frame are in the queue. */
  ghost predicate Stored(queue: seq<Word>, frame: seq<Word>, m: nat) {
    && m <= |queue| && 8 * m <= |frame|
    && forall k | 0 <= k < m :: queue[k] == LowByte(Built(frame[8 * k..8 * k + 8]))
  }

  lemma StoredExtends(queue: seq<Word>, frame: seq<Word>, bit: Word, m: nat)
    requires Stored(queue, frame, m)
    ensures Stored(queue, frame + [bit], m)
  {
    hide Built;
    forall k | 0 <= k < m
      ensures (frame + [bit])[8 * k..8 * k + 8] == frame[8 * k..8 * k + 8]
    {
    }
  }

  lemma StoredByte(queue: seq<Word>, frame: seq<Word>, m: nat, b: Word)
    requires Stored(queue, frame, m) && m < |queue| && 8 * m + 8 <= |frame| && b == Built(frame[8 * m..8 * m + 8])
    ensures Stored(queue[m := LowByte(b)], frame, m + 1)
  {
    hide Built;
  }

  /** A frame whose whole bytes are stored is packed once its last byte, short or empty, is. */
  lemma LastByte(queue: seq<Word>, frame: seq<Word>, m: nat, b: Word)
    requires Stored(queue, frame, m) && m == |frame| / 8 && m < |queue| && frame != []
    requires b == if |frame| % 8 == 0 then 0 else Built(frame[8 * m..])
    ensures PackedIn(queue[m := LowByte(b)], frame)
  {
    hide Built;
  }

  lemma NothingStored(queue: seq<Word>)
    ensures Stored(queue, [], 0)
  {
  }

  ghost predicate PackedIn(queue: seq<Word>, frame: seq<Word>) {
    && frame != [] && (|frame| - 1) / 8 < |queue|
    && forall k | 0 <= k <= (|frame| - 1) / 8 :: queue[k] == LowByte(Built(Group(frame, k)))
  }

  class BitManip {
    const numberOfBits: nat
    const queue: array<Word>
    var buildByte: Word
    var buildByteBits: nat
    var byteCount: nat
    var bitCount: nat
    var infoComplete: bool
    var frameCount: nat
    ghost var frame: seq<Word>

    /** The bytes so far of the frame being collected, and the one under construction. */
    ghost predicate Collecting()
      reads this, queue
    {
      && queue.Length == numberOfBits / 8 + 1 && bitCount == |frame| < numberOfBits && !infoComplete
      && byteCount == |frame| / 8 && buildByteBits == |frame| % 8
      && buildByte == Twice(Built(frame[8 * byteCount..])) && Stored(queue[..], frame, byteCount)
    }

    /** A whole frame is in the queue. */
    ghost predicate Packed()
      reads this, queue
    {
      && queue.Length == numberOfBits / 8 + 1 && |frame| == numberOfBits > 0 && infoComplete
      && byteCount == bitCount == buildByteBits == 0 && buildByte == 0
      && PackedIn(queue[..], frame)
    }

    constructor (bits: nat)
      requires bits > 0
      ensures Collecting() && frame == [] && numberOfBits == bits && frameCount == 0 && fresh(queue)
    {
      numberOfBits := bits;
      queue := new Word[bits / 8 + 1](_ => 0);
      buildByte, buildByteBits, byteCount, bitCount, infoComplete, frameCount, frame := 0, 0, 0, 0, false, 0, [];
    }

    /** One bit into the byte under construction; a whole byte goes to the queue. */
    method AddBit(bit: Word)
      requires Collecting()
      modifies this`buildByte, this`buildByteBits, this`byteCount, this`frame, queue
      ensures frame == old(frame) + [bit] && byteCount == |frame| / 8 && buildByteBits == |frame| % 8
      ensures buildByte == Built(frame[8 * byteCount..]) && Stored(queue[..], frame, byteCount)
    {
      hide Built, Stored, Joined, Twice, LowByte;
      ghost var start := 8 * byteCount;
      BuiltSnoc(frame[start..], bit);
      StoredExtends(queue[..], frame, bit, byteCount);
      frame := frame + [bit];
      assert frame[start..] == old(frame[start..]) + [bit];
      buildByte := Joined(buildByte, bit);
      buildByteBits := buildByteBits + 1;
      if buildByteBits == 8 {
        assert frame[start..start + 8] == frame[start..];
        StoredByte(queue[..], frame, byteCount, buildByte);
        NoneBuilt();
        ghost var q := queue[..];
        queue[byteCount] := LowByte(buildByte);
        assert queue[..] == q[byteCount := LowByte(buildByte)];
        buildByte, buildByteBits := 0, 0;
        byteCount := byteCount + 1;
        assert frame[8 * byteCount..] == [];
      }
    }

    /** One bit into the frame; the last one completes it. */
    method Collect(bit: Word)
      requires Collecting()
      modifies this`buildByte, this`buildByteBits, this`byteCount, this`bitCount, this`infoComplete, this`frame, queue
      ensures frame == old(frame) + [bit]
      ensures if |frame| == numberOfBits then Packed() else Collecting()
    {
      hide Built, Stored, PackedIn, Joined, Twice, LowByte;
      AddBit(bit);
      bitCount := bitCount + 1;
      if bitCount == numberOfBits {
        infoComplete := true;
        NoneBuilt();
        assert |frame| % 8 == 0 ==> frame[8 * byteCount..] == [];
        LastByte(queue[..], frame, byteCount, buildByte);
        ghost var q := queue[..];
        queue[byteCount] := LowByte(buildByte);
        assert queue[..] == q[byteCount := LowByte(buildByte)];
        byteCount, buildByte, buildByteBits, bitCount := 0, 0, 0, 0;
      } else {
        buildByte := Twice(buildByte);
      }
    }

    /** Reads bit i of the frame back out of the queue. */
    method GetBit(i: nat) returns (bit: Word)
      requires Packed() && i < |frame|
      ensures bit == FrameOut(frame)[i]
    {
      hide Built, BitAt, LowByte;
      var bytePos := i / 8;
      var bitPos := 7 - i % 8;
      bit := BitAt(queue[bytePos], bitPos);
      LowByteBits(Built(Group(frame, bytePos)), bitPos);
    }

    /** The next frame starts from nothing. */
    method Reset()
      requires Packed()
      modifies this`infoComplete, this`frameCount, this`frame
      ensures Collecting() && frame == [] && frameCount == old(frameCount) + 1
    {
      hide Built, Twice, Stored, PackedIn, Joined, LowByte, Group, BitAt, FrameOut;
      NoneBuilt();
      NothingStored(queue[..]);
      frameCount := frameCount + 1;
      infoComplete := false;
      frame := [];
      assert frame[8 * byteCount..] == [];
    }

    /** Puts out the frame bit by bit and clears it. */
    method EmitFrame(out: OutBuffer<Word>) returns (full: bool)
      requires Packed()
      modifies this`infoComplete, this`frameCount, this`frame, out
      ensures !full ==> Collecting() && frame == [] && frameCount == old(frameCount) + 1
                        && out.cells == old(out.cells) + FrameOut(old(frame))
      ensures full ==> old(out.cells) <= out.cells <= old(out.cells) + FrameOut(old(frame))
    {
      hide *;
      var bitsProc := 0;
      PackedIsComplete();
      FrameLength(frame);
      ghost var all := FrameOut(frame);
      while bitsProc < numberOfBits
        invariant 0 <= bitsProc <= numberOfBits
        invariant out.cells == old(out.cells) + all[..bitsProc]
        modifies out
      {
        var bit := GetBit(bitsProc);
        assert all[..bitsProc + 1] == all[..bitsProc] + [bit];
        bitsProc := bitsProc + 1;
        full := out.Put(bit);
        if full {
          return;
        }
      }
      assert all[..numberOfBits] == all;
      Reset();
      full := false;
    }

    /** One visit: at most one frame is completed and put out whole; the input behind it waits. */
    method MainCode(inp: InBuffer<real>, out: OutBuffer<Word>) returns (status: int, ghost used: seq<real>)
      requires Collecting()
      modifies this, queue, inp, out
      ensures status == 0 || status == 99
      ensures old(inp.pending) == used + inp.pending && |old(frame)| + |used| <= numberOfBits
      ensures var all := old(frame) + Bits(used);
              if |all| < numberOfBits then
                status == 0 && Collecting() && inp.pending == [] && frame == all && out.cells == old(out.cells)
              else if status == 0 then
                Collecting() && frame == [] && frameCount == old(frameCount) + 1
                && out.cells == old(out.cells) + FrameOut(all)
              else old(out.cells) <= out.cells <= old(out.cells) + FrameOut(all)
      ensures var all := old(frame) + Bits(used);
              numberOfBits % 8 == 0 && Binary(all) && status == 0 ==> out.cells + frame == old(out.cells) + all
    {
      hide Built, BitAt, ReadBit, FrameOut, Packed, Collecting, Binary;
      used := [];
      ghost var xs, f0 := inp.pending, frame;
      BitsSnoc([], 0.0);
      PackedIsComplete();
      while inp.pending != [] && !infoComplete
        invariant xs == used + inp.pending && frame == f0 + Bits(used) && |frame| <= numberOfBits
        invariant infoComplete == (|frame| == numberOfBits)
        invariant if infoComplete then Packed() else Collecting()
        invariant frameCount == old(frameCount) && out.cells == old(out.cells)
        decreases |inp.pending|
      {
        var x := inp.Take();
        BitsSnoc(used, x);
        Collect(ReadBit(x));
        PackedIsComplete();
        used := used + [x];
      }
      status := 0;
      if infoComplete {
        var full := EmitFrame(out);
        if full {
          status := 99;
        }
      }
      if numberOfBits % 8 == 0 && Binary(f0 + Bits(used)) && |f0 + Bits(used)| == numberOfBits {
        WholeBytes(f0 + Bits(used));
      }
    }

    lemma PackedIsComplete()
      ensures Packed() ==> infoComplete && |frame| == numberOfBits
      ensures Collecting() ==> !infoComplete && |frame| < numberOfBits
    {
      hide Built;
    }
  }

  lemma BuiltSnoc(bits: seq<Word>, b: Word)
    ensures Built(bits + [b]) == Joined(Twice(Built(bits)), b)
  {
    assert (bits + [b])[..|bits|] == bits;
  }

  lemma FrameLength(frame: seq<Word>)
    ensures |FrameOut(frame)| == |frame|
  {
  }

  lemma NoneBuilt()
    ensures Built([]) == 0 && Twice(0) == 0
  {
  }
}
