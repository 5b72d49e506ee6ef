/** The bit encoder: what the differential Manchester and AMI branches promise about the signal, and the
    decoders that read every code back. */
module Encoder {
  import opened Kernel
  import opened Vectors

  const NRZ := 0
  const MANCHESTER := 1
  const DIFFERENTIAL := 2
  const PARTIAL := 3
  const AMI := 4
  const TWO_B1Q := 5
  const RZ := 6

  /** The sample before the next one; a buffer that holds nothing yet reads as zero. */
  function Last(y: seq<int>): int {
    if y == [] then 0 else y[|y| - 1]
  }

  function Half(up: bool): int {
    if up then 1 else -1
  }

  /** The samples for one bit, after the output `y` and with the AMI sign as it stands. */
  function Coded(code: int, y: seq<int>, sign: int, bit: bool): seq<int> {
    if code == NRZ then [Half(bit)]
    else if code == MANCHESTER then [-Half(bit), Half(bit)]
    else if code == DIFFERENTIAL then
      var first := Half(bit == (Last(y) > 0));
      [first, -first]
    else if code == AMI then [if bit then sign else 0]
    else if code == RZ then [0, Half(bit)]
    else []
  }

  function NextSign(code: int, sign: int, bit: bool): int {
    if code == AMI && bit then -sign else sign
  }

  function SignAfter(code: int, bits: seq<bool>): int {
    if bits == [] then -1 else NextSign(code, SignAfter(code, bits[..|bits| - 1]), bits[|bits| - 1])
  }

  /** The whole output for a bit sequence, codes with one bit a symbol. */
  function Encode(code: int, bits: seq<bool>): seq<int> {
    if bits == [] then []
    else
      var before := bits[..|bits| - 1];
      Encode(code, before) + Coded(code, Encode(code, before), SignAfter(code, before), bits[|bits| - 1])
  }

  /** 2B1Q takes two bits a symbol, the first one for the sign. */
  function Quaternary(a: bool, b: bool): int {
    if a then (if b then 3 else 1) else (if b then -1 else -3)
  }

  function EncodePairs(bits: seq<bool>): (y: seq<int>)
    ensures |y| == |bits| / 2
  {
    seq(|bits| / 2, k requires 0 <= k < |bits| / 2 => Quaternary(bits[2 * k], bits[2 * k + 1]))
  }

  lemma EncodeSnoc(code: int, bits: seq<bool>, b: bool)
    ensures Encode(code, bits + [b]) == Encode(code, bits) + Coded(code, Encode(code, bits), SignAfter(code, bits), b)
    ensures SignAfter(code, bits + [b]) == NextSign(code, SignAfter(code, bits), b)
  {
    hide Coded, NextSign;
    assert (bits + [b])[..|bits|] == bits;
  }

  // ------------------------------------------------------------------ differential Manchester

  /** Symbol k read against the sample before it; `reference` is the level before the first one. */
  ghost function BitAt(y: seq<int>, reference: int, k: nat): bool
    requires 2 * k < |y|
  {
    (y[2 * k] > 0) == ((if k == 0 then reference else y[2 * k - 1]) > 0)
  }

  ghost function DecodeDifferential(y: seq<int>, reference: int): (b: seq<bool>)
    requires |y| % 2 == 0
    ensures |b| == |y| / 2
  {
    seq(|y| / 2, k requires 0 <= k < |y| / 2 => BitAt(y, reference, k))
  }

  function Inverted(y: seq<int>): (s: seq<int>)
    ensures |s| == |y|
  {
    seq(|y|, i requires 0 <= i < |y| => -y[i])
  }

  /** Two samples a bit, a half up and a half down. */
  ghost predicate Balanced(y: seq<int>, n: nat) {
    |y| == 2 * n && forall k | 0 <= k < n :: Pulse(y, k)
  }

  ghost predicate Pulse(y: seq<int>, k: int) {
    0 <= 2 * k < 2 * k + 1 < |y| && (y[2 * k] == 1 || y[2 * k] == -1) && y[2 * k + 1] == -y[2 * k]
  }

  lemma {:induction false} DifferentialBalanced(bits: seq<bool>)
    ensures Balanced(Encode(DIFFERENTIAL, bits), |bits|)
  {
    if bits != [] {
      var before, y := bits[..|bits| - 1], Encode(DIFFERENTIAL, bits[..|bits| - 1]);
      DifferentialBalanced(before);
      var all := Encode(DIFFERENTIAL, bits);
      forall k | 0 <= k < |bits|
        ensures Pulse(all, k)
      {
        if k < |bits| - 1 {
          assert Pulse(y, k);
        }
      }
    }
  }

  /** Every bit is recovered by comparing the first half of its symbol with the sample before it. */
  lemma {:induction false} DifferentialRoundTrip(bits: seq<bool>)
    ensures |Encode(DIFFERENTIAL, bits)| == 2 * |bits|
    ensures DecodeDifferential(Encode(DIFFERENTIAL, bits), 0) == bits
  {
    hide Encode, BitAt, Balanced;
    DifferentialBalanced(bits);
    BalancedLength(Encode(DIFFERENTIAL, bits), |bits|);
    if bits != [] {
      var before, b := bits[..|bits| - 1], bits[|bits| - 1];
      DifferentialRoundTrip(before);
      assert bits == before + [b];
      EncodeSnoc(DIFFERENTIAL, before, b);
      var y, all := Encode(DIFFERENTIAL, before), Encode(DIFFERENTIAL, bits);
      NewBit(y, b);
      forall k | 0 <= k < |bits|
        ensures BitAt(all, 0, k) == bits[k]
      {
        if k < |before| {
          OldBit(y, all, k);
          assert BitAt(y, 0, k) == DecodeDifferential(y, 0)[k];
        }
      }
    }
  }

  lemma BalancedLength(y: seq<int>, n: nat)
    requires Balanced(y, n)
    ensures |y| == 2 * n
  {
  }

  /** The symbol added for a bit reads as that bit. */
  lemma NewBit(y: seq<int>, b: bool)
    requires |y| % 2 == 0
    ensures var all := y + Coded(DIFFERENTIAL, y, -1, b);
            |all| == |y| + 2 && BitAt(all, 0, |y| / 2) == b
    ensures forall sign :: Coded(DIFFERENTIAL, y, sign, b) == Coded(DIFFERENTIAL, y, -1, b)
  {
  }

  lemma OldBit(y: seq<int>, all: seq<int>, k: nat)
    requires y <= all && 2 * k < |y|
    ensures BitAt(all, 0, k) == BitAt(y, 0, k)
  {
  }

  /** Turning the polarity of the line changes what is read at most in the first bit, and there exactly
      when the reference is not turned with it. */
  lemma PolarityFree(bits: seq<bool>, reference: int)
    requires bits != []
    ensures |Encode(DIFFERENTIAL, bits)| == 2 * |bits|
    ensures var y := Inverted(Encode(DIFFERENTIAL, bits));
            && DecodeDifferential(y, reference)[1..] == bits[1..]
            && (DecodeDifferential(y, reference) == bits <==> reference > 0)
  {
    hide Encode, BitAt, Balanced;
    DifferentialRoundTrip(bits);
    DifferentialBalanced(bits);
    var y := Encode(DIFFERENTIAL, bits);
    var d := DecodeDifferential(Inverted(y), reference);
    forall k | 0 <= k < |bits|
      ensures d[k] == if k == 0 && reference <= 0 then !bits[0] else bits[k]
    {
      InvertedBit(y, |bits|, reference, k);
      assert DecodeDifferential(y, 0)[k] == BitAt(y, 0, k);
    }
    if reference <= 0 {
      assert d[0] != bits[0];
    }
  }

  lemma InvertedBit(y: seq<int>, n: nat, reference: int, k: nat)
    requires Balanced(y, n) && k < n
    ensures BitAt(Inverted(y), reference, k) == if k == 0 && reference <= 0 then !BitAt(y, 0, 0) else BitAt(y, 0, k)
  {
    assert Pulse(y, k);
    if k > 0 {
      assert Pulse(y, k - 1);
    }
  }

  /** The running sum of the line stays within one: it has no direct current. */
  lemma {:induction false} NoDirectCurrent(y: seq<int>, n: nat, k: nat)
    requires Balanced(y, n) && k <= |y|
    ensures if k % 2 == 0 then Sum(y, k) == 0 else Sum(y, k) == y[k - 1] && (y[k - 1] == 1 || y[k - 1] == -1)
  {
    hide Balanced;
    if k > 0 {
      NoDirectCurrent(y, n, k - 1);
      PulseOf(y, n, k - 1);
    }
  }

  lemma PulseOf(y: seq<int>, n: nat, i: nat)
    requires Balanced(y, n) && i < |y|
    ensures y[i] == 1 || y[i] == -1
    ensures i % 2 == 1 ==> y[i] == -y[i - 1]
  {
    assert Pulse(y, i / 2);
  }

  /** No level lasts longer than two samples. */
  lemma ShortRuns(y: seq<int>, n: nat, i: nat)
    requires Balanced(y, n) && i + 2 < |y|
    ensures !(y[i] == y[i + 1] == y[i + 2])
  {
    PulseOf(y, n, i);
    PulseOf(y, n, i + 1);
    PulseOf(y, n, i + 2);
  }

  /** The line signal of differential Manchester, for every bit sequence. */
  lemma DifferentialLine(bits: seq<bool>, k: nat)
    requires k <= 2 * |bits|
    ensures |Encode(DIFFERENTIAL, bits)| == 2 * |bits|
    ensures -1 <= Sum(Encode(DIFFERENTIAL, bits), k) <= 1
    ensures k + 2 < 2 * |bits| ==> var y := Encode(DIFFERENTIAL, bits); !(y[k] == y[k + 1] == y[k + 2])
  {
    hide Encode, Sum;
    DifferentialBalanced(bits);
    NoDirectCurrent(Encode(DIFFERENTIAL, bits), |bits|, k);
    if k + 2 < 2 * |bits| {
      ShortRuns(Encode(DIFFERENTIAL, bits), |bits|, k);
    }
  }

  // ------------------------------------------------------------------ AMI

  lemma {:induction false} SumOfPrefix(y: seq<int>, z: seq<int>, n: nat)
    requires n <= |y|
    ensures Sum(y + z, n) == Sum(y, n)
  {
    if n > 0 {
      SumOfPrefix(y, z, n - 1);
    }
  }

  /** Alternate marks start below: the running sum is zero or minus one and tells the sign of the next
      mark, and a sample is non-zero exactly for a one. */
  lemma {:induction false} AmiLine(bits: seq<bool>, k: nat)
    requires k <= |bits|
    ensures var y := Encode(AMI, bits);
            && |y| == |bits| && -1 <= Sum(y, k) <= 0
            && Sum(y, |bits|) == (if SignAfter(AMI, bits) == -1 then 0 else -1)
            && (SignAfter(AMI, bits) == 1 || SignAfter(AMI, bits) == -1)
            && forall i | 0 <= i < |bits| :: (y[i] != 0) == bits[i]
  {
    hide Encode, SignAfter;
    if bits == [] {
      NothingEncoded(AMI);
    } else {
      var before, b := bits[..|bits| - 1], bits[|bits| - 1];
      AmiLine(before, if k < |bits| then k else 0);
      AmiSnoc(before, b);
      assert bits == before + [b];
      var y, v := Encode(AMI, before), if b then SignAfter(AMI, before) else 0;
      SumOfPrefix(y, [v], |y|);
      if k < |bits| {
        SumOfPrefix(y, [v], k);
      }
    }
  }

  lemma AmiSnoc(before: seq<bool>, b: bool)
    ensures var sign := SignAfter(AMI, before);
            && Encode(AMI, before + [b]) == Encode(AMI, before) + [if b then sign else 0]
            && SignAfter(AMI, before + [b]) == if b then -sign else sign
  {
    hide Encode, SignAfter;
    EncodeSnoc(AMI, before, b);
  }

  // ------------------------------------------------------------------ the memoryless codes

  /** The codes without memory: the last sample of a symbol is one above or one below zero, as its bit says. */
  lemma {:induction false} NrzRoundTrip(bits: seq<bool>, k: nat)
    requires k < |bits|
    ensures |Encode(NRZ, bits)| == |bits|
    ensures var v := Encode(NRZ, bits)[k]; (v == 1 <==> bits[k]) && (v == -1 <==> !bits[k])
  {
    var before, b := bits[..|bits| - 1], bits[|bits| - 1];
    assert bits == before + [b];
    EncodeSnoc(NRZ, before, b);
    if before != [] {
      NrzRoundTrip(before, if k < |before| then k else 0);
    }
  }

  lemma {:induction false} TwoHalvesRoundTrip(code: int, bits: seq<bool>, k: nat)
    requires (code == MANCHESTER || code == RZ) && k < |bits|
    ensures |Encode(code, bits)| == 2 * |bits|
    ensures var u, v := Encode(code, bits)[2 * k], Encode(code, bits)[2 * k + 1];
            && (v == 1 <==> bits[k]) && (v == -1 <==> !bits[k])
            && u == (if code == RZ then 0 else -v)
  {
    hide Encode, SignAfter;
    var before, b := bits[..|bits| - 1], bits[|bits| - 1];
    assert bits == before + [b];
    EncodeSnoc(code, before, b);
    if before == [] {
      NothingEncoded(code);
    } else {
      TwoHalvesRoundTrip(code, before, if k < |before| then k else 0);
    }
  }

  lemma NothingEncoded(code: int)
    ensures Encode(code, []) == [] && SignAfter(code, []) == -1
  {
  }

  /** Four levels two apart around zero, in the order of the pairs read as binary numbers; so both bits can be read
      back. */
  lemma PairsRoundTrip(bits: seq<bool>, k: nat)
    requires k < |bits| / 2
    ensures var v := EncodePairs(bits)[k];
            && v == 2 * (2 * Digit(bits[2 * k]) + Digit(bits[2 * k + 1])) - 3
            && bits[2 * k] == (v > 0) && bits[2 * k + 1] == (v == 3 || v == -1)
  {
  }

  function Digit(b: bool): int {
    if b then 1 else 0
  }

  // ------------------------------------------------------------------ the block

  ghost function Bits(xs: seq<real>): (b: seq<bool>)
    ensures |b| == |xs|
  {
    seq(|xs|, i requires 0 <= i < |xs| => xs[i] > 0.5)
  }

  function Distance(x: real, y: real): (d: real)
    ensures d >= 0.0
  {
    if x >= y then x - y else y - x
  }

  /** A sample is read as the nearer of zero and one, and as zero half-way. */
  lemma NearestBit(xs: seq<real>, i: nat)
    requires i < |xs|
    ensures Bits(xs)[i] <==> Distance(xs[i], 1.0) < Distance(xs[i], 0.0)
  {
  }

  ghost function Output(code: int, bits: seq<bool>): seq<int> {
    if code == TWO_B1Q then EncodePairs(bits) else Encode(code, bits)
  }

  lemma OutputSnoc(code: int, bits: seq<bool>, b: bool)
    requires code != TWO_B1Q
    ensures Output(code, bits + [b]) == Output(code, bits) + Coded(code, Output(code, bits), SignAfter(code, bits), b)
    ensures SignAfter(code, bits + [b]) == NextSign(code, SignAfter(code, bits), b)
  {
    hide Coded, NextSign, Encode, SignAfter, EncodePairs;
    EncodeSnoc(code, bits, b);
  }

  lemma OutputPair(bits: seq<bool>, a: bool, b: bool)
    requires |bits| % 2 == 0
    ensures Output(TWO_B1Q, bits + [a, b]) == Output(TWO_B1Q, bits) + [Quaternary(a, b)]
  {
    hide Quaternary;
    var all := bits + [a, b];
    assert forall k | 0 <= k < |bits| / 2 :: EncodePairs(all)[k] == EncodePairs(bits)[k];
  }

  lemma BitsSnoc(xs: seq<real>, x: real)
    ensures Bits(xs + [x]) == Bits(xs) + [x > 0.5]
  {
  }

  class BitEncoder {
    const codeType: int
    var sign: int

    ghost predicate Valid(seen: seq<real>, out: OutBuffer<int>)
      reads this, out
    {
      && codeType >= 0 && codeType != PARTIAL && (codeType == TWO_B1Q ==> |seen| % 2 == 0)
      && out.cells == Output(codeType, Bits(seen)) && (codeType != TWO_B1Q ==> sign == SignAfter(codeType, Bits(seen)))
    }

    constructor (code: int, out: OutBuffer<int>)
      requires code >= 0 && code != PARTIAL && out.cells == []
      ensures Valid([], out) && codeType == code
    {
      codeType, sign := code, -1;
    }

    method PutTwo(a: int, b: int, out: OutBuffer<int>) returns (full: bool)
      modifies out
      ensures if full then out.cells == old(out.cells) || out.cells == old(out.cells) + [a]
              else out.cells == old(out.cells) + [a, b]
    {
      full := out.Put(a);
      if !full {
        full := out.Put(b);
      }
    }

    /** The samples of one bit. */
    method Emit(thisX: bool, out: OutBuffer<int>) returns (full: bool)
      requires codeType != TWO_B1Q && codeType != PARTIAL
      modifies this`sign, out
      ensures var s := Coded(codeType, old(out.cells), old(sign), thisX);
              if full then old(out.cells) <= out.cells <= old(out.cells) + s
              else out.cells == old(out.cells) + s && sign == NextSign(codeType, old(sign), thisX)
    {
      full := false;
      if codeType == NRZ {
        full := out.Put(if thisX then 1 else -1);
      } else if codeType == MANCHESTER {
        if thisX {
          full := PutTwo(-1, 1, out);
        } else {
          full := PutTwo(1, -1, out);
        }
      } else if codeType == DIFFERENTIAL {
        var lastY := out.cells != [] && out.cells[|out.cells| - 1] > 0;
        if thisX {
          if lastY {
            full := PutTwo(1, -1, out);
          } else {
            full := PutTwo(-1, 1, out);
          }
        } else {
          if lastY {
            full := PutTwo(-1, 1, out);
          } else {
            full := PutTwo(1, -1, out);
          }
        }
      } else if codeType == AMI {
        full := out.Put(if thisX then sign else 0);
        if thisX {
          sign := 0 - sign;
        }
      } else if codeType == RZ {
        full := PutTwo(0, if thisX then 1 else -1, out);
      }
    }

    /** One symbol's worth of input. */
    method Process(inp: InBuffer<real>, out: OutBuffer<int>) returns (full: bool)
      requires Valid(inp.taken, out) && |inp.pending| >= (if codeType == TWO_B1Q then 2 else 1)
      modifies this`sign, inp, out
      ensures var used := if codeType == TWO_B1Q then 2 else 1;
              inp.pending == old(inp.pending)[used..] && inp.taken == old(inp.taken) + old(inp.pending)[..used]
      ensures if full then out.cells <= Output(codeType, Bits(inp.taken)) else Valid(inp.taken, out)
    {
      hide Output, SignAfter, Coded, NextSign;
      ghost var before := inp.taken;
      var x := inp.Take();
      BitsSnoc(before, x);
      var thisX := x > 0.5;
      if codeType == TWO_B1Q {
        var x2 := inp.Take();
        BitsSnoc(before + [x], x2);
        assert Bits(before) + [thisX] + [x2 > 0.5] == Bits(before) + [thisX, x2 > 0.5];
        OutputPair(Bits(before), thisX, x2 > 0.5);
        if thisX {
          full := out.Put(if x2 > 0.5 then 3 else 1);
        } else {
          full := out.Put(if x2 > 0.5 then -1 else -3);
        }
      } else {
        OutputSnoc(codeType, Bits(before), thisX);
        full := Emit(thisX, out);
      }
    }

    /** One visit: the output is the encoding of all bits taken; with 2B1Q a single last sample waits for
        its pair; a refused cell (99) ends the run. */
    method MainCode(inp: InBuffer<real>, out: OutBuffer<int>) returns (status: int)
      requires Valid(inp.taken, out)
      modifies this`sign, inp, out
      ensures status == 0 || status == 99
      ensures old(inp.taken) <= inp.taken && old(inp.taken + inp.pending) == inp.taken + inp.pending
      ensures status == 0 ==> Valid(inp.taken, out)
                              && |inp.pending| == if codeType == TWO_B1Q then |old(inp.pending)| % 2 else 0
      ensures status == 99 ==> out.cells <= Output(codeType, Bits(inp.taken))
    {
      hide *;
      while inp.pending != []
        invariant Valid(inp.taken, out) && old(inp.taken) <= inp.taken
        invariant old(inp.taken + inp.pending) == inp.taken + inp.pending
        invariant codeType == TWO_B1Q ==> |inp.pending| % 2 == |old(inp.pending)| % 2
        decreases |inp.pending|
      {
        if codeType == TWO_B1Q && |inp.pending| == 1 {
          return 0;
        }
        var full := Process(inp, out);
        if full {
          return 99;
        }
      }
      return 0;
    }
  }
}
