/** Line coding with an interruptible symbol: every sample of every symbol reaches the output once and in
    order, whatever the back-pressure, and the bits can be read back from the symbols. */
module LineCode {
  import opened Kernel
  import opened Vectors

  const NRZ := 0
  const BIPHASE := 1
  const TWO_B1Q := 2
  const RZ_AMI := 3

  // ------------------------------------------------------------------ symbols

  predicate High(x: real) {
    x > 0.5
  }

  function Sign(x: real): int {
    if High(x) then 1 else -1
  }

  /** The non-zero samples of a stream. */
  function Marks(xs: seq<real>): nat {
    if xs == [] then 0 else Marks(xs[..|xs| - 1]) + (if xs[|xs| - 1] != 0.0 then 1 else 0)
  }

  /** The sign the next mark of an alternating code takes. */
  function NextMark(xs: seq<real>): int {
    if Marks(xs) % 2 == 0 then 1 else -1
  }

  /** The code values the last sample of xs gives: one, or none for the first sample of a 2B1Q pair. */
  function Symbol(code: int, xs: seq<real>): (s: seq<int>)
    requires xs != []
    ensures |s| <= 1
  {
    var x := xs[|xs| - 1];
    if code == TWO_B1Q then
      if |xs| % 2 == 1 then [] else [Sign(x) * (if x == xs[|xs| - 2] then 3 else 1)]
    else if code == RZ_AMI then [if x != 0.0 then NextMark(xs[..|xs| - 1]) else 0]
    else [Sign(x)]
  }

  /** All code values of a stream. */
  function Symbols(code: int, xs: seq<real>): seq<int> {
    if xs == [] then [] else Symbols(code, xs[..|xs| - 1]) + Symbol(code, xs)
  }

  lemma SymbolsSnoc(code: int, xs: seq<real>, x: real)
    ensures Symbols(code, xs + [x]) == Symbols(code, xs) + Symbol(code, xs + [x])
    ensures Marks(xs + [x]) == Marks(xs) + (if x != 0.0 then 1 else 0)
  {
    hide Symbol;
    assert (xs + [x])[..|xs|] == xs;
  }

  // ------------------------------------------------------------------ reading the bits back

  predicate Binary(xs: seq<real>) {
    forall i | 0 <= i < |xs| :: xs[i] == 0.0 || xs[i] == 1.0
  }

  function Level(b: bool): real {
    if b then 1.0 else 0.0
  }

  /** The bits a code value stands for. */
  function Reading(code: int, v: int): seq<real> {
    if code == TWO_B1Q then [Level(if v == 3 || v == -3 then v > 0 else v < 0), Level(v > 0)]
    else [Level(if code == RZ_AMI then v != 0 else v > 0)]
  }

  function Decoded(code: int, symbols: seq<int>): seq<real> {
    if symbols == [] then []
    else Decoded(code, symbols[..|symbols| - 1]) + Reading(code, symbols[|symbols| - 1])
  }

  lemma DecodedConcat(code: int, symbols: seq<int>, more: seq<int>)
    requires |more| <= 1
    ensures Decoded(code, symbols + more)
         == Decoded(code, symbols) + (if more == [] then [] else Reading(code, more[0]))
  {
    hide Reading;
    if more == [] {
      assert symbols + more == symbols;
    } else {
      assert (symbols + more)[..|symbols|] == symbols;
    }
  }

  /** For every code the bits are read back from the symbols; with 2B1Q the odd last bit waits for its pair. */
  lemma {:induction false} BitsReadBack(code: int, xs: seq<real>)
    requires Binary(xs) && NRZ <= code <= RZ_AMI
    ensures Decoded(code, Symbols(code, xs)) == xs[..if code == TWO_B1Q then |xs| - |xs| % 2 else |xs|]
  {
    hide *;
    if xs == [] {
      NothingDecoded(code);
    } else {
      var before, x := xs[..|xs| - 1], xs[|xs| - 1];
      PrefixBinary(xs);
      BitsReadBack(code, before);
      assert xs == before + [x];
      SymbolsSnoc(code, before, x);
      OneSymbol(code, xs);
      DecodedConcat(code, Symbols(code, before), Symbol(code, xs));
      Parities(|xs|);
      assert code == TWO_B1Q && |xs| % 2 == 0 ==> before[..|xs| - 2] + xs[|xs| - 2..] == xs;
    }
  }

  lemma NothingDecoded(code: int)
    ensures Decoded(code, Symbols(code, [])) == []
  {
  }

  lemma PrefixBinary(xs: seq<real>)
    requires Binary(xs) && xs != []
    ensures Binary(xs[..|xs| - 1])
  {
  }

  lemma Parities(n: nat)
    requires n > 0
    ensures if n % 2 == 0 then (n - 1) - (n - 1) % 2 == n - 2 else (n - 1) - (n - 1) % 2 == n - 1 == n - n % 2
  {
  }

  lemma OneSymbol(code: int, xs: seq<real>)
    requires xs != [] && Binary(xs) && NRZ <= code <= RZ_AMI
    ensures var s := Symbol(code, xs);
            && |s| <= 1 && (s == [] <==> code == TWO_B1Q && |xs| % 2 == 1)
            && (s != [] ==> Reading(code, s[0]) == if code == TWO_B1Q then xs[|xs| - 2..] else [xs[|xs| - 1]])
  {
    assert xs[|xs| - 1] == 0.0 || xs[|xs| - 1] == 1.0;
    if |xs| >= 2 {
      assert xs[|xs| - 2] == 0.0 || xs[|xs| - 2] == 1.0;
    }
  }

  /** The bit of a binary sample, as a number. */
  function Digit(x: real): int {
    if x == 1.0 then 1 else 0
  }

  lemma {:induction false} SymbolCount(code: int, xs: seq<real>)
    ensures |Symbols(code, xs)| == if code == TWO_B1Q then |xs| / 2 else |xs|
  {
    if xs != [] {
      SymbolCount(code, xs[..|xs| - 1]);
    }
  }

  /** The levels: plain symbols are one below or above zero; 2B1Q symbols lie on four levels two apart around zero,
      in the order of the pairs read as binary numbers with the second bit first. */
  lemma {:induction false} Levels(code: int, xs: seq<real>, k: nat)
    requires Binary(xs) && code in {NRZ, BIPHASE, TWO_B1Q} && k < |Symbols(code, xs)|
    ensures |Symbols(code, xs)| == if code == TWO_B1Q then |xs| / 2 else |xs|
    ensures Symbols(code, xs)[k]
         == if code == TWO_B1Q then 2 * (2 * Digit(xs[2 * k + 1]) + Digit(xs[2 * k])) - 3 else 2 * Digit(xs[k]) - 1
  {
    hide Symbols;
    SymbolCount(code, xs);
    var before, x := xs[..|xs| - 1], xs[|xs| - 1];
    assert xs == before + [x];
    SymbolsSnoc(code, before, x);
    SymbolCount(code, before);
    PrefixBinary(xs);
    if k < |Symbols(code, before)| {
      Levels(code, before, k);
    } else {
      NewLevel(code, xs);
    }
  }

  lemma NewLevel(code: int, xs: seq<real>)
    requires Binary(xs) && xs != [] && code in {NRZ, BIPHASE, TWO_B1Q} && (code == TWO_B1Q ==> |xs| % 2 == 0)
    ensures Symbol(code, xs) == [if code == TWO_B1Q then 2 * (2 * Digit(xs[|xs| - 1]) + Digit(xs[|xs| - 2])) - 3
                                 else 2 * Digit(xs[|xs| - 1]) - 1]
  {
    assert xs[|xs| - 1] == 0.0 || xs[|xs| - 1] == 1.0;
    if |xs| >= 2 {
      assert xs[|xs| - 2] == 0.0 || xs[|xs| - 2] == 1.0;
    }
  }

  function Distance(x: real, y: real): (d: real)
    ensures d >= 0.0
  {
    if x >= y then x - y else y - x
  }

  /** A sample counts as high when it is nearer to one than to zero. */
  lemma NearestLevel(x: real)
    ensures High(x) <==> Distance(x, 1.0) < Distance(x, 0.0)
  {
  }

  /** In the alternating code the marks alternate in sign, the first one positive. */
  ghost predicate Alternates(s: seq<int>, expected: int) {
    if s == [] then true
    else if s[0] == 0 then Alternates(s[1..], expected)
    else s[0] == expected && Alternates(s[1..], -expected)
  }

  /** The sign after a sequence of values: it turns with every non-zero one. */
  function Turned(s: seq<int>, sign: int): int {
    if s == [] then sign else if s[0] == 0 then Turned(s[1..], sign) else Turned(s[1..], -sign)
  }

  lemma {:induction false} AlternatesSnoc(s: seq<int>, v: int, sign: int)
    requires Alternates(s, sign) && (v == 0 || v == Turned(s, sign))
    ensures Alternates(s + [v], sign)
    ensures Turned(s + [v], sign) == if v == 0 then Turned(s, sign) else -Turned(s, sign)
  {
    if s == [] {
      assert (s + [v])[1..] == [];
    } else {
      assert (s + [v])[1..] == s[1..] + [v];
      AlternatesSnoc(s[1..], v, if s[0] == 0 then sign else -sign);
    }
  }

  lemma {:induction false} MarksAlternate(xs: seq<real>)
    ensures Alternates(Symbols(RZ_AMI, xs), 1) && Turned(Symbols(RZ_AMI, xs), 1) == NextMark(xs)
  {
    hide Alternates, Turned;
    if xs == [] {
      NothingAlternates();
    } else {
      var before, x := xs[..|xs| - 1], xs[|xs| - 1];
      MarksAlternate(before);
      AlternatesSnoc(Symbols(RZ_AMI, before), if x != 0.0 then NextMark(before) else 0, 1);
    }
  }

  lemma NothingAlternates()
    ensures Alternates([], 1) && Turned([], 1) == 1
  {
  }

  // ------------------------------------------------------------------ samples

  /** One symbol as it is sent. */
  function Shaped(v: int, shape: seq<int>): (s: seq<int>)
    ensures |s| == |shape|
  {
    seq(|shape|, i requires 0 <= i < |shape| => v * shape[i])
  }

  function Sent(symbols: seq<int>, shape: seq<int>): seq<int> {
    if symbols == [] then [] else Sent(symbols[..|symbols| - 1], shape) + Shaped(symbols[|symbols| - 1], shape)
  }

  lemma SentSnoc(symbols: seq<int>, more: seq<int>, shape: seq<int>)
    requires |more| <= 1
    ensures Sent(symbols + more, shape) == Sent(symbols, shape) + (if more == [] then [] else Shaped(more[0], shape))
  {
    if more == [] {
      assert symbols + more == symbols;
    } else {
      assert (symbols + more)[..|symbols|] == symbols;
    }
  }

  /** The pulse of a code: a single one, or for biphase a half below and a half above. */
  ghost predicate ShapeOf(code: int, shape: seq<int>) {
    && shape != [] && (code == BIPHASE ==> |shape| % 2 == 0)
    && forall i | 0 <= i < |shape| ::
         shape[i] == if code == BIPHASE then (if i == 0 then -1 else if i == |shape| / 2 then 1 else 0)
                     else if i == 0 then 1 else 0
  }

  lemma {:induction false} ZeroTail(s: seq<int>, n: nat, from: nat)
    requires from <= n <= |s| && forall i | from <= i < n :: s[i] == 0
    ensures Sum(s, n) == Sum(s, from) && DotInt(s, s, n) == DotInt(s, s, from)
  {
    if n > from {
      ZeroTail(s, n - 1, from);
    }
  }

  function Square(v: int): int {
    v * v
  }

  lemma Squares(v: int)
    ensures Square(-v) == Square(v) == v * v
  {
  }

  lemma NextCell(s: seq<int>, n: nat)
    requires n < |s|
    ensures Sum(s, n + 1) == Sum(s, n) + s[n] && DotInt(s, s, n + 1) == DotInt(s, s, n) + Square(s[n])
    ensures n == 0 ==> Sum(s, 1) == s[0] && DotInt(s, s, 1) == Square(s[0])
  {
  }

  /** The samples of one symbol carry its value: for biphase two opposite halves, the first one negative, which add
      up to nothing; for the other codes all of it at once. */
  lemma PulseCarries(code: int, v: int, shape: seq<int>)
    requires ShapeOf(code, shape)
    ensures |Shaped(v, shape)| == |shape| > 0
    ensures var s, n := Shaped(v, shape), |shape|;
            && DotInt(s, s, n) == (if code == BIPHASE then 2 * (v * v) else v * v)
            && Sum(s, n) == (if code == BIPHASE then 0 else v)
            && s[0] == (if code == BIPHASE then -v else v)
            && (code == BIPHASE ==> forall i | 0 <= i < n / 2 :: s[i + n / 2] == -s[i])
  {
    var s, n := Shaped(v, shape), |shape|;
    var h := if code == BIPHASE then n / 2 else 0;
    forall i | 0 <= i < n
      ensures s[i] == if code == BIPHASE then (if i == 0 then -v else if i == h then v else 0)
                      else if i == 0 then v else 0
    {
      ShapedAt(v, shape, i);
    }
    hide *;
    NextCell(s, 0);
    Squares(v);
    if code == BIPHASE {
      ZeroTail(s, h, 1);
      NextCell(s, h);
      ZeroTail(s, n, h + 1);
    } else {
      ZeroTail(s, n, 1);
    }
  }

  // ------------------------------------------------------------------ the block

  class LineCoder {
    const codeType: int
    const smplbd: nat
    const shape: array<int>
    var even: int
    var oneState: int
    var overFlow: bool
    var overFlowIndex: nat
    var overFlowCodeValue: int

    /** The rest of the symbol that was interrupted. */
    ghost function Tail(): seq<int>
      reads this`overFlow, this`overFlowIndex, this`overFlowCodeValue, shape
    {
      if overFlow && overFlowIndex <= shape.Length then Shaped(overFlowCodeValue, shape[..])[overFlowIndex..] else []
    }

    ghost predicate Ready()
      reads this`overFlow, this`overFlowIndex, shape
    {
      && NRZ <= codeType <= RZ_AMI && shape.Length == smplbd && ShapeOf(codeType, shape[..])
      && (overFlow ==> overFlowIndex < smplbd)
    }

    /** Parity and sign after the samples seen. */
    ghost predicate Tracks(seen: seq<real>)
      reads this`even, this`oneState
    {
      && (codeType == TWO_B1Q ==> even == (|seen| + 1) % 2)
      && (codeType == RZ_AMI ==> oneState == -NextMark(seen))
    }

    /** What is out and what waits are all the samples of all the symbols formed. */
    ghost predicate Complete(seen: seq<real>, out: OutBuffer<int>)
      reads this, shape, out
    {
      out.cells + Tail() == Sent(Symbols(codeType, seen), shape[..])
    }

    /** After an error the output still is a prefix of what the symbols before the last one call for. */
    ghost predicate Broken(seen: seq<real>, out: OutBuffer<int>)
      reads shape, out
    {
      seen != [] && out.cells <= Sent(Symbols(codeType, seen[..|seen| - 1]), shape[..])
    }

    constructor (code: int, samples: nat, pulse: array<int>)
      requires NRZ <= code <= RZ_AMI && pulse.Length == samples && ShapeOf(code, pulse[..])
      ensures Ready() && Tracks([]) && Tail() == [] && codeType == code && shape == pulse && smplbd == samples
    {
      codeType, smplbd, shape := code, samples, pulse;
      even, oneState, overFlow, overFlowIndex, overFlowCodeValue := 1, -1, false, 0, 0;
    }

    /** Puts out what was left of the interrupted symbol; a refusal here is an error. */
    method Drain(out: OutBuffer<int>) returns (status: int)
      requires Ready() && overFlow
      modifies this`overFlow, out
      ensures status == 0 || status == 99
      ensures status == 0 ==> !overFlow && out.cells == old(out.cells + Tail())
      ensures status == 99 ==> out.cells <= old(out.cells + Tail())
    {
      hide ShapeOf, Shaped;
      ghost var tail := Tail();
      ShapedLength(overFlowCodeValue, shape[..]);
      var j := overFlowIndex;
      while j < smplbd
        invariant overFlowIndex <= j <= smplbd && (overFlow ==> j == overFlowIndex)
        invariant out.cells == old(out.cells) + tail[..j - overFlowIndex]
      {
        var full := out.Put(overFlowCodeValue * shape[j]);
        if full {
          return 99;
        }
        ShapedAt(overFlowCodeValue, shape[..], j);
        assert tail[..j + 1 - overFlowIndex] == tail[..j - overFlowIndex] + [Shaped(overFlowCodeValue, shape[..])[j]];
        overFlow := false;
        j := j + 1;
      }
      assert tail[..smplbd - overFlowIndex] == tail;
      return 0;
    }

    lemma NoTail()
      requires !overFlow
      ensures Tail() == []
    {
    }

    lemma TailIs(all: seq<int>)
      requires overFlow && overFlowIndex < shape.Length && all == Shaped(overFlowCodeValue, shape[..])
      ensures |all| == shape.Length && Tail() == all[overFlowIndex..]
      ensures all[..overFlowIndex] + Tail() == all
    {
      hide Shaped;
      ShapedLength(overFlowCodeValue, shape[..]);
    }

    /** Sends sample i of a symbol, behind the tail of an interrupted one. */
    method SendSample(v: int, i: nat, out: OutBuffer<int>) returns (status: int)
      requires Ready() && i < smplbd
      modifies this`overFlow, this`overFlowIndex, this`overFlowCodeValue, out
      ensures status == 0 || (status == 99 && old(overFlow))
      ensures |Shaped(v, shape[..])| == smplbd
      ensures var all := Shaped(v, shape[..]);
              if status == 99 then out.cells <= old(out.cells + Tail())
              else if overFlow then Ready() && out.cells == old(out.cells + Tail()) && all[..i] + Tail() == all
              else out.cells == old(out.cells + Tail()) + [all[i]]
    {
      hide Shaped, ShapeOf, Tail;
      ShapedLength(v, shape[..]);
      ShapedAt(v, shape[..], i);
      if overFlow {
        status := Drain(out);
        if status != 0 {
          return;
        }
      } else {
        NoTail();
      }
      status := 0;
      var full := out.Put(v * shape[i]);
      if full {
        overFlowIndex, overFlowCodeValue, overFlow := i, v, true;
        TailIs(Shaped(v, shape[..]));
      }
    }

    lemma SomeSamples()
      requires Ready()
      ensures smplbd > 0
    {
    }

    /** Sends one symbol; a refusal saves its rest. */
    method Send(v: int, out: OutBuffer<int>) returns (status: int)
      requires Ready()
      modifies this`overFlow, this`overFlowIndex, this`overFlowCodeValue, out
      ensures status == 0 || status == 99
      ensures status == 0 ==> Ready() && out.cells + Tail() == old(out.cells + Tail()) + Shaped(v, shape[..])
      ensures status == 99 ==> out.cells <= old(out.cells + Tail())
    {
      hide Shaped, ShapeOf, Tail;
      ghost var all, start := Shaped(v, shape[..]), out.cells + Tail();
      ShapedLength(v, shape[..]);
      SomeSamples();
      status := SendSample(v, 0, out);
      var i := 1;
      while i < smplbd && status == 0 && !overFlow
        invariant 1 <= i <= smplbd && (status == 0 || status == 99)
        invariant status == 99 ==> out.cells <= start
        invariant status == 0 && !overFlow ==> Ready() && out.cells == start + all[..i]
        invariant status == 0 && overFlow ==> Ready() && out.cells + Tail() == start + all
      {
        NoTail();
        status := SendSample(v, i, out);
        assert all[..i + 1] == all[..i] + [all[i]];
        i := i + 1;
      }
      if !overFlow {
        NoTail();
        assert all[..smplbd] == all;
      }
    }

    /** The code value of the newest sample, if it completes one. */
    method Form(inp: InBuffer<real>) returns (v: int, none: bool)
      requires inp.taken != [] && Tracks(inp.taken[..|inp.taken| - 1]) && NRZ <= codeType <= RZ_AMI
      modifies this`even, this`oneState
      ensures Tracks(inp.taken) && Symbol(codeType, inp.taken) == if none then [] else [v]
    {
      hide Marks;
      ghost var before := inp.taken[..|inp.taken| - 1];
      var x := inp.taken[|inp.taken| - 1];
      SymbolsSnoc(codeType, before, x);
      assert inp.taken == before + [x];
      v, none := 0, false;
      if codeType == TWO_B1Q {
        even := (even + 1) % 2;
        if even != 0 {
          var mag := 1;
          if x == inp.taken[|inp.taken| - 2] {
            mag := 3;
          }
          v := if High(x) then mag else -mag;
        } else {
          none := true;
        }
      } else if codeType == RZ_AMI {
        if x != 0.0 {
          oneState := -1 * oneState;
          v := oneState;
        }
      } else {
        v := if High(x) then 1 else -1;
      }
    }

    /** One sample: its symbol, if it completes one, is sent. */
    method Process(inp: InBuffer<real>, out: OutBuffer<int>, ghost before: seq<real>)
      returns (status: int, interrupted: bool)
      requires inp.taken != [] && before == inp.taken[..|inp.taken| - 1]
      requires Ready() && Tracks(before) && Complete(before, out)
      modifies this, out
      ensures status == 0 || status == 99
      ensures status == 0 ==> Ready() && Tracks(inp.taken) && Complete(inp.taken, out) && (interrupted ==> overFlow)
      ensures status == 99 ==> Broken(inp.taken, out)
    {
      hide Sent, Symbols, Symbol, ShapeOf, Tracks, Shaped, Tail;
      SymbolsSnoc(codeType, before, inp.taken[|inp.taken| - 1]);
      assert before + [inp.taken[|inp.taken| - 1]] == inp.taken;
      var v, none := Form(inp);
      SentSnoc(Symbols(codeType, before), Symbol(codeType, inp.taken), shape[..]);
      status, interrupted := 0, false;
      if !none {
        status := Send(v, out);
        interrupted := overFlow;
      }
    }

    /** One visit with one output buffer: whatever is refused, nothing is lost, repeated or reordered; the
        visit ends early when a symbol is interrupted, and only a second refusal in a row is an error. */
    method MainCode(inp: InBuffer<real>, out: OutBuffer<int>) returns (status: int)
      requires Ready() && Tracks(inp.taken) && Complete(inp.taken, out)
      modifies this, inp, out
      ensures status == 0 || status == 99
      ensures old(inp.taken) <= inp.taken && old(inp.pending) == inp.taken[|old(inp.taken)|..] + inp.pending
      ensures status == 0 ==>
                Ready() && Tracks(inp.taken) && Complete(inp.taken, out) && (inp.pending == [] || overFlow)
      ensures status == 99 ==> Broken(inp.taken, out)
    {
      hide *;
      ghost var t0 := inp.taken;
      while inp.pending != []
        invariant Ready() && Tracks(inp.taken) && Complete(inp.taken, out)
        invariant t0 <= inp.taken && old(inp.pending) == inp.taken[|t0|..] + inp.pending
        decreases |inp.pending|
      {
        ghost var before := inp.taken;
        var x := inp.Take();
        assert inp.taken[..|inp.taken| - 1] == before;
        LastCell(before, x, |t0|);
        var interrupted: bool;
        status, interrupted := Process(inp, out, before);
        if status != 0 || interrupted {
          return;
        }
      }
      return 0;
    }
  }

  /** Sets up the pulse; an odd number of samples does not suit biphase, and other codes are unknown. */
  method UserInit(code: int, smplbd: nat) returns (status: int, block: LineCoder?)
    requires smplbd > 0
    ensures status == if code == BIPHASE && smplbd % 2 != 0 then 1 else if NRZ <= code <= RZ_AMI then 0 else 2
    ensures status == 0 <==> block != null
    ensures block != null ==> fresh(block) && fresh(block.shape) && block.codeType == code && block.smplbd == smplbd
    ensures block != null ==> block.Ready() && block.Tracks([]) && block.Tail() == []
  {
    var template := new int[smplbd](_ => 0);
    if code == NRZ || code == RZ_AMI {
      template[0] := 1;
    } else if code == BIPHASE {
      if smplbd % 2 != 0 {
        return 1, null;
      }
      template[0] := -1;
      template[smplbd / 2] := 1;
    } else if code == TWO_B1Q {
      template[0] := 1;
    } else {
      return 2, null;
    }
    block := new LineCoder(code, smplbd, template);
    return 0, block;
  }

  lemma ShapedLength(v: int, shape: seq<int>)
    ensures |Shaped(v, shape)| == |shape|
  {
  }

  lemma ShapedAt(v: int, shape: seq<int>, i: nat)
    requires i < |shape|
    ensures Shaped(v, shape)[i] == v * shape[i]
  {
  }
}
