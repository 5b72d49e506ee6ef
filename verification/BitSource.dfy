/** The pseudo-random bit source: the exact cycle structure of its shift register, and the stream it puts
    out under pacing and back-pressure. */
module BitSource {
  import opened Kernel
  import opened Arith

  // ------------------------------------------------------------------ the register

  /** The shift register of the source, one step: bits 10 and 3 and a one are summed modulo 2 into bit 0. */
  function NextRegister(s: bv32): bv32 {
    ((((s >> 10) & 1) + ((s >> 3) & 1) + 1) % 2) + (s << 1)
  }

  function Low(s: bv32): bv11 {
    (s & 0x7ff) as bv11
  }

  /** The same step on the low 11 bits, which decide everything that is put out. */
  function Next(v: bv11): bv11 {
    (v << 1) | (((v >> 10) ^ (v >> 3) ^ 1) & 1)
  }

  lemma LowSteps(s: bv32)
    ensures Low(NextRegister(s)) == Next(Low(s))
    ensures NextRegister(s) & 1 == (Next(Low(s)) & 1) as bv32
  {
  }

  function Previous(v: bv11): bv11 {
    (v >> 1) | (((v ^ (v >> 4) ^ 1) & 1) << 10)
  }

  lemma StepInverts(v: bv11)
    ensures Previous(Next(v)) == v && Next(Previous(v)) == v
  {
  }

  function Steps(n: nat, v: bv11): bv11 {
    if n == 0 then v else Next(Steps(n - 1, v))
  }

  lemma {:induction false} StepsAdd(a: nat, b: nat, v: bv11)
    ensures Steps(a + b, v) == Steps(a, Steps(b, v))
  {
    hide Next;
    if a > 0 {
      StepsAdd(a - 1, b, v);
    }
  }

  lemma {:induction false} StepsInjective(n: nat, u: bv11, v: bv11)
    requires Steps(n, u) == Steps(n, v)
    ensures u == v
  {
    if n > 0 {
      StepInverts(Steps(n - 1, u));
      StepInverts(Steps(n - 1, v));
      hide Next, Previous;
      StepsInjective(n - 1, u, v);
    }
  }

  // ------------------------------------------------------------------ the recurrence of the bits

  /** Bit m of the output stream of a seed. */
  function Bit(v: bv11, m: nat): bv11 {
    Steps(m + 1, v) & 1
  }

  lemma FourSteps(n: nat, v: bv11)
    ensures Steps(n + 4, v) == Next(Next(Next(Next(Steps(n, v)))))
  {
    hide Next;
    assert Steps(n + 4, v) == Next(Steps(n + 3, v));
    assert Steps(n + 3, v) == Next(Steps(n + 2, v));
    assert Steps(n + 2, v) == Next(Steps(n + 1, v));
  }

  /** Bit i of a register state. */
  function Cell(v: bv11, i: nat): bv11
    requires i < 11
  {
    (v >> i) & 1
  }

  lemma CellMoves(u: bv11, i: nat)
    requires 0 < i < 11
    ensures Cell(Next(u), i) == Cell(u, i - 1)
  {
    if i <= 3 {
      assert i == 1 || i == 2 || i == 3;
    } else if i <= 6 {
      assert i == 4 || i == 5 || i == 6;
    } else {
      assert i == 7 || i == 8 || i == 9 || i == 10;
    }
  }

  lemma NewCell(u: bv11)
    ensures Next(u) & 1 == 1 ^ Cell(u, 10) ^ Cell(u, 3)
  {
  }

  /** The stream with the bits of the seed in front of it, the lowest one last. */
  function Extended(v: bv11, m: int): bv11
    requires m >= -11
  {
    if m < 0 then Cell(v, -1 - m) else Bit(v, m)
  }

  /** The register always holds the last eleven bits. */
  lemma {:induction false} RegisterIsHistory(n: nat, v: bv11, i: nat)
    requires i < 11
    ensures Cell(Steps(n, v), i) == Extended(v, n - 1 - i)
  {
    hide Cell, Next;
    if n > 0 {
      if i == 0 {
        LowestCell(Steps(n, v));
      } else {
        CellMoves(Steps(n - 1, v), i);
        RegisterIsHistory(n - 1, v, i - 1);
      }
    }
  }

  lemma LowestCell(u: bv11)
    ensures Cell(u, 0) == u & 1
  {
  }

  /** Every bit, from the first one on, is one plus the bits eleven and four places before it, modulo 2, where the
      seed stands for the bits before the start. */
  lemma EveryBit(v: bv11, m: nat)
    ensures Bit(v, m) == 1 ^ Extended(v, m - 11) ^ Extended(v, m - 4)
  {
    hide Next, Cell, Extended;
    RegisterIsHistory(m, v, 10);
    RegisterIsHistory(m, v, 3);
    NewCell(Steps(m, v));
  }

  lemma ThreeSteps(n: nat, v: bv11)
    ensures Steps(n + 3, v) == Next(Next(Next(Steps(n, v))))
  {
    hide Next;
    assert Steps(n + 3, v) == Next(Steps(n + 2, v));
    assert Steps(n + 2, v) == Next(Steps(n + 1, v));
  }

  // ------------------------------------------------------------------ the cycles

  function Next8(v: bv11): bv11 {
    Next(Next(Next(Next(Next(Next(Next(Next(v))))))))
  }

  function Next64(v: bv11): bv11 {
    Next8(Next8(Next8(Next8(Next8(Next8(Next8(Next8(v))))))))
  }

  lemma EightSteps(n: nat, v: bv11)
    ensures Steps(n + 8, v) == Next8(Steps(n, v))
  {
    hide Next, Steps;
    FourSteps(n, v);
    FourSteps(n + 4, v);
  }

  lemma SixtyFourSteps(n: nat, v: bv11)
    ensures Steps(n + 64, v) == Next64(Steps(n, v))
  {
    hide Next8, Steps;
    EightSteps(n, v);
    EightSteps(n + 8, v);
    EightSteps(n + 16, v);
    EightSteps(n + 24, v);
    EightSteps(n + 32, v);
    EightSteps(n + 40, v);
    EightSteps(n + 48, v);
    EightSteps(n + 56, v);
  }

  lemma NoSteps(v: bv11)
    ensures Steps(0, v) == v
  {
  }

  lemma OneStep(n: nat, v: bv11)
    ensures Steps(n + 1, v) == Next(Steps(n, v))
  {
  }

  /** The cycle of the all-zero register, run out. */
  lemma CycleOfZero()
    ensures Steps(1533, 0) == 0
  {
    hide Steps;
    NoSteps(0);
    SixtyFourSteps(0, 0);
    assert Steps(64, 0) == 1489;
    SixtyFourSteps(64, 0);
    assert Steps(128, 0) == 589;
    SixtyFourSteps(128, 0);
    assert Steps(192, 0) == 1373;
    SixtyFourSteps(192, 0);
    assert Steps(256, 0) == 634;
    SixtyFourSteps(256, 0);
    assert Steps(320, 0) == 1491;
    SixtyFourSteps(320, 0);
    assert Steps(384, 0) == 1706;
    SixtyFourSteps(384, 0);
    assert Steps(448, 0) == 242;
    SixtyFourSteps(448, 0);
    assert Steps(512, 0) == 1463;
    SixtyFourSteps(512, 0);
    assert Steps(576, 0) == 207;
    SixtyFourSteps(576, 0);
    assert Steps(640, 0) == 577;
    SixtyFourSteps(640, 0);
    assert Steps(704, 0) == 1805;
    SixtyFourSteps(704, 0);
    assert Steps(768, 0) == 1945;
    SixtyFourSteps(768, 0);
    assert Steps(832, 0) == 1405;
    SixtyFourSteps(832, 0);
    assert Steps(896, 0) == 227;
    SixtyFourSteps(896, 0);
    assert Steps(960, 0) == 648;
    SixtyFourSteps(960, 0);
    assert Steps(1024, 0) == 1461;
    SixtyFourSteps(1024, 0);
    assert Steps(1088, 0) == 1064;
    SixtyFourSteps(1088, 0);
    assert Steps(1152, 0) == 2030;
    SixtyFourSteps(1152, 0);
    assert Steps(1216, 0) == 192;
    SixtyFourSteps(1216, 0);
    assert Steps(1280, 0) == 645;
    SixtyFourSteps(1280, 0);
    assert Steps(1344, 0) == 406;
    SixtyFourSteps(1344, 0);
    assert Steps(1408, 0) == 1820;
    SixtyFourSteps(1408, 0);
    assert Steps(1472, 0) == 166;
    EightSteps(1472, 0);
    assert Steps(1480, 0) == 1667;
    EightSteps(1480, 0);
    assert Steps(1488, 0) == 798;
    EightSteps(1488, 0);
    assert Steps(1496, 0) == 1659;
    EightSteps(1496, 0);
    assert Steps(1504, 0) == 904;
    EightSteps(1504, 0);
    assert Steps(1512, 0) == 14;
    EightSteps(1512, 0);
    assert Steps(1520, 0) == 1567;
    EightSteps(1520, 0);
    assert Steps(1528, 0) == 1984;
    FourSteps(1528, 0);
    OneStep(1532, 0);
  }

  /** A cycle three times as short. */
  lemma CycleOfTwo()
    ensures Steps(511, 2) == 2
  {
    hide Steps;
    NoSteps(2);
    SixtyFourSteps(0, 2);
    assert Steps(64, 2) == 310;
    SixtyFourSteps(64, 2);
    assert Steps(128, 2) == 2018;
    SixtyFourSteps(128, 2);
    assert Steps(192, 2) == 656;
    SixtyFourSteps(192, 2);
    assert Steps(256, 2) == 1894;
    SixtyFourSteps(256, 2);
    assert Steps(320, 2) == 312;
    SixtyFourSteps(320, 2);
    assert Steps(384, 2) == 341;
    SixtyFourSteps(384, 2);
    assert Steps(448, 2) == 732;
    EightSteps(448, 2);
    assert Steps(456, 2) == 1122;
    EightSteps(456, 2);
    assert Steps(464, 2) == 598;
    EightSteps(464, 2);
    assert Steps(472, 2) == 1752;
    EightSteps(472, 2);
    assert Steps(480, 2) == 174;
    EightSteps(480, 2);
    assert Steps(488, 2) == 1546;
    EightSteps(488, 2);
    assert Steps(496, 2) == 663;
    EightSteps(496, 2);
    assert Steps(504, 2) == 2000;
    FourSteps(504, 2);
    ThreeSteps(508, 2);
  }

  /** Steps are affine over the bits. */
  lemma {:induction false} StepsAffine(n: nat, u: bv11, a: bv11, b: bv11)
    ensures Steps(n, Sum3(u, a, b)) == Sum3(Steps(n, u), Steps(n, a), Steps(n, b))
  {
    hide Next, Sum3;
    if n > 0 {
      StepsAffine(n - 1, u, a, b);
      NextAffine(Steps(n - 1, u), Steps(n - 1, a), Steps(n - 1, b));
    }
  }

  function Sum2(u: bv11, a: bv11): bv11 {
    u ^ a
  }

  function Sum3(u: bv11, a: bv11, b: bv11): bv11 {
    Sum2(Sum2(u, a), b)
  }

  lemma NextAffine(u: bv11, a: bv11, b: bv11)
    ensures Next(Sum3(u, a, b)) == Sum3(Next(u), Next(a), Next(b))
  {
  }

  ghost predicate Returns(n: nat, v: bv11) {
    Steps(n, v) == v
  }

  lemma NextReturns(n: nat, v: bv11)
    requires Returns(n, v)
    ensures Returns(n, Next(v))
  {
    hide Next;
    StepsAdd(n, 1, v);
    StepsAdd(1, n, v);
    StepsOne(v);
    StepsOne(Steps(n, v));
  }

  lemma StepsOne(v: bv11)
    ensures Steps(1, v) == Next(v)
  {
    hide Next;
    assert Steps(1, v) == Next(Steps(0, v));
  }

  /** u and v differ in no bit above the single bit m. */
  predicate UpTo(u: bv11, v: bv11, m: bv11) {
    m != 0 && m & (m - 1) == 0 && u ^ v <= m | (m - 1)
  }

  predicate Below(u: bv11, v: bv11, m: bv11) {
    u ^ v < m
  }

  /** As close as a step on bit m = 2h brings them. */
  predicate Near(u: bv11, v: bv11, h: bv11) {
    if h == 0 then u == v else UpTo(u, v, h)
  }

  predicate Leads(a: bv11, m: bv11) {
    m <= a ^ Next(a) && UpTo(a, Next(a), m)
  }

  predicate Has(u: bv11, v: bv11, m: bv11) {
    (u ^ v) & m != 0
  }

  function Differ(u: bv11, a: bv11): bv11 {
    Sum3(u, a, Next(a))
  }

  /** Changing u towards v in its highest differing bit m, by a pair of returning states that differ
      highest there. */
  lemma Approach(n: nat, u: bv11, v: bv11, a: bv11, m: bv11, h: bv11) returns (r: bv11)
    requires Returns(n, u) && Returns(n, a) && Leads(a, m) && UpTo(u, v, m) && h == m >> 1
    ensures Returns(n, r) && Near(r, v, h) && (r == u || r == Differ(u, a))
  {
    hide *;
    var d := Differ(u, a);
    SingleBit(a, m);
    CloserIn(u, v, a, m, d);
    if Has(u, v, m) {
      DifferReturns(n, u, a);
      Halve(d, v, m, h);
      return d;
    } else {
      Halve(u, v, m, h);
      return u;
    }
  }

  lemma DifferReturns(n: nat, u: bv11, a: bv11)
    requires Returns(n, u) && Returns(n, a)
    ensures Returns(n, Differ(u, a))
  {
    hide *;
    NextReturns(n, a);
    var b := Next(a);
    ReturnsAffine(n, u, a, b, Differ(u, a));
  }

  lemma ReturnsAffine(n: nat, u: bv11, a: bv11, b: bv11, r: bv11)
    requires Returns(n, u) && Returns(n, a) && Returns(n, b) && b == Next(a) && r == Differ(u, a)
    ensures Returns(n, r)
  {
    hide *;
    DifferIs(u, a, b);
    ReturnsIs(n, u);
    ReturnsIs(n, a);
    ReturnsIs(n, b);
    StepsAffine(n, u, a, b);
    ReturnsIs(n, r);
  }

  lemma DifferIs(u: bv11, a: bv11, b: bv11)
    requires b == Next(a)
    ensures Differ(u, a) == Sum3(u, a, b)
  {
    hide Next;
  }

  lemma Halve(u: bv11, v: bv11, m: bv11, h: bv11)
    requires Below(u, v, m) && m != 0 && m & (m - 1) == 0 && h == m >> 1
    ensures Near(u, v, h)
  {
  }

  lemma SingleBit(a: bv11, m: bv11)
    requires Leads(a, m)
    ensures m != 0 && m & (m - 1) == 0
  {
  }

  lemma CloserIn(u: bv11, v: bv11, a: bv11, m: bv11, r: bv11)
    requires Leads(a, m) && UpTo(u, v, m) && r == Differ(u, a)
    ensures if Has(u, v, m) then Below(r, v, m) else Below(u, v, m)
  {
    hide Next;
  }

  lemma ZeroCycleReturns()
    ensures Returns(1533, 0) && Leads(0, 1)
    ensures Returns(1533, 1) && Leads(1, 2)
    ensures Returns(1533, 3) && Leads(3, 4)
    ensures Returns(1533, 7) && Leads(7, 8)
    ensures Returns(1533, 15) && Leads(15, 16)
    ensures Returns(1533, 30) && Leads(30, 32)
    ensures Returns(1533, 60) && Leads(60, 64)
    ensures Returns(1533, 120) && Leads(120, 128)
    ensures Returns(1533, 240) && Leads(240, 256)
    ensures Returns(1533, 481) && Leads(481, 512)
    ensures Returns(1533, 963) && Leads(963, 1024)
  {
    hide Steps, Returns;
    CycleOfZero();
    ReturnsIs(1533, 0);
    NextReturns(1533, 0);
    NextReturns(1533, 1);
    NextReturns(1533, 3);
    NextReturns(1533, 7);
    NextReturns(1533, 15);
    NextReturns(1533, 30);
    NextReturns(1533, 60);
    NextReturns(1533, 120);
    NextReturns(1533, 240);
    NextReturns(1533, 481);
  }

  /** Every state comes back after 1533 steps: the register does not run through all 2047 states. */
  lemma Period1533(v: bv11)
    ensures Returns(1533, v)
  {
    hide *;
    ZeroCycleReturns();
    var r: bv11 := 0;
    WithinAll(r, v);
    r := Approach(1533, r, v, 963, 1024, 512);
    NearIs(r, v, 512);
    r := Approach(1533, r, v, 481, 512, 256);
    NearIs(r, v, 256);
    r := Approach(1533, r, v, 240, 256, 128);
    NearIs(r, v, 128);
    r := Approach(1533, r, v, 120, 128, 64);
    NearIs(r, v, 64);
    r := Approach(1533, r, v, 60, 64, 32);
    NearIs(r, v, 32);
    r := Approach(1533, r, v, 30, 32, 16);
    NearIs(r, v, 16);
    r := Approach(1533, r, v, 15, 16, 8);
    NearIs(r, v, 8);
    r := Approach(1533, r, v, 7, 8, 4);
    NearIs(r, v, 4);
    r := Approach(1533, r, v, 3, 4, 2);
    NearIs(r, v, 2);
    r := Approach(1533, r, v, 1, 2, 1);
    NearIs(r, v, 1);
    r := Approach(1533, r, v, 0, 1, 0);
    NearIs(r, v, 0);
  }

  lemma NearIs(u: bv11, v: bv11, h: bv11)
    requires Near(u, v, h)
    ensures if h == 0 then u == v else UpTo(u, v, h)
  {
  }

  lemma WithinAll(r: bv11, v: bv11)
    ensures UpTo(r, v, 1024)
  {
  }

  lemma ReturnsIs(n: nat, v: bv11)
    ensures Returns(n, v) <==> Steps(n, v) == v
  {
  }

  /** The two parities of the register that run on their own with period three: over bits 0, 1, 3, 5, 6,
      8, 9, and over the bits above these. */
  function Parity(v: bv11): bv11 {
    var w := v ^ (v >> 1);
    (w ^ (v >> 3) ^ (w >> 5) ^ (w >> 8)) & 1
  }

  function ParityAbove(v: bv11): bv11 {
    Parity(Half(v))
  }

  predicate OddOdd(v: bv11) {
    Parity(v) == 1 && ParityAbove(v) == 1
  }

  lemma ParitySteps(v: bv11)
    ensures ParityAbove(Next(v)) == Parity(v) && Parity(Next(v)) == 1 ^ Parity(v) ^ ParityAbove(v)
  {
  }

  function Phase(v: bv11): nat {
    if Parity(v) == 1 then 1 else if ParityAbove(v) == 1 then 2 else 0
  }

  lemma PhaseSteps(v: bv11)
    requires !OddOdd(v)
    ensures !OddOdd(Next(v)) && Phase(Next(v)) == (Phase(v) + 1) % 3
  {
    ParitySteps(v);
    ParityBits(v);
    ParityBits(Next(v));
    hide Parity, ParityAbove, Next;
  }

  lemma ParityBits(v: bv11)
    ensures Parity(v) == 0 || Parity(v) == 1
    ensures ParityAbove(v) == 0 || ParityAbove(v) == 1
  {
  }

  lemma {:induction false} PhaseAfter(n: nat, v: bv11)
    requires !OddOdd(v)
    ensures !OddOdd(Steps(n, v)) && Phase(Steps(n, v)) == (Phase(v) + n) % 3
  {
    hide Next, OddOdd, Phase;
    if n > 0 {
      PhaseAfter(n - 1, v);
      PhaseSteps(Steps(n - 1, v));
    } else {
      PhaseBelow3(v);
    }
  }

  lemma PhaseBelow3(v: bv11)
    ensures Phase(v) < 3
  {
    hide Parity, ParityAbove;
  }

  /** Two states with both parities odd differ by a word that has both even. */
  lemma LowBitsDecided(r: bv11, v: bv11)
    requires OddOdd(r) && OddOdd(v) && UpTo(r, v, 2)
    ensures r == v
  {
  }

  lemma PairKeepsParity(u: bv11, a: bv11)
    requires OddOdd(u) && OddOdd(a)
    ensures OddOdd(Next(a)) && OddOdd(Differ(u, a))
  {
    hide Parity, ParityAbove, Next, Differ;
    ParitySteps(a);
    DifferIs(u, a, Next(a));
    SumParity(u, a, Next(a), Differ(u, a));
  }

  lemma SumParity(u: bv11, a: bv11, b: bv11, r: bv11)
    requires r == Sum3(u, a, b)
    ensures Parity(r) == Sum3(Parity(u), Parity(a), Parity(b))
    ensures ParityAbove(r) == Sum3(ParityAbove(u), ParityAbove(a), ParityAbove(b))
  {
    hide Parity, ParityAbove, Sum2;
    ParityLinear(u, a);
    ParityLinear(Sum2(u, a), b);
    AboveLinear(u, a);
    AboveLinear(Sum2(u, a), b);
  }

  lemma ParityLinear(a: bv11, b: bv11)
    ensures Parity(Sum2(a, b)) == Sum2(Parity(a), Parity(b))
  {
  }

  lemma AboveLinear(a: bv11, b: bv11)
    ensures ParityAbove(Sum2(a, b)) == Sum2(ParityAbove(a), ParityAbove(b))
  {
    hide Parity, Sum2;
    ParityLinear(Half(a), Half(b));
    HalfLinear(a, b);
  }

  function Half(v: bv11): bv11 {
    v >> 1
  }

  lemma HalfLinear(a: bv11, b: bv11)
    ensures Half(Sum2(a, b)) == Sum2(Half(a), Half(b))
  {
  }

  lemma OddApproach(u: bv11, v: bv11, a: bv11, m: bv11, h: bv11) returns (r: bv11)
    requires Returns(511, u) && Returns(511, a) && OddOdd(u) && OddOdd(a) && Leads(a, m) && UpTo(u, v, m) && h == m >> 1
    ensures Returns(511, r) && Near(r, v, h) && OddOdd(r)
  {
    hide *;
    r := Approach(511, u, v, a, m, h);
    PairKeepsParity(u, a);
  }

  lemma TwoCycleReturns()
    ensures Returns(511, 2) && OddOdd(2) && Leads(2, 4)
    ensures Returns(511, 5) && OddOdd(5) && Leads(5, 8)
    ensures Returns(511, 11) && OddOdd(11) && Leads(11, 16)
    ensures Returns(511, 22) && OddOdd(22) && Leads(22, 32)
    ensures Returns(511, 45) && OddOdd(45) && Leads(45, 64)
    ensures Returns(511, 90) && OddOdd(90) && Leads(90, 128)
    ensures Returns(511, 180) && OddOdd(180) && Leads(180, 256)
    ensures Returns(511, 361) && OddOdd(361) && Leads(361, 512)
    ensures Returns(511, 722) && OddOdd(722) && Leads(722, 1024)
  {
    hide Steps, Returns;
    CycleOfTwo();
    ReturnsIs(511, 2);
    NextReturns(511, 2);
    NextReturns(511, 5);
    NextReturns(511, 11);
    NextReturns(511, 22);
    NextReturns(511, 45);
    NextReturns(511, 90);
    NextReturns(511, 180);
    NextReturns(511, 361);
  }

  lemma OddStates511(v: bv11)
    requires OddOdd(v)
    ensures Returns(511, v)
  {
    hide *;
    TwoCycleReturns();
    var r: bv11 := 2;
    WithinAll(r, v);
    r := OddApproach(r, v, 722, 1024, 512);
    NearIs(r, v, 512);
    r := OddApproach(r, v, 361, 512, 256);
    NearIs(r, v, 256);
    r := OddApproach(r, v, 180, 256, 128);
    NearIs(r, v, 128);
    r := OddApproach(r, v, 90, 128, 64);
    NearIs(r, v, 64);
    r := OddApproach(r, v, 45, 64, 32);
    NearIs(r, v, 32);
    r := OddApproach(r, v, 22, 32, 16);
    NearIs(r, v, 16);
    r := OddApproach(r, v, 11, 16, 8);
    NearIs(r, v, 8);
    r := OddApproach(r, v, 5, 8, 4);
    NearIs(r, v, 4);
    r := OddApproach(r, v, 2, 4, 2);
    NearIs(r, v, 2);
    LowBitsDecided(r, v);
  }

  /** When a state comes back: after one step only from all ones, after three only from four states,
      after 511 exactly from those with both parities odd, after 1533 from every one; a state with an
      even parity comes back only after a multiple of three steps. */
  lemma CyclesExactly(n: nat, v: bv11)
    ensures Returns(1, v) <==> v == 2047
    ensures Returns(3, v) <==> v == 2047 || v == 292 || v == 585 || v == 1170
    ensures Returns(511, v) <==> OddOdd(v)
    ensures Returns(1533, v)
    ensures Returns(n, v) && !OddOdd(v) ==> n % 3 == 0
  {
    hide Returns, Steps, OddOdd;
    ShortCycles(v);
    Period1533(v);
    ReturnsIs(n, v);
    ReturnsIs(511, v);
    if OddOdd(v) {
      OddStates511(v);
    } else {
      PhaseAfter(n, v);
      PhaseAfter(511, v);
    }
  }

  lemma ShortCycles(v: bv11)
    ensures Returns(1, v) <==> v == 2047
    ensures Returns(3, v) <==> v == 2047 || v == 292 || v == 585 || v == 1170
  {
    StepsOne(v);
    ThreeSteps(0, v);
    NoSteps(v);
    hide Steps;
  }

  // ------------------------------------------------------------------ the periods

  lemma {:induction false} ReturnsMultiple(n: nat, k: nat, v: bv11)
    requires Returns(n, v)
    ensures Returns(n * k, v)
  {
    hide Steps, Returns;
    ReturnsIs(n, v);
    ReturnsIs(n * k, v);
    if k == 0 {
      assert n * k == 0;
      NoSteps(v);
    } else {
      ReturnsMultiple(n, k - 1, v);
      ReturnsIs(n * (k - 1), v);
      assert n * k == n + n * (k - 1);
      StepsAdd(n, n * (k - 1), v);
    }
  }

  lemma ReturnsRemainder(a: nat, b: nat, v: bv11)
    requires b > 0 && Returns(a, v) && Returns(b, v)
    ensures Returns(a % b, v)
  {
    hide Steps, Returns;
    var q, r := a / b, a % b;
    ReturnsMultiple(b, q, v);
    assert a == r + b * q;
    StepsAdd(r, b * q, v);
    ReturnsIs(a, v);
    ReturnsIs(b * q, v);
    ReturnsIs(r, v);
  }

  /** Two return times have a common divisor that is a return time. */
  lemma {:induction false} CommonReturn(a: nat, b: nat, v: bv11) returns (g: nat, x: nat, y: nat)
    requires a > 0 && Returns(a, v) && Returns(b, v)
    ensures g > 0 && a == g * x && b == g * y && Returns(g, v)
    decreases b
  {
    hide Steps, Returns;
    if b == 0 {
      g, x, y := a, 1, 0;
    } else {
      ReturnsRemainder(a, b, v);
      var z: nat;
      g, y, z := CommonReturn(b, a % b, v);
      x := y * (a / b) + z;
      assert a == b * (a / b) + a % b;
      Gathered(g, y, a / b, z);
    }
  }

  lemma Gathered(g: nat, y: nat, q: nat, z: nat)
    ensures g * y * q + g * z == g * (y * q + z)
  {
  }

  /** 511 is seven times a prime. */
  lemma Divisors(g: nat, h: nat)
    requires g * h == 511
    ensures g == 1 || g == 7 || g == 73 || g == 511
  {
    if g <= 22 {
      SmallDivisor(g, h);
    } else if h <= 22 {
      SmallDivisor(h, g);
    } else {
      BigProduct(g, h);
    }
  }

  lemma BigProduct(g: nat, h: nat)
    requires g >= 23 && h >= 23
    ensures g * h >= 529
  {
  }

  lemma SmallDivisor(g: nat, h: nat)
    requires g * h == 511 && g <= 22
    ensures (g == 1 && h == 511) || (g == 7 && h == 73)
  {
    assert g == 1 || g == 2 || g == 3 || g == 4 || g == 5 || g == 6 || g == 7 || g == 8 || g == 9 || g == 10 || g == 11
        || g == 12 || g == 13 || g == 14 || g == 15 || g == 16 || g == 17 || g == 18 || g == 19 || g == 20 || g == 21
        || g == 22;
  }

  lemma SevenSteps(v: bv11)
    ensures Returns(7, v) ==> v == 2047
  {
    NoSteps(v);
    FourSteps(0, v);
    ThreeSteps(4, v);
    hide Steps;
  }

  lemma SeventyThreeSteps(v: bv11)
    ensures Returns(73, v) ==> v == 2047
  {
    hide Steps;
    NoSteps(v);
    SixtyFourSteps(0, v);
    EightSteps(64, v);
    OneStep(72, v);
    ReturnsIs(73, v);
    LongLoop(v);
  }

  lemma LongLoop(v: bv11)
    ensures Next(Next8(Next64(v))) == v ==> v == 2047
  {
  }

  /** A state with both parities odd, other than all ones, comes back only after a multiple of 511 steps. */
  lemma OddPeriod(n: nat, v: bv11)
    requires OddOdd(v) && v != 2047 && Returns(n, v)
    ensures n % 511 == 0
  {
    hide *;
    OddStates511(v);
    var g, x, y := CommonReturn(511, n, v);
    Divisors(g, x);
    ShortCycles(v);
    SevenSteps(v);
    SeventyThreeSteps(v);
    assert g == 511;
  }

  /** The sum of three successive states has both parities odd, comes back when the first one does, and is
      all ones only on the short cycles. */
  function Filtered(v: bv11): bv11 {
    Differ(v, Next(v))
  }

  lemma FilteredIs(v: bv11)
    ensures OddOdd(Filtered(v))
    ensures Filtered(v) == 2047 ==> v == 2047 || v == 292 || v == 585 || v == 1170
  {
    hide Parity, ParityAbove, Next, Differ;
    FilteredFixed(v);
    var a := Next(v);
    var b := Next(a);
    DifferIs(v, a, b);
    ParitySteps(v);
    ParitySteps(a);
    ParityBits(v);
    SumParity(v, a, b, Filtered(v));
  }

  lemma FilteredFixed(v: bv11)
    ensures Filtered(v) == 2047 ==> v == 2047 || v == 292 || v == 585 || v == 1170
  {
  }

  lemma FilteredReturns(n: nat, v: bv11)
    requires Returns(n, v)
    ensures Returns(n, Filtered(v))
  {
    hide Steps, Returns, Next, Differ;
    NextReturns(n, v);
    DifferReturns(n, v, Next(v));
  }

  /** The length of the cycle a state is on. */
  function Period(v: bv11): (p: nat)
    ensures p > 0
  {
    if v == 2047 then 1
    else if v == 292 || v == 585 || v == 1170 then 3
    else if OddOdd(v) then 511
    else 1533
  }

  lemma PeriodReturns(v: bv11)
    ensures Returns(Period(v), v)
  {
    hide Returns, OddOdd;
    CyclesExactly(0, v);
  }

  /** The exact cycle structure: a state comes back after n steps exactly when its period divides n. */
  lemma PeriodExactly(n: nat, v: bv11)
    ensures Returns(n, v) <==> n % Period(v) == 0
  {
    hide Returns, OddOdd, Filtered;
    if n % Period(v) == 0 {
      PeriodReturns(v);
      ReturnsMultiple(Period(v), n / Period(v), v);
      assert n == Period(v) * (n / Period(v));
    } else if Returns(n, v) {
      CyclesExactly(n, v);
      ShortAreEven();
      if Period(v) == 511 {
        OddPeriod(n, v);
      } else if Period(v) == 1533 {
        FilteredReturns(n, v);
        FilteredIs(v);
        OddPeriod(n, Filtered(v));
        BothDivide(n);
      }
    }
  }

  lemma BothDivide(n: nat)
    requires n % 3 == 0 && n % 511 == 0
    ensures n % 1533 == 0
  {
    var q := n / 511;
    assert n == 3 * (170 * q) + q;
    assert q == 3 * (q / 3);
    assert n == 1533 * (q / 3);
  }

  lemma ShortAreEven()
    ensures !OddOdd(292) && !OddOdd(585) && !OddOdd(1170)
  {
  }

  /** So the bits of every seed repeat from the first one on. */
  lemma BitsRepeat(v: bv11, m: nat)
    ensures Bit(v, m + Period(v)) == Bit(v, m)
  {
    hide Steps, Period;
    PeriodReturns(v);
    StepsAdd(m + 1, Period(v), v);
    ReturnsIs(Period(v), v);
  }

  // ------------------------------------------------------------------ the block

  /** The sample for bit m. */
  function Sample(seed: bv11, m: nat): int {
    if Bit(seed, m) == 1 then 1 else 0
  }

  /** The samples with the seed in front of them. */
  function Before(seed: bv11, m: int): int
    requires m >= -11
  {
    if m >= 0 then Sample(seed, m) else if Cell(seed, -1 - m) == 1 then 1 else 0
  }

  /** The same law for the samples put out, which are zero or one. */
  lemma SampleRecurrence(seed: bv11, m: nat)
    ensures Sample(seed, m) in {0, 1}
    ensures Sample(seed, m) == (1 + Before(seed, m - 11) + Before(seed, m - 4)) % 2
  {
    hide Bit, Cell;
    EveryBit(seed, m);
    ExtendedBinary(seed, m - 11);
    ExtendedBinary(seed, m - 4);
  }

  lemma ExtendedBinary(v: bv11, m: int)
    requires m >= -11
    ensures Extended(v, m) == 0 || Extended(v, m) == 1
  {
  }

  ghost function Stream(seed: bv11, n: nat): (s: seq<int>)
    ensures |s| == n
  {
    seq(n, m requires 0 <= m < n => Sample(seed, m))
  }

  lemma StreamSnoc(seed: bv11, n: nat)
    ensures Stream(seed, n + 1) == Stream(seed, n) + [Sample(seed, n)]
  {
    hide Sample;
  }

  lemma RegisterStep(s: bv32, seed: bv11, n: nat)
    requires Low(s) == Steps(n, seed)
    ensures Low(NextRegister(s)) == Steps(n + 1, seed)
    ensures (if NextRegister(s) & 1 == 1 then 1 else 0) == Sample(seed, n)
  {
    LowSteps(s);
    hide Next, Low, NextRegister;
  }

  /** The first batch, and rate samples for each one received, rounded. */
  function Requested(first: int, rate: real, received: real): int {
    first + Truncate(rate * received + 0.5)
  }

  /** The first batch and the rate times the number received, to the nearest whole number. */
  lemma RequestedNear(first: int, rate: real, received: real)
    requires rate >= 0.0 && received >= 0.0
    ensures -0.5 < (Requested(first, rate, received) - first) as real - rate * received <= 0.5
  {
    var p := rate * received;
    assert p >= 0.0;
  }

  /** With a whole rate exactly that many for each sample received. */
  lemma RequestedWhole(first: int, rate: nat, received: nat)
    ensures Requested(first, rate as real, received as real) == first + rate * received
  {
    assert rate as real * received as real == (rate * received) as real;
  }

  /** How many samples may be out: those requested, but never more than asked for in all. */
  function Target(first: int, rate: real, received: real, all: int): int {
    var t := Requested(first, rate, received);
    if t > all && all > 0 then all else t
  }

  /** The smaller of what is requested and what was asked for in all; no limit unless that is positive. */
  lemma TargetIs(first: int, rate: real, received: real, all: int)
    ensures var t, r := Target(first, rate, received, all), Requested(first, rate, received);
            t <= r && (all > 0 ==> t <= all) && (t == r || (all > 0 && t == all))
  {
    hide Requested;
  }

  class BData {
    const numOfSamples: int
    const paceRate: real
    const samplesFirst: int
    const perVisit: nat
    const paced: bool
    var shiftReg: bv32
    var samplesOut: nat
    var paceIn: real
    var outputTarget: int
    var pass: bool
    var overflow: bool
    var sample: int
    ghost const seed: bv11

    /** The register and the counter agree, the bit held back is the last one, and a positive number of
        samples asked for is never passed. */
    ghost predicate Valid()
      reads this
    {
      && Low(shiftReg) == Steps(samplesOut, seed)
      && (numOfSamples > 0 ==> samplesOut <= numOfSamples && outputTarget <= numOfSamples)
      && (overflow ==> samplesOut > 0 && sample == Sample(seed, samplesOut - 1))
    }

    ghost function Held(): seq<int>
      reads this
    {
      if overflow then [sample] else []
    }

    /** What is out and what is held back make up the first samplesOut bits. */
    ghost predicate Delivered(out: OutBuffer<int>)
      reads this, out
    {
      out.cells + Held() == Stream(seed, samplesOut)
    }

    constructor (samples: int, initialize: bv32, pace: real, first: int, visit: nat, hasInput: bool)
      ensures Valid() && seed == Low(initialize) && samplesOut == 0 && !overflow && !pass
      ensures numOfSamples == samples && paced == hasInput && perVisit == visit && paceIn == 0.0
      ensures paceRate == (if pace < 0.0 then -pace else pace) && samplesFirst == first
      ensures outputTarget == if hasInput && first <= samples then first else samples
    {
      numOfSamples, samplesFirst, perVisit, paced := samples, first, visit, hasInput;
      paceRate := if pace < 0.0 then -pace else pace;
      var target := if hasInput then first else samples;
      outputTarget := if target > samples then samples else target;
      shiftReg, seed := initialize, Low(initialize);
      samplesOut, paceIn, pass, overflow, sample := 0, 0.0, false, false, 0;
    }

    /** Counts the samples on the pacing input, and after the first visit sets the target by them. */
    method Pace(inp: InBuffer<real>)
      requires Valid()
      modifies this`paceIn, this`outputTarget, this`pass, inp
      ensures Valid() && pass
      ensures paced ==> inp.pending == [] && paceIn == old(paceIn) + |old(inp.pending)| as real
      ensures !paced ==> inp.pending == old(inp.pending) && paceIn == old(paceIn)
      ensures outputTarget == if paced && old(pass) then Target(samplesFirst, paceRate, paceIn, numOfSamples)
                              else old(outputTarget)
    {
      hide Requested, Steps, Low;
      if paced {
        while inp.pending != []
          invariant paceIn == old(paceIn) + (|old(inp.pending)| - |inp.pending|) as real
          invariant |inp.pending| <= |old(inp.pending)|
          decreases |inp.pending|
          modifies this`paceIn, inp
        {
          var _ := inp.Take();
          paceIn := paceIn + 1.0;
        }
        if pass {
          outputTarget := Requested(samplesFirst, paceRate, paceIn);
          if outputTarget > numOfSamples && numOfSamples > 0 {
            outputTarget := numOfSamples;
          }
        }
      }
      pass := true;
    }

    /** Puts out the bit held back, if any, and then the new one; a second refusal in a row is fatal. */
    method Emit(fbit: int, out: OutBuffer<int>) returns (status: int)
      modifies this`overflow, this`sample, out
      ensures status == 0 || status == 1
      ensures status == 0 ==> out.cells + Held() == old(out.cells + Held()) + [fbit] && (overflow ==> sample == fbit)
      ensures status == 1 ==> overflow && out.cells + Held() == old(out.cells + Held())
      ensures status == 0 && !overflow ==> out.cells == old(out.cells + Held()) + [fbit]
    {
      if overflow {
        var serious := out.Put(sample);
        if serious {
          return 1;
        }
      }
      overflow := false;
      var full := out.Put(fbit);
      if full {
        overflow, sample := true, fbit;
      }
      return 0;
    }

    /** One more bit of the register, counted and put out. */
    method Advance(out: OutBuffer<int>) returns (status: int)
      requires Valid() && Delivered(out) && samplesOut < outputTarget
      modifies this`shiftReg, this`samplesOut, this`overflow, this`sample, out
      ensures (status == 0 || status == 1) && samplesOut == old(samplesOut) + 1
      ensures status == 0 ==> Valid() && Delivered(out)
      ensures status == 1 ==> out.cells + [sample] == Stream(seed, samplesOut - 1)
    {
      hide Steps, Stream, Low, NextRegister, Sample;
      RegisterStep(shiftReg, seed, samplesOut);
      StreamSnoc(seed, samplesOut);
      shiftReg := NextRegister(shiftReg);
      var fbit := if shiftReg & 1 == 1 then 1 else 0;
      samplesOut := samplesOut + 1;
      status := Emit(fbit, out);
    }

    /** One visit, under any pattern of refusals. */
    method MainCode(inp: InBuffer<real>, out: OutBuffer<int>) returns (status: int)
      requires Valid() && Delivered(out)
      modifies this, inp, out
      ensures status == 0 || status == 1
      ensures status == 0 ==> Valid() && Delivered(out)
      ensures status == 0 ==> samplesOut >= outputTarget || overflow || samplesOut - old(samplesOut) == perVisit
      ensures status == 1 ==> samplesOut > 0 && out.cells + [sample] == Stream(seed, samplesOut - 1)
      ensures old(samplesOut) <= samplesOut <= old(samplesOut) + perVisit
      ensures samplesOut > old(samplesOut) ==> samplesOut <= outputTarget
      ensures outputTarget == if paced && old(pass) then Target(samplesFirst, paceRate, paceIn, numOfSamples)
                              else old(outputTarget)
      ensures pass && paceIn == old(paceIn) + (if paced then |old(inp.pending)| as real else 0.0)
    {
      hide *;
      StillDelivered(out);
      Pace(inp);
      StillDelivered(out);
      var i: nat := 0;
      ghost var n0 := samplesOut;
      while samplesOut < outputTarget
        invariant Valid() && Delivered(out)
        invariant samplesOut == n0 + i && i <= perVisit && (i > 0 ==> samplesOut <= outputTarget)
        modifies this`shiftReg, this`samplesOut, this`overflow, this`sample, out
      {
        i := i + 1;
        if i > perVisit {
          return 0;
        }
        status := Advance(out);
        if status != 0 || overflow {
          return;
        }
      }
      return 0;
    }

    lemma StillDelivered(out: OutBuffer<int>)
      ensures Delivered(out) <==> out.cells + (if overflow then [sample] else []) == Stream(seed, samplesOut)
    {
      hide Stream;
    }
  }
}
