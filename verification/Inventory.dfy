/** The event-driven (s, S) inventory simulator: a four-slot event list, minimum selection with the
    lowest slot winning ties, and the four event handlers. */
module Inventory {
  import opened Kernel
  import opened Arith

  /** The value that takes the order-arrival slot out of consideration, and the bound the selection
      loop starts from. */
  const INFINITY: real := 1000000000000000000000000000000.0
  const HORIZON: real := 100000000000000000000000000000.0

  datatype Config = Config(initial: int, months: int, setup: real, incremental: real,
                           minLag: real, maxLag: real, smalls: real, bigs: real)
  {
    /** Parameters for which the simulation is meaningful; months is a C int. */
    ghost predicate Sane() {
      && 0 <= months < 0x8000_0000
      && 0.0 <= minLag <= maxLag < HORIZON
      && smalls <= bigs
    }
  }

  /** One input sample, and the delivery lag the random generator would give if it were asked now. */
  datatype Sample = Sample(interval: real, demand: real, lag: real)
  {
    ghost predicate Legal(c: Config) {
      interval >= 0.0 && demand >= 0.0 && c.minLag <= lag <= c.maxLag
    }
  }

  datatype Event = Idle | Arrival | Demand | Report | Evaluate

  datatype State = State(t1: real, t2: real, t3: real, t4: real, time: real, last: real, level: int, amount: int,
                         holding: real, shortage: real, cost: real, first: bool)

  /** The earliest slot below the horizon, lowest number first. */
  function Chosen(s: State): (e: Event)
    ensures e == Arrival ==> s.t1 <= s.t2 && s.t1 <= s.t3 && s.t1 <= s.t4 && s.t1 < HORIZON
    ensures e == Demand ==> s.t2 < s.t1 && s.t2 <= s.t3 && s.t2 <= s.t4 && s.t2 < HORIZON
    ensures e == Report ==> s.t3 < s.t1 && s.t3 < s.t2 && s.t3 <= s.t4 && s.t3 < HORIZON
    ensures e == Evaluate ==> s.t4 < s.t1 && s.t4 < s.t2 && s.t4 < s.t3 && s.t4 < HORIZON
    ensures e == Idle ==> s.t1 >= HORIZON && s.t2 >= HORIZON && s.t3 >= HORIZON && s.t4 >= HORIZON
  {
    if s.t1 < HORIZON && s.t1 <= s.t2 && s.t1 <= s.t3 && s.t1 <= s.t4 then Arrival
    else if s.t2 < HORIZON && s.t2 <= s.t3 && s.t2 <= s.t4 then Demand
    else if s.t3 < HORIZON && s.t3 <= s.t4 then Report
    else if s.t4 < HORIZON then Evaluate
    else Idle
  }

  function SlotTime(s: State, e: Event): real {
    match e
    case Idle => s.time
    case Arrival => s.t1
    case Demand => s.t2
    case Report => s.t3
    case Evaluate => s.t4
  }

  /** The very first sample also moves the (empty) order slot. */
  function Started(s: State, x: Sample): State {
    if s.first then s.(t1 := s.t1 + x.interval, first := false) else s
  }

  /** What a stock level adds to its area over a stretch of time. */
  function Area(level: int, elapsed: real): real {
    level as real * elapsed
  }

  function OrderCost(c: Config, amount: int): real {
    c.setup + c.incremental * amount as real
  }

  /** Advance the clock to the chosen event and charge the elapsed time to one of the areas. */
  function Advanced(s: State, e: Event): State {
    if e == Idle then s
    else
      var now := SlotTime(s, e);
      var elapsed := now - s.last;
      var area := Area(s.level, elapsed);
      s.(time := now, last := now,
         shortage := if s.level < 0 then s.shortage - area else s.shortage,
         holding := if s.level > 0 then s.holding + area else s.holding)
  }

  function Handled(c: Config, s: State, e: Event, x: Sample): State {
    match e
    case Idle => s
    case Arrival => s.(level := s.level + s.amount, t1 := INFINITY)
    case Demand => s.(level := Truncate(s.level as real - x.demand), t2 := s.time + x.interval)
    case Report => s
    case Evaluate =>
      var o :=
        if s.level as real < c.smalls then
          var amount := Truncate(c.bigs - s.level as real);
          s.(amount := amount, cost := s.cost + OrderCost(c, amount), t1 := s.time + x.lag)
        else s;
      o.(t4 := o.time + 1.0)
  }

  /** What one sample does. */
  function Step(c: Config, s: State, x: Sample): State {
    var b := Started(s, x);
    Handled(c, Advanced(b, Chosen(b)), Chosen(b), x)
  }

  function EventOf(s: State, x: Sample): Event {
    Chosen(Started(s, x))
  }

  function Initial(c: Config): State {
    State(INFINITY, 0.0, c.months as real, 0.0, 0.0, 0.0, c.initial, 0, 0.0, 0.0, 0.0, true)
  }

  /** The state after the samples xs. */
  function Run(c: Config, s: State, xs: seq<Sample>): State {
    if xs == [] then s else Step(c, Run(c, s, xs[..|xs| - 1]), xs[|xs| - 1])
  }

  ghost predicate AllLegal(c: Config, xs: seq<Sample>) {
    forall i | 0 <= i < |xs| :: xs[i].Legal(c)
  }

  // ------------------------------------------------------------------ scheduler invariant

  ghost predicate NoOrderOutstanding(s: State) {
    s.t1 >= INFINITY
  }

  ghost predicate Scheduled(c: Config, s: State) {
    && s.t3 == c.months as real
    && 0.0 <= s.time == s.last <= s.t3
    && s.time <= s.t1 && s.time <= s.t2 && s.time <= s.t4 <= s.time + 1.0
    && (s.first ==> NoOrderOutstanding(s))
  }

  /** The clock never decreases and never passes the report; the event list is never empty. */
  lemma StepScheduled(c: Config, s: State, x: Sample)
    requires c.Sane() && x.Legal(c) && Scheduled(c, s)
    ensures Scheduled(c, Step(c, s, x)) && Step(c, s, x).time >= s.time && EventOf(s, x) != Idle
  {
  }

  /** With lags of at most one month an outstanding order is due no later than the next evaluation. */
  ghost predicate OrderDue(c: Config, s: State) {
    && (NoOrderOutstanding(s) || s.t1 <= s.t4)
    && (s.level as real <= c.bigs || s.level <= c.initial)
    && (!NoOrderOutstanding(s) ==> (s.level + s.amount) as real <= c.bigs)
  }

  lemma StepOrderDue(c: Config, s: State, x: Sample)
    requires c.Sane() && c.maxLag <= 1.0 && x.Legal(c) && Scheduled(c, s) && OrderDue(c, s)
    ensures OrderDue(c, Step(c, s, x))
    ensures EventOf(s, x) == Evaluate ==> NoOrderOutstanding(Started(s, x))
  {
    var b := Started(s, x);
    match Chosen(b) {
      case Demand =>
        TruncateBounds(s.level as real - x.demand, s.level);
      case Evaluate =>
        if s.level as real < c.smalls {
          TruncateBounds(c.bigs - s.level as real, 0);
        }
      case _ =>
    }
  }

  // ------------------------------------------------------------------ whole runs

  /** What happened in a run, kept apart from the simulator's own totals. */
  datatype Ledger = Ledger(demands: nat, evaluations: nat, arrivals: nat, orders: nat, reports: nat,
                           received: int, demanded: real, ordered: int, held: real, short: real)

  ghost predicate PlacesOrder(c: Config, s: State, x: Sample) {
    EventOf(s, x) == Evaluate && s.level as real < c.smalls
  }

  ghost function Booked(c: Config, l: Ledger, s: State, x: Sample): Ledger {
    var e := EventOf(s, x);
    var after := Step(c, s, x);
    Ledger(l.demands + (if e == Demand then 1 else 0),
           l.evaluations + (if e == Evaluate then 1 else 0),
           l.arrivals + (if e == Arrival then 1 else 0),
           l.orders + (if PlacesOrder(c, s, x) then 1 else 0),
           l.reports + (if e == Report then 1 else 0),
           l.received + (if e == Arrival then s.amount else 0),
           l.demanded + (if e == Demand then x.demand else 0.0),
           l.ordered + (if PlacesOrder(c, s, x) then after.amount else 0),
           l.held + Above(s.level) * (after.time - s.time),
           l.short + Above(-s.level) * (after.time - s.time))
  }

  /** How far a level is above zero. */
  function Above(level: int): (r: real)
    ensures r >= 0.0
  {
    if level > 0 then level as real else 0.0
  }

  ghost function Books(c: Config, xs: seq<Sample>): Ledger {
    if xs == [] then Ledger(0, 0, 0, 0, 0, 0, 0.0, 0, 0.0, 0.0)
    else
      var before := xs[..|xs| - 1];
      Booked(c, Books(c, before), Run(c, Initial(c), before), xs[|xs| - 1])
  }

  ghost function After(c: Config, xs: seq<Sample>): State {
    Run(c, Initial(c), xs)
  }

  lemma {:induction false} RunScheduled(c: Config, xs: seq<Sample>)
    requires c.Sane() && AllLegal(c, xs)
    ensures Scheduled(c, After(c, xs)) && 0.0 <= After(c, xs).time <= c.months as real
  {
    if xs != [] {
      RunScheduled(c, xs[..|xs| - 1]);
      StepScheduled(c, After(c, xs[..|xs| - 1]), xs[|xs| - 1]);
    }
  }

  /** The clock never decreases along a run. */
  lemma {:induction false} ClockMonotone(c: Config, xs: seq<Sample>, k: nat)
    requires c.Sane() && AllLegal(c, xs) && k <= |xs|
    ensures After(c, xs[..k]).time <= After(c, xs).time
  {
    if k < |xs| {
      var before := xs[..|xs| - 1];
      ClockMonotone(c, before, k);
      assert before[..k] == xs[..k];
      RunScheduled(c, before);
      StepScheduled(c, After(c, before), xs[|xs| - 1]);
    } else {
      assert xs[..k] == xs;
    }
  }

  /** Lags of at most one month: an outstanding order is due by the next evaluation, and the level never
      exceeds the larger of the initial level and S. */
  lemma {:induction false} LevelBounded(c: Config, xs: seq<Sample>)
    requires c.Sane() && c.maxLag <= 1.0 && AllLegal(c, xs)
    ensures OrderDue(c, After(c, xs))
    ensures After(c, xs).level as real <= (if c.bigs >= c.initial as real then c.bigs else c.initial as real)
  {
    if xs != [] {
      var before := xs[..|xs| - 1];
      LevelBounded(c, before);
      RunScheduled(c, before);
      StepOrderDue(c, After(c, before), xs[|xs| - 1]);
    }
  }

  /** The books and the simulator agree: areas, ordering cost, and (for whole demands) the stock. */
  lemma {:induction false} BooksBalance(c: Config, xs: seq<Sample>)
    requires c.Sane() && AllLegal(c, xs)
    ensures var s, l := After(c, xs), Books(c, xs);
            && s.holding == l.held && s.shortage == l.short
            && s.cost == c.setup * l.orders as real + c.incremental * l.ordered as real
  {
    hide *;
    if xs == [] {
      BooksAtStart(c, xs);
    } else {
      var before := xs[..|xs| - 1];
      LegalPrefix(c, xs);
      BooksBalance(c, before);
      RunScheduled(c, before);
      var s, x := After(c, before), xs[|xs| - 1];
      StepScheduled(c, s, x);
      AreaStep(c, s, x, Books(c, before));
      CostStep(c, s, x, Books(c, before));
      BooksUnfold(c, xs);
    }
  }

  lemma LegalPrefix(c: Config, xs: seq<Sample>)
    requires xs != [] && AllLegal(c, xs)
    ensures AllLegal(c, xs[..|xs| - 1]) && xs[|xs| - 1].Legal(c)
  {
  }

  lemma BooksAtStart(c: Config, xs: seq<Sample>)
    requires xs == []
    ensures var s, l := After(c, xs), Books(c, xs);
            && s.holding == l.held && s.shortage == l.short
            && s.cost == c.setup * l.orders as real + c.incremental * l.ordered as real
  {
  }

  lemma BooksUnfold(c: Config, xs: seq<Sample>)
    requires xs != []
    ensures var before, x := xs[..|xs| - 1], xs[|xs| - 1];
            && After(c, xs) == Step(c, After(c, before), x)
            && Books(c, xs) == Booked(c, Books(c, before), After(c, before), x)
  {
    hide Step, Booked;
  }

  lemma AreaStep(c: Config, s: State, x: Sample, l: Ledger)
    requires Scheduled(c, s) && EventOf(s, x) != Idle
    ensures var after, b := Step(c, s, x), Booked(c, l, s, x);
            after.holding - s.holding == b.held - l.held && after.shortage - s.shortage == b.short - l.short
  {
    hide Chosen, SlotTime, Truncate, Advanced, Above;
    AdvancedArea(Started(s, x), EventOf(s, x));
  }

  lemma AdvancedArea(b: State, e: Event)
    requires e != Idle
    ensures var a := Advanced(b, e);
            && a.holding == b.holding + Above(b.level) * (a.time - b.last)
            && a.shortage == b.shortage + Above(-b.level) * (a.time - b.last)
            && a.level == b.level
  {
    hide SlotTime;
    NegatedArea(b.level, SlotTime(b, e) - b.last);
  }

  lemma NegatedArea(level: int, elapsed: real)
    ensures Area(level, elapsed) == Above(level) * elapsed - Above(-level) * elapsed
    ensures level >= 0 ==> Above(-level) * elapsed == 0.0
    ensures level <= 0 ==> Above(level) * elapsed == 0.0
  {
  }

  lemma CostStep(c: Config, s: State, x: Sample, l: Ledger)
    ensures var after, b := Step(c, s, x), Booked(c, l, s, x);
            s.cost == c.setup * l.orders as real + c.incremental * l.ordered as real
            ==> after.cost == c.setup * b.orders as real + c.incremental * b.ordered as real
  {
    hide Chosen, SlotTime, Truncate;
    CostLine(c.setup, c.incremental, l.orders, l.ordered, Step(c, s, x).amount);
  }

  lemma CostLine(setup: real, incremental: real, orders: nat, ordered: int, amount: int)
    ensures setup * orders as real + incremental * ordered as real + (setup + incremental * amount as real)
         == setup * (orders + 1) as real + incremental * (ordered + amount) as real
  {
  }

  ghost predicate Whole(r: real) {
    r == r.Floor as real
  }

  /** Stock on hand is what was there, plus what arrived, less what was asked for. */
  ghost predicate StockBalances(c: Config, xs: seq<Sample>) {
    After(c, xs).level as real == c.initial as real + Books(c, xs).received as real - Books(c, xs).demanded
  }

  lemma TruncatedExactly(level: int, demand: real)
    ensures Truncate(level as real - demand) as real == level as real - demand <==> Whole(demand)
  {
    if Whole(demand) {
      TruncateBounds(level as real - demand, level - demand.Floor);
    } else {
      WholeInt(level - Truncate(level as real - demand));
    }
  }

  lemma WholeInt(k: int)
    ensures Whole(k as real)
  {
  }

  ghost predicate BalancedAt(c: Config, xs: seq<Sample>, k: nat)
    requires k <= |xs|
  {
    StockBalances(c, xs[..k])
  }

  /** Sample k of the run does not serve a fractional demand. */
  ghost predicate ServesWhole(c: Config, xs: seq<Sample>, k: nat)
    requires k < |xs|
  {
    EventOf(After(c, xs[..k]), xs[k]) == Demand ==> Whole(xs[k].demand)
  }

  /** The stock balances at every point of a run exactly when every demand served is a whole number. */
  lemma {:induction false} StockBalancesExactly(c: Config, xs: seq<Sample>)
    ensures (forall k | 0 <= k <= |xs| :: BalancedAt(c, xs, k)) <==> (forall k | 0 <= k < |xs| :: ServesWhole(c, xs, k))
  {
    hide *;
    if xs == [] {
      StockAtStart(c, xs);
    } else {
      var n := |xs| - 1;
      var before := xs[..n];
      StockBalancesExactly(c, before);
      forall k: nat | k <= n
        ensures BalancedAt(c, before, k) == BalancedAt(c, xs, k)
        ensures k < n ==> ServesWhole(c, before, k) == ServesWhole(c, xs, k)
      {
        SamePrefix(c, xs, n, k);
      }
      StockStepAt(c, xs);
    }
  }

  lemma StockAtStart(c: Config, xs: seq<Sample>)
    requires xs == []
    ensures BalancedAt(c, xs, 0)
  {
    assert xs[..0] == [];
  }

  lemma SamePrefix(c: Config, xs: seq<Sample>, n: nat, k: nat)
    requires k <= n <= |xs|
    ensures BalancedAt(c, xs[..n], k) == BalancedAt(c, xs, k)
    ensures k < n ==> ServesWhole(c, xs[..n], k) == ServesWhole(c, xs, k)
  {
    hide StockBalances, EventOf, After, Whole;
    assert xs[..n][..k] == xs[..k];
  }

  lemma StockStepAt(c: Config, xs: seq<Sample>)
    requires xs != []
    ensures var n := |xs| - 1;
            BalancedAt(c, xs, n) ==> (BalancedAt(c, xs, |xs|) <==> ServesWhole(c, xs, n))
  {
    assert xs[..|xs|] == xs;
    hide StockBalances, EventOf, After, Whole;
    if BalancedAt(c, xs, |xs| - 1) {
      StockStep(c, xs);
    }
  }

  lemma StockStep(c: Config, xs: seq<Sample>)
    requires xs != [] && StockBalances(c, xs[..|xs| - 1])
    ensures var s, x := After(c, xs[..|xs| - 1]), xs[|xs| - 1];
            StockBalances(c, xs) <==> (EventOf(s, x) == Demand ==> Whole(x.demand))
  {
    hide *;
    var before, x := xs[..|xs| - 1], xs[|xs| - 1];
    var s := After(c, before);
    BooksUnfold(c, xs);
    LevelStep(c, s, x, Books(c, before));
    StockBalanceIs(c, xs);
    StockBalanceIs(c, before);
    TruncatedExactly(s.level, x.demand);
  }

  lemma StockBalanceIs(c: Config, xs: seq<Sample>)
    ensures StockBalances(c, xs) <==>
            After(c, xs).level as real == c.initial as real + Books(c, xs).received as real - Books(c, xs).demanded
  {
    hide After, Books;
  }

  lemma LevelStep(c: Config, s: State, x: Sample, l: Ledger)
    ensures var e, b := EventOf(s, x), Booked(c, l, s, x);
            && b.received == l.received + (if e == Arrival then s.amount else 0)
            && b.demanded == l.demanded + (if e == Demand then x.demand else 0.0)
            && Step(c, s, x).level == (if e == Demand then Truncate(s.level as real - x.demand)
                                       else if e == Arrival then s.level + s.amount else s.level)
  {
    hide Chosen, SlotTime, Truncate;
  }

  // ------------------------------------------------------------------ when things happen, and how much is ordered

  /** A run told without the simulator's state: the evaluations so far, the sum of the intervals given with the
      demands served, and of the last order when it is due and what was asked for since it was placed. */
  datatype Story = Story(evaluations: nat, waited: real, placed: bool, due: real, since: real)

  ghost function Told(c: Config, h: Story, s: State, x: Sample): Story {
    match EventOf(s, x)
    case Demand => h.(waited := h.waited + x.interval, since := h.since + x.demand)
    case Evaluate =>
      if PlacesOrder(c, s, x) then
        h.(evaluations := h.evaluations + 1, placed := true, due := h.evaluations as real + x.lag, since := 0.0)
      else h.(evaluations := h.evaluations + 1)
    case _ => h
  }

  ghost function StoryOf(c: Config, xs: seq<Sample>): Story {
    if xs == [] then Story(0, 0.0, false, 0.0, 0.0)
    else
      var before := xs[..|xs| - 1];
      Told(c, StoryOf(c, before), After(c, before), xs[|xs| - 1])
  }

  lemma StoryUnfold(c: Config, xs: seq<Sample>)
    requires xs != []
    ensures var before, x := xs[..|xs| - 1], xs[|xs| - 1];
            && After(c, xs) == Step(c, After(c, before), x)
            && StoryOf(c, xs) == Told(c, StoryOf(c, before), After(c, before), x)
  {
    hide Step, Told;
  }

  /** Slot by slot: the next demand after the intervals given so far, evaluation k at month k, an outstanding
      order its own lag after the evaluation that placed it. */
  ghost predicate OnTime(s: State, h: Story) {
    && s.t2 == h.waited && s.t4 == h.evaluations as real
    && (!NoOrderOutstanding(s) ==> h.placed && s.t1 == h.due)
  }

  lemma OnTimeStep(c: Config, s: State, h: Story, x: Sample)
    requires c.Sane() && x.Legal(c) && Scheduled(c, s) && OnTime(s, h)
    ensures OnTime(Step(c, s, x), Told(c, h, s, x))
  {
    hide Truncate, Area, OrderCost;
  }

  lemma {:induction false} Timetable(c: Config, xs: seq<Sample>)
    requires c.Sane() && AllLegal(c, xs)
    ensures OnTime(After(c, xs), StoryOf(c, xs))
  {
    hide *;
    if xs == [] {
      StoryAtStart(c, xs);
    } else {
      var before := xs[..|xs| - 1];
      LegalPrefix(c, xs);
      Timetable(c, before);
      RunScheduled(c, before);
      OnTimeStep(c, After(c, before), StoryOf(c, before), xs[|xs| - 1]);
      StoryUnfold(c, xs);
    }
  }

  lemma StoryAtStart(c: Config, xs: seq<Sample>)
    requires xs == []
    ensures OnTime(After(c, xs), StoryOf(c, xs)) && !StoryOf(c, xs).placed && StoryOf(c, xs).since == 0.0
  {
  }

  /** The time of every event of a run: a demand when the intervals given with the demands before it have
      passed, an evaluation at the month of its number, an arrival when it is due, the report at the end. */
  lemma EventTimes(c: Config, xs: seq<Sample>, x: Sample)
    requires c.Sane() && AllLegal(c, xs) && x.Legal(c)
    ensures var h, now := StoryOf(c, xs), After(c, xs + [x]).time;
            match EventOf(After(c, xs), x)
            case Demand => now == h.waited
            case Evaluate => now == h.evaluations as real
            case Arrival => h.placed && now == h.due
            case Report => now == c.months as real
            case Idle => false
  {
    hide *;
    Timetable(c, xs);
    RunScheduled(c, xs);
    StepTime(c, After(c, xs), StoryOf(c, xs), x);
    assert (xs + [x])[..|xs|] == xs;
    StoryUnfold(c, xs + [x]);
  }

  lemma StepTime(c: Config, s: State, h: Story, x: Sample)
    requires c.Sane() && x.Legal(c) && Scheduled(c, s) && OnTime(s, h)
    ensures var now := Step(c, s, x).time;
            match EventOf(s, x)
            case Demand => now == h.waited
            case Evaluate => now == h.evaluations as real
            case Arrival => h.placed && now == h.due
            case Report => now == c.months as real
            case Idle => false
  {
    hide Truncate, Area, OrderCost;
  }

  /** What an evaluation costs: nothing with s or more in stock, else the set-up and the unit price of what is
      missing to S. */
  lemma EvaluationCosts(c: Config, s: State, x: Sample)
    requires c.Sane() && EventOf(s, x) == Evaluate
    ensures Step(c, s, x).cost - s.cost
         == if s.level as real >= c.smalls then 0.0 else c.setup + c.incremental * (c.bigs.Floor - s.level) as real
  {
    hide Truncate, Area, Chosen;
    FloorLess(c.bigs, s.level);
  }

  ghost predicate AllServedWhole(c: Config, xs: seq<Sample>) {
    forall k | 0 <= k < |xs| :: ServesWhole(c, xs, k)
  }

  /** Stock, the order outstanding if there is one, and what was asked for since the last order make the
      level S, without its fraction. */
  ghost predicate UpToS(c: Config, s: State, h: Story) {
    h.placed ==>
      (s.level + (if NoOrderOutstanding(s) then 0 else s.amount)) as real + h.since == c.bigs.Floor as real
  }

  lemma UpToSStep(c: Config, s: State, h: Story, x: Sample)
    requires c.Sane() && x.Legal(c) && Scheduled(c, s) && OnTime(s, h) && UpToS(c, s, h)
    requires EventOf(s, x) == Demand ==> Whole(x.demand)
    ensures UpToS(c, Step(c, s, x), Told(c, h, s, x))
  {
    hide Area, OrderCost;
    TruncatedExactly(s.level, x.demand);
    hide Truncate;
    FloorLess(c.bigs, s.level);
  }

  lemma FloorLess(r: real, n: int)
    ensures r >= n as real ==> Truncate(r - n as real) == r.Floor - n
  {
  }

  /** The order-up-to rule over whole runs: from the first order on, in every reachable state in which whole
      demands were served, stock and outstanding order add up to S less the demands since the last order. */
  lemma {:induction false} OrdersUpToS(c: Config, xs: seq<Sample>)
    requires c.Sane() && AllLegal(c, xs) && AllServedWhole(c, xs)
    ensures UpToS(c, After(c, xs), StoryOf(c, xs))
  {
    hide *;
    if xs == [] {
      StoryAtStart(c, xs);
      NothingPlaced(c, After(c, xs), StoryOf(c, xs));
    } else {
      var before := xs[..|xs| - 1];
      LegalPrefix(c, xs);
      WholePrefix(c, xs);
      OrdersUpToS(c, before);
      Timetable(c, before);
      RunScheduled(c, before);
      UpToSStep(c, After(c, before), StoryOf(c, before), xs[|xs| - 1]);
      StoryUnfold(c, xs);
    }
  }

  lemma NothingPlaced(c: Config, s: State, h: Story)
    requires !h.placed
    ensures UpToS(c, s, h)
  {
  }

  lemma WholePrefix(c: Config, xs: seq<Sample>)
    requires xs != [] && AllServedWhole(c, xs)
    ensures var before, x := xs[..|xs| - 1], xs[|xs| - 1];
            AllServedWhole(c, before) && (EventOf(After(c, before), x) == Demand ==> Whole(x.demand))
  {
    hide EventOf, After, Whole;
    var n := |xs| - 1;
    forall k: nat | k < n
      ensures ServesWhole(c, xs[..n], k)
    {
      assert ServesWhole(c, xs, k);
      assert xs[..n][..k] == xs[..k];
    }
    assert ServesWhole(c, xs, n);
  }

  /** An order that arrives before any further demand fills the stock up to S. */
  lemma ArrivalFillsUp(c: Config, xs: seq<Sample>, x: Sample)
    requires c.Sane() && AllLegal(c, xs) && x.Legal(c) && AllServedWhole(c, xs)
    requires EventOf(After(c, xs), x) == Arrival && StoryOf(c, xs).since == 0.0
    ensures After(c, xs + [x]).level == c.bigs.Floor
  {
    hide *;
    OrdersUpToS(c, xs);
    Timetable(c, xs);
    RunScheduled(c, xs);
    ArrivalStep(c, After(c, xs), StoryOf(c, xs), x);
    assert (xs + [x])[..|xs|] == xs;
    StoryUnfold(c, xs + [x]);
  }

  lemma ArrivalStep(c: Config, s: State, h: Story, x: Sample)
    requires c.Sane() && x.Legal(c) && Scheduled(c, s) && EventOf(s, x) == Arrival
    requires OnTime(s, h) && UpToS(c, s, h) && h.since == 0.0
    ensures Step(c, s, x).level == c.bigs.Floor
  {
    hide Truncate, Area, OrderCost;
  }

  // ------------------------------------------------------------------ how long a run can be

  /** Every arrival interval is at least d. */
  ghost predicate Paced(xs: seq<Sample>, d: real) {
    forall i | 0 <= i < |xs| :: xs[i].interval >= d
  }

  /** The time n intervals of length d take. */
  ghost function Span(n: nat, d: real): real {
    n as real * d
  }

  lemma SpanNext(n: nat, d: real)
    ensures Span(n + 1, d) == Span(n, d) + d && Span(0, d) == 0.0
  {
  }

  ghost predicate Counted(c: Config, s: State, l: Ledger, d: real, n: nat) {
    && Span(l.demands, d) <= s.t2 && (l.demands > 0 ==> Span(l.demands - 1, d) <= c.months as real)
    && s.t4 == l.evaluations as real && l.evaluations <= c.months
    && l.arrivals + (if NoOrderOutstanding(s) then 0 else 1) <= l.orders <= l.evaluations
    && n == l.demands + l.evaluations + l.arrivals + l.reports
  }

  lemma CountedStep(c: Config, s: State, l: Ledger, d: real, n: nat, x: Sample)
    requires c.Sane() && x.Legal(c) && x.interval >= d > 0.0 && Scheduled(c, s)
    requires Counted(c, s, l, d, n)
    ensures Counted(c, Step(c, s, x), Booked(c, l, s, x), d, n + 1)
  {
    hide Truncate, Span;
    SpanNext(l.demands, d);
  }

  lemma {:induction false} RunCounted(c: Config, xs: seq<Sample>, d: real)
    requires c.Sane() && AllLegal(c, xs) && Paced(xs, d) && d > 0.0
    ensures Counted(c, After(c, xs), Books(c, xs), d, |xs|)
  {
    if xs == [] {
      SpanNext(0, d);
    } else {
      var before := xs[..|xs| - 1];
      RunCounted(c, before, d);
      RunScheduled(c, before);
      CountedStep(c, After(c, before), Books(c, before), d, |before|, xs[|xs| - 1]);
      hide *;
      BooksUnfold(c, xs);
    }
  }

  /** With intervals of at least d the report is reached: until then there are at most M/d + 1 demands,
      M evaluations and M arrivals. */
  lemma ReportReached(c: Config, xs: seq<Sample>, d: real)
    requires c.Sane() && AllLegal(c, xs) && Paced(xs, d) && d > 0.0
    ensures var l := Books(c, xs);
            && l.demands <= (c.months as real / d).Floor + 1
            && l.evaluations <= c.months && l.arrivals <= c.months
            && (|xs| > (c.months as real / d).Floor + 1 + 2 * c.months ==> l.reports > 0)
  {
    hide After, Books;
    RunCounted(c, xs, d);
    DemandBound(Books(c, xs).demands, c.months, d);
  }

  lemma DemandBound(demands: nat, months: int, d: real)
    requires d > 0.0 && months >= 0 && (demands > 0 ==> (demands - 1) as real * d <= months as real)
    ensures demands <= (months as real / d).Floor + 1
  {
    var q := months as real / d;
    if demands > 0 {
      Quotient(demands - 1, months as real, d);
    } else {
      NonNegativeQuotient(months as real, d);
    }
  }

  lemma Quotient(k: nat, m: real, d: real)
    requires d > 0.0 && k as real * d <= m
    ensures k as real <= m / d
  {
    assert (m / d) * d == m;
    if m / d < k as real {
      TimesLess(m / d, k as real, d);
    }
  }

  lemma NonNegativeQuotient(m: real, d: real)
    requires d > 0.0 && m >= 0.0
    ensures m / d >= 0.0
  {
  }

  /** After the report nothing changes any more. */
  lemma ReportAbsorbs(c: Config, s: State, x: Sample, y: Sample)
    requires c.Sane() && Scheduled(c, s) && x.Legal(c) && y.Legal(c) && EventOf(s, x) == Report
    ensures EventOf(Step(c, s, x), y) == Report && Step(c, Step(c, s, x), y) == Step(c, s, x)
  {
    hide Area;
    var r := Step(c, s, x);
    NoTimeNoArea(r.level, SlotTime(r, Report) - r.last);
  }

  lemma NoTimeNoArea(level: int, elapsed: real)
    requires elapsed == 0.0
    ensures Area(level, elapsed) == 0.0
  {
  }

  lemma {:induction false} ReportIsLast(c: Config, s: State, x: Sample, ys: seq<Sample>)
    requires c.Sane() && Scheduled(c, s) && x.Legal(c) && AllLegal(c, ys) && EventOf(s, x) == Report
    ensures Run(c, Step(c, s, x), ys) == Step(c, s, x)
  {
    if ys != [] {
      ReportIsLast(c, s, x, ys[..|ys| - 1]);
      ReportAbsorbs(c, s, x, ys[|ys| - 1]);
    }
  }

  // ------------------------------------------------------------------ one order at a time

  /** The next sample places an order while another is still on its way, so that one is lost. */
  ghost predicate Overwrites(c: Config, s: State, x: Sample) {
    PlacesOrder(c, s, x) && !NoOrderOutstanding(Started(s, x))
  }

  ghost predicate NeverOverwrites(c: Config) {
    forall xs: seq<Sample>, x: Sample :: AllLegal(c, xs) && x.Legal(c) ==> !Overwrites(c, After(c, xs), x)
  }

  /** No outstanding order is ever lost exactly when lags are at most one month, or the run is too
      short to hold two evaluations. */
  lemma OneOrderExactly(c: Config)
    requires c.Sane()
    ensures NeverOverwrites(c) <==> c.maxLag <= 1.0 || c.months <= 1
  {
    if c.maxLag <= 1.0 || c.months <= 1 {
      forall xs: seq<Sample>, x: Sample | AllLegal(c, xs) && x.Legal(c)
        ensures !Overwrites(c, After(c, xs), x)
      {
        KeepsOrder(c, xs, x);
      }
    } else {
      LosesOrder(c);
    }
  }

  /** The next sample is an evaluation, and an order is still on its way. */
  ghost predicate FindsOrder(c: Config, s: State, x: Sample) {
    EventOf(s, x) == Evaluate && !NoOrderOutstanding(Started(s, x))
  }

  ghost predicate NeverFindsOrder(c: Config) {
    forall xs: seq<Sample>, x: Sample :: AllLegal(c, xs) && x.Legal(c) ==> !FindsOrder(c, After(c, xs), x)
  }

  /** No evaluation of any run, whether it orders or not, finds the arrival slot occupied, exactly under the
      same condition. */
  lemma NoOrderFoundExactly(c: Config)
    requires c.Sane()
    ensures NeverFindsOrder(c) <==> c.maxLag <= 1.0 || c.months <= 1
  {
    if c.maxLag <= 1.0 || c.months <= 1 {
      forall xs: seq<Sample>, x: Sample | AllLegal(c, xs) && x.Legal(c)
        ensures !FindsOrder(c, After(c, xs), x)
      {
        RunScheduled(c, xs);
        if c.maxLag <= 1.0 {
          LevelBounded(c, xs);
          StepOrderDue(c, After(c, xs), x);
        } else {
          ShortRun(c, xs);
        }
      }
    } else {
      LosesOrder(c);
      if NeverFindsOrder(c) {
        NeverFindsNeverOverwrites(c);
      }
    }
  }

  lemma NeverFindsNeverOverwrites(c: Config)
    requires NeverFindsOrder(c)
    ensures NeverOverwrites(c)
  {
    hide After, EventOf, NoOrderOutstanding;
    forall xs: seq<Sample>, x: Sample | AllLegal(c, xs) && x.Legal(c)
      ensures !Overwrites(c, After(c, xs), x)
    {
      assert !FindsOrder(c, After(c, xs), x);
    }
  }

  lemma KeepsOrder(c: Config, xs: seq<Sample>, x: Sample)
    requires c.Sane() && (c.maxLag <= 1.0 || c.months <= 1) && AllLegal(c, xs) && x.Legal(c)
    ensures !Overwrites(c, After(c, xs), x)
  {
    RunScheduled(c, xs);
    if c.maxLag <= 1.0 {
      LevelBounded(c, xs);
      StepOrderDue(c, After(c, xs), x);
    } else {
      ShortRun(c, xs);
    }
  }

  /** In a run of at most one month only the evaluation at time zero happens. */
  lemma {:induction false} ShortRun(c: Config, xs: seq<Sample>)
    requires c.Sane() && c.months <= 1 && AllLegal(c, xs)
    ensures var s := After(c, xs); (s.t4 == 0.0 && NoOrderOutstanding(s)) || s.t4 >= 1.0
  {
    if xs != [] {
      var before := xs[..|xs| - 1];
      ShortRun(c, before);
      RunScheduled(c, before);
      hide Truncate;
    }
  }

  lemma LosesOrder(c: Config)
    requires c.Sane() && c.maxLag > 1.0 && c.months >= 2
    ensures !NeverOverwrites(c)
  {
    var big := if c.initial as real < c.smalls then 0 else c.initial - c.smalls.Floor + 1;
    var x := Sample(c.months as real + 1.0, big as real, c.maxLag);
    var s1 := Step(c, Initial(c), x);
    TruncateBounds(c.initial as real - big as real, c.initial - big);
    assert EventOf(Initial(c), x) == Demand;
    assert s1.level == c.initial - big && s1.level as real < c.smalls;
    var s2 := Step(c, s1, x);
    assert EventOf(s1, x) == Evaluate;
    assert s2.t1 == c.maxLag && s2.level == s1.level;
    assert Overwrites(c, s2, x);
    var xs := [x, x];
    assert After(c, []) == Initial(c);
    assert [x][..0] == [] && After(c, [x]) == s1;
    assert xs[..1] == [x] && After(c, xs) == s2;
    assert AllLegal(c, xs);
  }

  // ------------------------------------------------------------------ the block

  datatype Shown = Shown(time: real, value: real)

  /** What the samples xs put out: one pair for every event but a report. */
  ghost function Outputs(c: Config, s: State, xs: seq<Sample>, showDemand: bool): (o: seq<Shown>) {
    if xs == [] then []
    else
      var before, x := xs[..|xs| - 1], xs[|xs| - 1];
      var r := Run(c, s, before);
      var o := Outputs(c, s, before, showDemand);
      var after := Step(c, r, x);
      if EventOf(r, x) in {Report, Idle} then o
      else o + [Shown(after.time, if showDemand then x.demand else after.level as real)]
  }

  /** Until the report every sample puts out one pair: its own demand, or what the books say is in stock, and the
      time of its event. */
  lemma {:induction false} ShownExactly(c: Config, xs: seq<Sample>, showDemand: bool, i: nat)
    requires c.Sane() && AllLegal(c, xs) && Books(c, xs).reports == 0 && AllServedWhole(c, xs) && i < |xs|
    ensures var o := Outputs(c, Initial(c), xs, showDemand);
            && |o| == |xs| && o[i].time == After(c, xs[..i + 1]).time
            && (showDemand ==> o[i].value == xs[i].demand)
            && (!showDemand ==>
                  var l := Books(c, xs[..i + 1]); o[i].value == c.initial as real + l.received as real - l.demanded)
  {
    hide *;
    var n := |xs| - 1;
    var before := xs[..n];
    LegalPrefix(c, xs);
    WholePrefix(c, xs);
    BooksUnfold(c, xs);
    RunScheduled(c, before);
    StepScheduled(c, After(c, before), xs[n]);
    NoReportYet(c, Books(c, before), After(c, before), xs[n]);
    OutputsUnfold(c, xs, showDemand);
    if before == [] {
      NothingYet(c, Initial(c), showDemand);
      assert before == [];
    } else {
      ShownExactly(c, before, showDemand, if i < n then i else 0);
    }
    if i < n {
      assert before[..i + 1] == xs[..i + 1];
    } else {
      assert xs[..i + 1] == xs;
      WholeBalance(c, xs);
    }
  }

  lemma WholeBalance(c: Config, xs: seq<Sample>)
    requires AllServedWhole(c, xs)
    ensures After(c, xs).level as real == c.initial as real + Books(c, xs).received as real - Books(c, xs).demanded
  {
    hide After, Books, ServesWhole;
    StockBalancesExactly(c, xs);
    assert BalancedAt(c, xs, |xs|);
    assert xs[..|xs|] == xs;
  }

  lemma NoReportYet(c: Config, l: Ledger, s: State, x: Sample)
    requires Booked(c, l, s, x).reports == 0
    ensures l.reports == 0 && EventOf(s, x) != Report
  {
    hide EventOf, Step;
  }

  lemma OutputsUnfold(c: Config, xs: seq<Sample>, showDemand: bool)
    requires xs != []
    ensures var before, x := xs[..|xs| - 1], xs[|xs| - 1];
            var o, v := Outputs(c, Initial(c), before, showDemand), After(c, xs);
            Outputs(c, Initial(c), xs, showDemand)
            == if EventOf(After(c, before), x) in {Report, Idle} then o
               else o + [Shown(v.time, if showDemand then x.demand else v.level as real)]
  {
    hide Step, EventOf;
  }

  ghost function Times(o: seq<Shown>): seq<real> {
    seq(|o|, i requires 0 <= i < |o| => o[i].time)
  }

  ghost function Values(o: seq<Shown>): seq<real> {
    seq(|o|, i requires 0 <= i < |o| => o[i].value)
  }

  /** All of the samples due but the last one. */
  ghost predicate DropLast(cells: seq<real>, due: seq<real>) {
    due != [] && cells == due[..|due| - 1]
  }

  lemma DropsOne(cells: seq<real>, due: seq<real>, v: real)
    requires due == cells + [v]
    ensures DropLast(cells, due)
  {
  }

  class Simulator {
    const c: Config
    const showDemand: bool
    const obufs: nat
    /** Slots 1..4: order arrival, demand, report, evaluation. */
    const timeNextEvent: array<real>
    var time: real
    var timeLastEvent: real
    var inventoryLevel: int
    var amount: int
    var areaHolding: real
    var areaShortage: real
    var totalOrderingCost: real
    var first: bool

    ghost predicate Valid() {
      timeNextEvent.Length == 5
    }

    ghost function View(): State
      requires Valid()
      reads this, timeNextEvent
    {
      State(timeNextEvent[1], timeNextEvent[2], timeNextEvent[3], timeNextEvent[4], time, timeLastEvent,
            inventoryLevel, amount, areaHolding, areaShortage, totalOrderingCost, first)
    }

    constructor (config: Config, demandShown: bool, outputs: nat)
      ensures Valid() && fresh(timeNextEvent) && c == config && View() == Initial(config)
      ensures showDemand == demandShown && obufs == outputs
    {
      c, showDemand, obufs := config, demandShown, outputs;
      timeNextEvent := new real[5](_ => 0.0);
      first := true;
      time, timeLastEvent := 0.0, 0.0;
      inventoryLevel, amount := config.initial, 0;
      totalOrderingCost, areaHolding, areaShortage := 0.0, 0.0, 0.0;
      new;
      timeNextEvent[1] := INFINITY;
      timeNextEvent[2] := time;
      timeNextEvent[3] := config.months as real;
      timeNextEvent[4] := 0.0;
    }

    /** The selection loop: 0 when no slot lies below the horizon. */
    method Select() returns (nextEventType: nat, minTime: real)
      requires Valid()
      ensures nextEventType <= 4
      ensures View() == old(View())
      ensures Chosen(View()) == [Idle, Arrival, Demand, Report, Evaluate][nextEventType]
      ensures nextEventType > 0 ==> minTime == timeNextEvent[nextEventType]
    {
      nextEventType, minTime := 0, HORIZON;
      var i := 1;
      while i <= 4
        invariant 1 <= i <= 5 && nextEventType < i
        invariant minTime == if nextEventType == 0 then HORIZON else timeNextEvent[nextEventType]
        invariant minTime <= HORIZON && (nextEventType > 0 ==> minTime < HORIZON)
        invariant forall j | 1 <= j < i :: minTime <= timeNextEvent[j]
        invariant forall j | 1 <= j < nextEventType :: minTime < timeNextEvent[j]
      {
        if timeNextEvent[i] < minTime {
          minTime := timeNextEvent[i];
          nextEventType := i;
        }
        i := i + 1;
      }
    }

    /** Timing and the time-average accumulators. */
    method Advance(minTime: real, ghost e: Event)
      requires Valid() && e != Idle && minTime == SlotTime(View(), e)
      modifies `time, `timeLastEvent, `areaShortage, `areaHolding
      ensures View() == Advanced(old(View()), e)
    {
      hide Area;
      time := minTime;
      var timeSinceLastEvent := time - timeLastEvent;
      timeLastEvent := time;
      if inventoryLevel < 0 {
        areaShortage := areaShortage - Area(inventoryLevel, timeSinceLastEvent);
      } else if inventoryLevel > 0 {
        areaHolding := areaHolding + Area(inventoryLevel, timeSinceLastEvent);
      }
    }

    /** The event functions. */
    method Handle(nextEventType: nat, x: Sample) returns (e: Event)
      requires Valid() && 1 <= nextEventType <= 4
      modifies this, timeNextEvent
      ensures e == [Idle, Arrival, Demand, Report, Evaluate][nextEventType]
      ensures View() == Handled(c, old(View()), e, x)
    {
      hide Truncate, OrderCost;
      match nextEventType {
        case 1 =>
          inventoryLevel := inventoryLevel + amount;
          timeNextEvent[1] := INFINITY;
          return Arrival;
        case 2 =>
          inventoryLevel := Truncate(inventoryLevel as real - x.demand);
          timeNextEvent[2] := time + x.interval;
          return Demand;
        case 3 =>
          return Report;
        case _ =>
          if inventoryLevel as real < c.smalls {
            amount := Truncate(c.bigs - inventoryLevel as real);
            totalOrderingCost := totalOrderingCost + OrderCost(c, amount);
            timeNextEvent[1] := time + x.lag;
          }
          timeNextEvent[4] := time + 1.0;
          return Evaluate;
      }
    }

    /** One sample: the event it triggers and the new state. */
    method Process(x: Sample) returns (e: Event)
      requires Valid()
      modifies this, timeNextEvent
      ensures e == EventOf(old(View()), x) && View() == Step(c, old(View()), x)
    {
      if first {
        timeNextEvent[1] := timeNextEvent[1] + x.interval;
      }
      first := false;
      hide Chosen, Advanced, Handled, Truncate;
      assert View() == Started(old(View()), x);
      var nextEventType, minTime := Select();
      ghost var chosen := Chosen(View());
      if nextEventType == 0 {
        IdleStep(c, View(), x);
        return Idle;
      }
      Advance(minTime, chosen);
      e := Handle(nextEventType, x);
    }

    /** Puts out one sample, with the time before it when two outputs are connected. */
    method PutSample(v: real, out0: OutBuffer<real>, out1: OutBuffer<real>) returns (full: bool)
      requires out0 != out1
      modifies out0, out1
      ensures obufs == 1 ==> out0.cells == (if full then old(out0.cells) else old(out0.cells) + [v])
                             && out1.cells == old(out1.cells)
      ensures obufs == 2 && !full ==> out0.cells == old(out0.cells) + [time] && out1.cells == old(out1.cells) + [v]
      ensures obufs == 2 && full ==> (out0.cells == old(out0.cells) || out0.cells == old(out0.cells) + [time])
                                     && out1.cells == old(out1.cells)
    {
      full := false;
      if obufs == 1 {
        full := out0.Put(v);
      } else if obufs == 2 {
        full := out0.Put(time);
        if !full {
          full := out1.Put(v);
        }
      }
    }

    lemma ViewFields()
      requires Valid()
      ensures View().level == inventoryLevel && View().time == time
    {
    }

    /** One visit. It ends when the input is used up, at a report, or when an output is refused; the
        samples it used drive the state as `Run` says. */
    method MainCode(inp: InBuffer<Sample>, out0: OutBuffer<real>, out1: OutBuffer<real>)
      returns (status: int, ghost used: seq<Sample>)
      requires Valid() && out0 != out1
      modifies this, timeNextEvent, inp, out0, out1
      ensures status == 0 || status == 99
      ensures old(inp.pending) == used + inp.pending && View() == Run(c, old(View()), used)
      ensures status == 0 && inp.pending != [] ==>
                used != [] && EventOf(Run(c, old(View()), used[..|used| - 1]), used[|used| - 1]) in {Report, Idle}
      ensures var o := Outputs(c, old(View()), used, showDemand);
              && (obufs == 1 && status == 0 ==>
                     out0.cells == old(out0.cells) + Values(o) && out1.cells == old(out1.cells))
              && (obufs == 2 && status == 0 ==>
                    out0.cells == old(out0.cells) + Times(o) && out1.cells == old(out1.cells) + Values(o))
              && (obufs == 1 && status == 99 ==>
                    DropLast(out0.cells, old(out0.cells) + Values(o)) && out1.cells == old(out1.cells))
              && (obufs == 2 && status == 99 ==>
                    && DropLast(out1.cells, old(out1.cells) + Values(o))
                    && (DropLast(out0.cells, old(out0.cells) + Times(o)) || out0.cells == old(out0.cells) + Times(o)))
    {
      hide *;
      used := [];
      ghost var s0 := View();
      NothingYet(c, s0, showDemand);
      while inp.pending != []
        invariant Valid() && old(inp.pending) == used + inp.pending && View() == Run(c, s0, used)
        invariant obufs == 1 ==> out0.cells == old(out0.cells) + Values(Outputs(c, s0, used, showDemand))
        invariant obufs == 1 ==> out1.cells == old(out1.cells)
        invariant obufs == 2 ==> out0.cells == old(out0.cells) + Times(Outputs(c, s0, used, showDemand))
        invariant obufs == 2 ==> out1.cells == old(out1.cells) + Values(Outputs(c, s0, used, showDemand))
        decreases |inp.pending|
      {
        var x := inp.Take();
        OneMore(c, s0, used, x, showDemand);
        var e := Process(x);
        used := used + [x];
        if e == Idle || e == Report {
          return 0, used;
        }
        ViewFields();
        var shown := if showDemand then x.demand else inventoryLevel as real;
        ghost var o, before0, before1 := Outputs(c, s0, used, showDemand), out0.cells, out1.cells;
        var full := PutSample(shown, out0, out1);
        if full {
          if obufs == 1 {
            DropsOne(before0, old(out0.cells) + Values(o), shown);
          } else if obufs == 2 {
            DropsOne(before0, old(out0.cells) + Times(o), time);
            DropsOne(before1, old(out1.cells) + Values(o), shown);
          }
          return 99, used;
        }
      }
      return 0, used;
    }
  }

  lemma IdleStep(c: Config, b: State, x: Sample)
    ensures Handled(c, Advanced(b, Idle), Idle, x) == b
  {
  }

  lemma NothingYet(c: Config, s: State, showDemand: bool)
    ensures Run(c, s, []) == s && Outputs(c, s, [], showDemand) == [] && Values([]) == Times([]) == []
  {
  }

  lemma OneMore(c: Config, s: State, used: seq<Sample>, x: Sample, showDemand: bool)
    ensures (used + [x])[..|used|] == used && (used + [x])[|used|] == x
    ensures Run(c, s, used + [x]) == Step(c, Run(c, s, used), x)
    ensures var r, o := Run(c, s, used), Outputs(c, s, used, showDemand);
            var o' := Outputs(c, s, used + [x], showDemand);
            var v := if showDemand then x.demand else Step(c, r, x).level as real;
            if EventOf(r, x) in {Report, Idle} then o' == o
            else Times(o') == Times(o) + [Step(c, r, x).time] && Values(o') == Values(o) + [v]
  {
    hide Step, EventOf;
    assert (used + [x])[..|used|] == used;
  }
}
