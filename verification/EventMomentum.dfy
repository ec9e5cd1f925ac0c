/**
 Repeated events: readings that show some vehicles, though fewer than on a busy road. Each one strengthens the
 momentum, so that a few of them open a road that no single one would.
 */
module EventMomentum {
  import opened Wrappers
  import opened IdeaConstants
  import opened CoverageCounters
  import opened RoadStatus
  import opened RunningMeanProperties
  import opened Validation
  import opened ClosureTimes

  /** exp is the exponential function: the last two facts determine it. */
  ghost predicate IsExponential(exp: real -> real) {
    && IsExp(exp)
    && (forall x, y :: exp(x + y) == exp(x) * exp(y))
    && (forall x :: exp(x) >= 1.0 + x)
  }

  lemma {:induction false} DecayAtMost(exp: real -> real, x: real)
    requires IsExponential(exp) && x >= 0.0
    ensures 0.0 < exp(-x) <= 1.0 && Product(exp(-x), 1.0 + x) <= 1.0
  {
    assert exp(-x + x) == exp(-x) * exp(x);
    ScaledBetween(exp(-x), 1.0 + x, 1.0 + x, exp(x));
    if x > 0.0 { assert exp(-x) < exp(0.0); }
  }

  lemma {:induction false} DecaySquares(exp: real -> real, x: real)
    requires IsExponential(exp)
    ensures exp(-2.0 * x) == Product(exp(-x), exp(-x))
  {
    assert -x + -x == -2.0 * x;
    assert exp(-x + -x) == exp(-x) * exp(-x);
  }

  // ---------------------------------------------------------------- the momentum doubles

  /** A reading other than 0, 1 and missing, and below COV_HIGH, in a slot whose known median it does not fall
      far below. */
  predicate IsEvent(reading: Reading, profile: Profile) {
    var median := ProfileAt(profile, reading.hourOfWeek).fcdMeanMedian;
    && reading.fcd.Some? && reading.fcd.value != 0.0 && reading.fcd.value != 1.0 && reading.fcd.value < COV_HIGH
    && median.Some? && median.value - reading.fcd.value <= COV_DROP_LIMIT
  }

  ghost predicate AllEvents(readings: seq<Reading>, profile: Profile) {
    forall i :: 0 <= i < |readings| ==> IsEvent(readings[i], profile)
  }

  /** The row of an event. */
  predicate EventRow(row: Row) {
    && row.fcd.Some? && 0.0 < row.fcd.value < COV_HIGH && Streakless(row)
    && row.fcdMeanMedian.Some? && row.fcdMeanMedian.value - row.fcd.value <= COV_DROP_LIMIT
  }

  ghost predicate AllEventRows(rows: seq<Row>) {
    forall j :: 0 <= j < |rows| ==> EventRow(rows[j])
  }

  predicate Streakless(row: Row) {
    row.consecutiveZeros == Some(0) && row.consecutiveLow == Some(0)
  }

  /** The low streak of the row is known and at most half its low threshold, a threshold below 5 or missing
      counting as 5: the last event is recent. */
  predicate Recent(row: Row) {
    && row.consecutiveLow.Some?
    && (row.consecutiveLow.value <= 2
        || (row.lowQ95.Some? && 2.0 * row.consecutiveLow.value as real <= row.lowQ95.value))
  }

  /** The momentum parameter after n events in a row. */
  function Momentum(n: nat): real { Min(K_MAX, K_START * Pow(2.0, n)) }

  lemma {:induction false} PowOfTwo(n: nat)
    ensures Pow(2.0, n + 1) == 2.0 * Pow(2.0, n)
  {
  }

  lemma {:induction false} PowOfTwoPositive(n: nat)
    ensures Pow(2.0, n) >= 1.0
  {
    if n > 0 {
      PowOfTwoPositive(n - 1);
    }
  }

  lemma {:induction false} MomentumDoubles(n: nat)
    ensures Momentum(n + 1) == Min(K_MAX, 2.0 * Momentum(n)) && Momentum(n) >= K_START
  {
    PowOfTwo(n);
    PowOfTwoPositive(n);
    hide Pow;
  }

  lemma {:induction false} EventRowOf(readings: seq<Reading>, profile: Profile, i: nat)
    requires ReadingsInRange(readings) && i < |readings| && IsEvent(readings[i], profile)
    ensures EventRow(MatchedRows(readings, profile)[i])
  {
    RunsSnoc(Series(readings), i);
    hide ZeroRun, LowRun;
  }

  lemma {:induction false} EventRowsOf(readings: seq<Reading>, profile: Profile)
    requires ReadingsInRange(readings) && AllEvents(readings, profile)
    ensures AllEventRows(MatchedRows(readings, profile))
  {
    forall i | 0 <= i < |readings|
      ensures EventRow(MatchedRows(readings, profile)[i])
    {
      EventRowOf(readings, profile, i);
    }
    hide MatchedRows, EventRow;
  }

  lemma {:induction false} EventStepMomentum(exp: real -> real, previous: Row, row: Row, s: State)
    requires InRange(row.fcd) && EventRow(row)
    ensures Step(exp, previous, row, s).k == if Recent(previous) then Min(K_MAX, 2.0 * s.k) else s.k
    ensures Alpha(exp, previous, row, s.k) == exp(-Step(exp, previous, row, s).k)
    ensures Recent(row)
  {
    var window, k := DecayWindow(previous.lowQ95), MomentumK(previous, row, s.k);
    FullEcho(window);
    assert Alpha(exp, previous, row, s.k) == exp(-k * Echo(Some(0), window));
    TimesOne(-k, Echo(Some(0), window));
    hide Echo;
  }

  lemma {:induction false} FullEcho(window: real)
    requires window > 0.0
    ensures Echo(Some(0), window) == 1.0
  {
    assert (window - 0.0) / window == 1.0;
  }

  lemma {:induction false} TimesOne(x: real, one: real)
    requires one == 1.0
    ensures x * one == x
  {
  }

  lemma {:induction false} EventRunMomentum(exp: real -> real, previous: Row, s: State, rows: seq<Row>, n: nat, i: nat)
    requires AllInRange(rows) && i < |rows| && AllEventRows(rows)
    requires s.k == Momentum(n)
    ensures States(exp, previous, s, rows)[i].k == Momentum(if Recent(previous) then n + i + 1 else n + i)
    decreases i
  {
    var next := Step(exp, previous, rows[0], s);
    EventStepMomentum(exp, previous, rows[0], s);
    MomentumDoubles(n);
    StatesCons(exp, previous, s, rows);
    hide Step, EventRow, Recent, Momentum;
    if i > 0 {
      EventRunMomentum(exp, rows[0], next, rows[1..], if Recent(previous) then n + 1 else n, i - 1);
    }
  }

  /** Repeated events strengthen the momentum: over a call of events it starts at K_START and doubles at each of
      them up to K_MAX, except at the first one where no event is recent. */
  lemma {:induction false} EventsDoubleMomentum(exp: real -> real, readings: seq<Reading>, profile: Profile,
                                                    last: LastValidation, i: nat)
    requires ReadingsInRange(readings) && AllEvents(readings, profile) && i < |readings|
    ensures var states := States(exp, last.row, State(last.mean, K_START), MatchedRows(readings, profile));
            states[i].k == Min(K_MAX, K_START * Pow(2.0, if Recent(last.row) then i + 1 else i))
  {
    var rows := MatchedRows(readings, profile);
    assert Momentum(0) == K_START;
    hide MatchedRows, EventRow, IsEvent;
    EventRowsOf(readings, profile);
    EventRunMomentum(exp, last.row, State(last.mean, K_START), rows, 0, i);
    hide MatchedRows, Pow, States;
  }

  // ---------------------------------------------------------------- events reopen

  /** A lower bound on how many times n events in a row divide the mean. */
  function Divisor(n: nat): (d: real)
    ensures d >= 1.0
  {
    if n == 0 then 1.0 else
      MomentumDoubles(n);
      ProductNonNegative(Divisor(n - 1) - 1.0, Momentum(n));
      Divisor(n - 1) * (1.0 + Momentum(n))
  }

  /** The mean is at most `start` divided n events long. */
  ghost predicate Divided(mean: Option<real>, start: real, n: nat) {
    mean.Some? && 0.0 <= mean.value && Product(mean.value, Divisor(n)) <= start
  }

  /** No event lifts the mean, where the row before has no streak; and none lifts it above 1. */
  lemma {:induction false} EventDoesNotLift(previous: Row, row: Row, m: real)
    requires InRange(row.fcd) && EventRow(row) && 0.0 <= m <= 1.0
    ensures var base := BaseMean(previous, row, m);
            base.Some? && 0.0 <= base.value <= 1.0 && (Streakless(previous) ==> base.value <= m)
  {
    BaseMeanInUnitInterval(previous, row, m);
    assert CurrentStreak(row, previous) == 0;
    if Streakless(previous) {
      var pv, w := Threshold(row, previous), row.fcd.value;
      assert PreviousStreak(row, previous) == 0 && StreakRatio(0, pv) == 0.0;
      hide StreakRatio, CalculateRunningMean;
      WeightedMeanBetween(pv, m, w, 0.0, 0.0, m);
    }
  }

  lemma {:induction false} DividedFurther(base: real, m: real, alpha: real, start: real, n: nat)
    requires n > 0 && 0.0 <= base <= m && alpha >= 0.0 && Product(alpha, 1.0 + Momentum(n)) <= 1.0
    requires Divided(Some(m), start, n - 1)
    ensures Divided(Some(Damped(base, alpha)), start, n)
  {
    var d, q := Divisor(n - 1), 1.0 + Momentum(n);
    assert Divisor(n) == d * q;
    ScaledBetween(base, alpha * q, alpha * q, 1.0);
    ScaledBetween(d, base * (alpha * q), base * (alpha * q), base);
    ScaledBetween(d, base, base, m);
    assert (base * alpha) * (d * q) == d * (base * (alpha * q));
    ProductNonNegative(base, alpha);
  }

  /** The state after n events in a row, the last of them in `previous`. Before the first one the row may end a
      streak, as long as an event is recent. */
  ghost predicate Shrunk(previous: Row, s: State, start: real, n: nat) {
    && Recent(previous) && s.k == Momentum(n) && Divided(s.mean, start, n) && s.mean.value <= 1.0
    && (Streakless(previous) || (n == 0 && start == 1.0))
  }

  lemma {:induction false} EventShrinks(previous: Row, row: Row, base: real, m: real, alpha: real, start: real, n: nat)
    requires 0.0 <= base <= 1.0 && (Streakless(previous) ==> base <= m)
    requires 0.0 <= alpha <= 1.0 && Product(alpha, 1.0 + Momentum(n + 1)) <= 1.0
    requires Divided(Some(m), start, n) && (Streakless(previous) || (n == 0 && start == 1.0))
    ensures Divided(Some(Damped(base, alpha)), start, n + 1) && Damped(base, alpha) <= 1.0
  {
    ScaledIntoInterval(base, alpha);
    assert Divisor(0) == 1.0;
    hide Momentum, Divisor, Damped;
    if Streakless(previous) {
      DividedFurther(base, m, alpha, start, n + 1);
    } else {
      ProductByZeroOrOne(1.0);
      DividedFurther(base, 1.0, alpha, 1.0, 1);
    }
  }

  lemma {:induction false} EventStepDivides(exp: real -> real, previous: Row, row: Row, s: State, start: real, n: nat)
    requires IsExponential(exp) && InRange(row.fcd) && EventRow(row) && Shrunk(previous, s, start, n)
    ensures Shrunk(row, Step(exp, previous, row, s), start, n + 1)
  {
    var m, next := s.mean.value, Step(exp, previous, row, s);
    assert Streakless(row);
    EventStepMomentum(exp, previous, row, s);
    MomentumDoubles(n);
    MomentumDoubles(n + 1);
    EventDoesNotLift(previous, row, m);
    hide EventRow, Recent, Momentum, Streakless, Divided;
    DecayAtMost(exp, Momentum(n + 1));
    StepIsDampedBase(exp, previous, row, s);
    hide *;
    EventShrinks(previous, row, BaseMean(previous, row, m).value, m, Alpha(exp, previous, row, s.k), start, n);
    ShrunkIs(row, next, start, n + 1);
  }

  lemma {:induction false} ShrunkIs(previous: Row, s: State, start: real, n: nat)
    requires Recent(previous) && s.k == Momentum(n) && Divided(s.mean, start, n) && s.mean.Some?
    requires s.mean.value <= 1.0 && Streakless(previous)
    ensures Shrunk(previous, s, start, n)
  {
  }

  lemma {:induction false} EventRunUnfold(exp: real -> real, previous: Row, s: State, rows: seq<Row>, start: real,
                                          n: nat)
    requires IsExponential(exp) && AllInRange(rows) && AllEventRows(rows) && rows != []
    requires Shrunk(previous, s, start, n)
    ensures InRange(rows[0].fcd) && AllInRange(rows[1..]) && AllEventRows(rows[1..])
    ensures var next := Step(exp, previous, rows[0], s);
            && Shrunk(rows[0], next, start, n + 1) && Divided(next.mean, start, n + 1)
            && States(exp, previous, s, rows) == [next] + States(exp, rows[0], next, rows[1..])
  {
    StatesCons(exp, previous, s, rows);
    hide EventRow, Step, States, IsExponential, Divided;
    EventStepDivides(exp, previous, rows[0], s, start, n);
  }

  lemma {:induction false} EventRunDivides(exp: real -> real, previous: Row, s: State, rows: seq<Row>, start: real,
                                           n: nat, i: nat)
    requires IsExponential(exp) && AllInRange(rows) && AllEventRows(rows) && i < |rows|
    requires Shrunk(previous, s, start, n)
    ensures Divided(States(exp, previous, s, rows)[i].mean, start, n + i + 1)
    decreases i
  {
    hide *;
    EventRunUnfold(exp, previous, s, rows, start, n);
    if i > 0 {
      EventRunDivides(exp, rows[0], Step(exp, previous, rows[0], s), rows[1..], start, n + 1, i - 1);
    }
  }

  lemma {:induction false} DivisorGrows(m: nat, n: nat)
    requires m <= n
    ensures Divisor(m) <= Divisor(n)
  {
    if m < n {
      DivisorGrows(m, n - 1);
      MomentumDoubles(n);
      ProductNonNegative(Divisor(n - 1), Momentum(n));
    }
  }

  /** 1.05 * 1.1 * 1.2 * 1.4 * 1.8 * 2.6 > 9 */
  lemma {:induction false} FirstDivisors()
    ensures Divisor(5) > 3.49 && Divisor(6) > 9.0
  {
    assert Pow(2.0, 1) == 2.0 by { assert Pow(2.0, 0) == 1.0; }
    PowOfTwo(1);
    PowOfTwo(2);
    PowOfTwo(3);
    PowOfTwo(4);
    PowOfTwo(5);
    hide Pow;
    assert Divisor(0) == 1.0;
    assert Divisor(1) == 1.05;
    assert Divisor(2) == 1.155;
    assert Divisor(3) == 1.386;
    assert Divisor(4) == 1.9404;
  }

  lemma {:induction false} DividedIsOpen(mean: Option<real>, start: real, n: nat)
    requires Divided(mean, start, n) && n >= 5 && start <= if n >= 6 then 1.0 else 0.5
    ensures ClosureStatus(mean) == Open
  {
    var least := if n >= 6 then 6 else 5;
    FirstDivisors();
    DivisorGrows(least, n);
    hide Divisor;
    ScaledBetween(mean.value, if n >= 6 then 9.0 else 3.49, if n >= 6 then 9.0 else 3.49, Divisor(n));
  }

  /** Sparse traffic reopens a road. Within one call of events the status is "open" from the 6th reading on,
      whatever mean in [0,1] it starts from, and from the 7th where no event before it is recent. */
  lemma {:induction false} EventsReopen(exp: real -> real, readings: seq<Reading>, profile: Profile,
                                            last: Option<LastValidation>, i: nat)
    requires IsExponential(exp) && ReadingsInRange(readings) && AllEvents(readings, profile) && i < |readings|
    requires last.Some? ==> last.value.mean.Some? && 0.0 <= last.value.mean.value <= 1.0
    requires i >= if last.Some? && !Recent(last.value.row) then 6 else 5
    ensures ClosureStatus(CallMeans(exp, readings, profile, last)[i]) == Open
  {
    hide *;
    var rows := MatchedRows(readings, profile);
    EventRowsOf(readings, profile);
    CallMeansUnfold(exp, readings, profile, last);
    if last.None? {
      DefaultCallDivides(exp, rows, i);
    } else {
      var v := last.value;
      if Recent(v.row) {
        RecentCallDivides(exp, v.row, v.mean, rows, i);
      } else {
        LateCallDivides(exp, v.row, v.mean, rows, i);
      }
      RunningMeansFrom(exp, rows, v, i);
    }
  }

  lemma {:induction false} DefaultCallDivides(exp: real -> real, rows: seq<Row>, i: nat)
    requires IsExponential(exp) && AllInRange(rows) && AllEventRows(rows) && 5 <= i < |rows|
    ensures ClosureStatus(RunningMeans(exp, rows, None)[i]) == Open
  {
    var s, tail := State(Some(INITIAL_RUNNING_MEAN), K_START), rows[1..];
    assert EventRow(rows[0]) && Streakless(rows[0]) && Recent(rows[0]);
    assert AllInRange(tail) && AllEventRows(tail);
    assert RunningMeans(exp, rows, None)[i] == States(exp, rows[0], s, tail)[i - 1].mean;
    hide *;
    StartShrunk(rows[0], INITIAL_RUNNING_MEAN, INITIAL_RUNNING_MEAN);
    EventRunDivides(exp, rows[0], s, tail, INITIAL_RUNNING_MEAN, 0, i - 1);
    DividedIsOpen(States(exp, rows[0], s, tail)[i - 1].mean, INITIAL_RUNNING_MEAN, i);
  }

  lemma {:induction false} RunningMeansFrom(exp: real -> real, rows: seq<Row>, v: LastValidation, i: nat)
    requires AllInRange(rows) && i < |rows|
    ensures RunningMeans(exp, rows, Some(v))[i] == States(exp, v.row, State(v.mean, K_START), rows)[i].mean
  {
  }

  lemma {:induction false} StartShrunk(row: Row, mean: real, start: real)
    requires Recent(row) && 0.0 <= mean <= start <= 1.0 && (Streakless(row) || start == 1.0)
    ensures Shrunk(row, State(Some(mean), K_START), start, 0)
  {
    assert Momentum(0) == K_START && Divisor(0) == 1.0;
  }

  lemma {:induction false} RecentCallDivides(exp: real -> real, previous: Row, mean: Option<real>, rows: seq<Row>,
                                                 i: nat)
    requires IsExponential(exp) && AllInRange(rows) && AllEventRows(rows)
    requires Recent(previous) && mean.Some? && 0.0 <= mean.value <= 1.0 && 5 <= i < |rows|
    ensures ClosureStatus(States(exp, previous, State(mean, K_START), rows)[i].mean) == Open
  {
    hide *;
    StartShrunk(previous, mean.value, 1.0);
    EventRunDivides(exp, previous, State(mean, K_START), rows, 1.0, 0, i);
    DividedIsOpen(States(exp, previous, State(mean, K_START), rows)[i].mean, 1.0, i + 1);
  }

  lemma {:induction false} LateCallDivides(exp: real -> real, previous: Row, mean: Option<real>, rows: seq<Row>, i: nat)
    requires IsExponential(exp) && AllInRange(rows) && AllEventRows(rows)
    requires !Recent(previous) && mean.Some? && 0.0 <= mean.value <= 1.0 && 6 <= i < |rows|
    ensures ClosureStatus(States(exp, previous, State(mean, K_START), rows)[i].mean) == Open
  {
    var s := State(mean, K_START);
    var next, tail := Step(exp, previous, rows[0], s), rows[1..];
    EventStepMomentum(exp, previous, rows[0], s);
    FirstEventKeepsMean(exp, previous, rows[0], s);
    StatesCons(exp, previous, s, rows);
    assert Streakless(rows[0]) && AllEventRows(tail);
    hide *;
    StartShrunk(rows[0], next.mean.value, 1.0);
    EventRunDivides(exp, rows[0], next, tail, 1.0, 0, i - 1);
    DividedIsOpen(States(exp, previous, s, rows)[i].mean, 1.0, i);
  }

  lemma {:induction false} FirstEventKeepsMean(exp: real -> real, previous: Row, row: Row, s: State)
    requires IsExponential(exp) && InRange(row.fcd) && EventRow(row) && s.mean.Some? && 0.0 <= s.mean.value <= 1.0
    requires s.k == K_START
    ensures Step(exp, previous, row, s).mean.Some? && 0.0 <= Step(exp, previous, row, s).mean.value <= 1.0
  {
    FirstStepKeepsMean(exp, previous, row, s);
  }

  // ---------------------------------------------------------------- six events, and not five

  /** A call of events, whatever the profile, from a mean in [0,1] and with a recent event before. */
  ghost predicate EventCall(readings: seq<Reading>, profile: Profile, last: Option<LastValidation>) {
    && ReadingsInRange(readings) && AllEvents(readings, profile)
    && (last.Some? ==> last.value.mean.Some? && 0.0 <= last.value.mean.value <= 1.0 && Recent(last.value.row))
  }

  /** The row of two vehicles in a slot without thresholds and with a median of 4. */
  const TWO_VEHICLES := Row(Some(2.0), Some(0), Some(0), None, None, Some(4.0))

  function TwoVehicles(n: nat): (readings: seq<Reading>)
    ensures |readings| == n && ReadingsInRange(readings)
  {
    seq(n, _ => Reading(0, Some(2.0)))
  }

  const QUIET_PROFILE: Profile := map[0 := ProfileRow(None, None, Some(4.0))]

  /** A lower bound on what the n-th of five events leaves of the mean. */
  function Remainder(n: nat): real {
    match n
    case 0 => 1.0
    case 1 => 0.95
    case 2 => 0.9
    case 3 => 0.81
    case 4 => 0.65
    case _ => 0.42
  }

  lemma {:induction false} DecayAtLeast(exp: real -> real, n: nat)
    requires IsExponential(exp) && 1 <= n <= 5
    ensures exp(-Momentum(n)) >= Remainder(n)
  {
    if n == 1 {
      assert Pow(2.0, 1) == 2.0 by { assert Pow(2.0, 0) == 1.0; }
      assert exp(-0.05) >= 1.0 + -0.05;
    } else {
      DecayAtLeast(exp, n - 1);
      MomentumOfFew(n - 1);
      MomentumOfFew(n);
      DecaySquares(exp, Momentum(n - 1));
      hide *;
      SquareAtLeast(exp(-Momentum(n - 1)), n);
    }
  }

  lemma {:induction false} MomentumOfFew(n: nat)
    requires n <= 5
    ensures Momentum(n) <= 1.0 && Momentum(n + 1) == 2.0 * Momentum(n)
  {
    assert Pow(2.0, 0) == 1.0;
    PowOfTwo(0);
    PowOfTwo(1);
    PowOfTwo(2);
    PowOfTwo(3);
    PowOfTwo(4);
    PowOfTwo(5);
    hide Pow;
  }

  lemma {:induction false} SquareAtLeast(x: real, n: nat)
    requires 2 <= n <= 5 && x >= Remainder(n - 1)
    ensures Product(x, x) >= Remainder(n)
  {
    var r := Remainder(n - 1);
    SquareMonotone(r, x);
  }

  lemma {:induction false} TwoVehiclesBase(m: real)
    ensures BaseMean(TWO_VEHICLES, TWO_VEHICLES, m) == Some(m * (60.0 / 62.0))
  {
    assert BaseMean(TWO_VEHICLES, TWO_VEHICLES, m) == Some(CalculateRunningMean(60.0, m, 2.0, 0.0));
  }

  /** What n of five such events leave of a mean of 1, at least. */
  function Left(n: nat): (r: real)
    ensures r >= 0.0
  {
    if n == 0 then 1.0 else Left(n - 1) * (60.0 / 62.0) * Remainder(n)
  }

  lemma {:induction false} LessIsLeft(m: real, alpha: real, n: nat)
    requires m >= Left(n) && alpha >= Remainder(n + 1)
    ensures Damped(m * (60.0 / 62.0), alpha) >= Left(n + 1)
  {
    var x, y, r := Left(n) * (60.0 / 62.0), m * (60.0 / 62.0), Remainder(n + 1);
    RemainderPositive(n + 1);
    assert Left(n + 1) == x * r;
    hide Left, Remainder;
    assert 0.0 <= x <= y;
    ScaledBetween(r, x, x, y);
    ScaledBetween(y, r, r, alpha);
  }

  lemma {:induction false} TwoVehiclesIsEvent()
    ensures EventRow(TWO_VEHICLES) && InRange(TWO_VEHICLES.fcd) && Recent(TWO_VEHICLES)
  {
  }

  lemma {:induction false} TwoVehiclesStep(exp: real -> real, s: State, n: nat)
    requires IsExponential(exp) && n < 5 && s.k == Momentum(n) && s.mean.Some? && s.mean.value >= Left(n)
    ensures InRange(TWO_VEHICLES.fcd)
    ensures var next := Step(exp, TWO_VEHICLES, TWO_VEHICLES, s);
            next.k == Momentum(n + 1) && next.mean.Some? && next.mean.value >= Left(n + 1)
  {
    hide *;
    TwoVehiclesIsEvent();
    EventStepMomentum(exp, TWO_VEHICLES, TWO_VEHICLES, s);
    MomentumDoubles(n);
    DecayAtLeast(exp, n + 1);
    TwoVehiclesBase(s.mean.value);
    StepIsDampedBase(exp, TWO_VEHICLES, TWO_VEHICLES, s);
    LessIsLeft(s.mean.value, exp(-Momentum(n + 1)), n);
  }

  lemma {:induction false} RemainderPositive(n: nat)
    ensures Remainder(n) > 0.0
  {
  }

  lemma {:induction false} TwoVehiclesRun(exp: real -> real, s: State, rows: seq<Row>, n: nat, i: nat)
    requires IsExponential(exp) && AllInRange(rows) && i < |rows| && n + i < 5
    requires forall j :: 0 <= j < |rows| ==> rows[j] == TWO_VEHICLES
    requires s.k == Momentum(n) && s.mean.Some? && s.mean.value >= Left(n)
    ensures var mean := States(exp, TWO_VEHICLES, s, rows)[i].mean;
            mean.Some? && mean.value >= Left(n + i + 1)
    decreases i
  {
    hide *;
    TwoVehiclesStep(exp, s, n);
    StatesCons(exp, TWO_VEHICLES, s, rows);
    if i > 0 {
      TwoVehiclesRun(exp, Step(exp, TWO_VEHICLES, TWO_VEHICLES, s), rows[1..], n + 1, i - 1);
    }
  }

  lemma {:induction false} EnoughIsLeft(n: nat)
    requires n <= 5
    ensures Left(n) > OPEN_LIMIT
  {
    assert Left(0) == 1.0;
    assert Left(1) > 0.919;
    assert Left(2) > 0.8;
    assert Left(3) > 0.627;
    assert Left(4) > 0.394;
  }

  lemma {:induction false} TwoVehicleRows(n: nat, i: nat)
    requires i < n
    ensures MatchedRows(TwoVehicles(n), QUIET_PROFILE)[i] == TWO_VEHICLES
  {
    RunsSnoc(Series(TwoVehicles(n)), i);
    hide ZeroRun, LowRun;
  }

  lemma {:induction false} FewEventsMayNotReopen(exp: real -> real, n: nat)
    requires IsExponential(exp) && 1 <= n <= 5
    ensures var last := Some(LastValidation(TWO_VEHICLES, Some(1.0)));
            && EventCall(TwoVehicles(n), QUIET_PROFILE, last)
            && ClosureStatus(CallMeans(exp, TwoVehicles(n), QUIET_PROFILE, last)[n - 1]) != Open
  {
    var readings, v := TwoVehicles(n), LastValidation(TWO_VEHICLES, Some(1.0));
    var rows := MatchedRows(readings, QUIET_PROFILE);
    forall j | 0 <= j < n
      ensures rows[j] == TWO_VEHICLES
    {
      TwoVehicleRows(n, j);
      hide *;
    }
    assert EventCall(readings, QUIET_PROFILE, Some(v));
    hide *;
    CallMeansUnfold(exp, readings, QUIET_PROFILE, Some(v));
    RunningMeansFrom(exp, rows, v, n - 1);
    StartsFull();
    TwoVehiclesRun(exp, State(Some(1.0), K_START), rows, 0, n - 1);
    EnoughIsLeft(n);
    HighMeanIsNotOpen(CallMeans(exp, readings, QUIET_PROFILE, Some(v))[n - 1]);
  }

  lemma {:induction false} StartsFull()
    ensures Momentum(0) == K_START && Left(0) == 1.0
  {
    assert Pow(2.0, 0) == 1.0;
  }

  lemma {:induction false} HighMeanIsNotOpen(mean: Option<real>)
    requires mean.Some? && mean.value > OPEN_LIMIT
    ensures ClosureStatus(mean) != Open
  {
  }

  /** How many events it takes, exactly: from whatever mean in [0,1], after a recent event and under whatever
      profile, every call of n events ends open if and only if n is at least 6. */
  lemma {:induction false} EventsReopenIff(exp: real -> real, n: nat)
    requires IsExponential(exp) && n > 0
    ensures (forall readings: seq<Reading>, profile: Profile, last: Option<LastValidation> ::
               |readings| == n && EventCall(readings, profile, last) ==>
               ClosureStatus(CallMeans(exp, readings, profile, last)[n - 1]) == Open)
            <==> n >= 6
  {
    if n >= 6 {
      forall readings: seq<Reading>, profile: Profile, last: Option<LastValidation> |
        |readings| == n && EventCall(readings, profile, last)
        ensures ClosureStatus(CallMeans(exp, readings, profile, last)[n - 1]) == Open
      {
        EventsReopen(exp, readings, profile, last, n - 1);
      }
    } else {
      FewEventsMayNotReopen(exp, n);
      hide *;
      assert |TwoVehicles(n)| == n;
    }
  }
}
