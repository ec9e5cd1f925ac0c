/**
 Whole-run properties of the running mean: its interval, its dependence on the starting value,
 when it is lost to a missing reading, and when a run may be resumed from its last row.
 */
module RunningMeanProperties {
  import opened Wrappers
  import opened IdeaConstants
  import opened CoverageCounters
  import opened RoadStatus

  // ---------------------------------------------------------------- weighted means

  lemma ScaledBetween(w: real, x: real, lo: real, hi: real)
    requires w >= 0.0 && lo <= x <= hi
    ensures w * lo <= w * x <= w * hi
  {
  }

  /** A product as an opaque term: proofs about weighted means name their products and hide this. */
  function Product(x: real, y: real): real { x * y }

  lemma ProductsBetween(w: real, x: real, lo: real, hi: real)
    requires w >= 0.0 && lo <= x <= hi
    ensures Product(w, lo) <= Product(w, x) <= Product(w, hi)
  {
    ScaledBetween(w, x, lo, hi);
  }

  lemma ProductDistributes(d: real, p: real, w: real, x: real)
    requires d == p + w
    ensures Product(d, x) == Product(p, x) + Product(w, x)
    ensures Product(x, d) == Product(x, p) + Product(x, w)
  {
    assert (p + w) * x == p * x + w * x;
    assert x * (p + w) == x * p + x * w;
  }

  lemma ProductByZeroOrOne(x: real)
    ensures Product(x, 0.0) == 0.0 && Product(x, 1.0) == x
  {
  }

  lemma QuotientBetween(sum: real, d: real, lo: real, hi: real)
    requires d > 0.0 && d * lo <= sum <= d * hi
    ensures lo <= sum / d <= hi
  {
  }

  lemma ProductQuotientBetween(sum: real, d: real, lo: real, hi: real)
    requires d > 0.0 && Product(d, lo) <= sum <= Product(d, hi)
    ensures lo <= sum / d <= hi
  {
    QuotientBetween(sum, d, lo, hi);
  }

  lemma MeanOfProducts(p: real, m: real, w: real, r: real)
    requires p + w != 0.0
    ensures CalculateRunningMean(p, m, w, r) == (Product(p, m) + Product(w, r)) / (p + w)
  {
  }

  lemma WeightedMeanBetween(p: real, m: real, w: real, r: real, lo: real, hi: real)
    requires p > 0.0 && w >= 0.0
    requires lo <= m <= hi && lo <= r <= hi
    ensures lo <= CalculateRunningMean(p, m, w, r) <= hi
  {
    hide *;
    ProductsBetween(p, m, lo, hi);
    ProductsBetween(w, r, lo, hi);
    ProductDistributes(p + w, p, w, lo);
    ProductDistributes(p + w, p, w, hi);
    MeanOfProducts(p, m, w, r);
    ProductQuotientBetween(Product(p, m) + Product(w, r), p + w, lo, hi);
  }

  lemma QuotientsDiffer(x: real, y: real, d: real)
    requires d > 0.0
    ensures y / d - x / d == (y - x) / d
  {
  }

  /** A weighted mean keeps the order of its inputs and never widens their distance. */
  lemma WeightedMeanContracts(p: real, w: real, a: real, b: real, ra: real, rb: real)
    requires p > 0.0 && w >= 0.0 && a <= b && 0.0 <= rb - ra <= b - a
    ensures 0.0 <= CalculateRunningMean(p, b, w, rb) - CalculateRunningMean(p, a, w, ra) <= b - a
  {
    hide *;
    var d, gap, rgap := p + w, b - a, rb - ra;
    var x, y := Product(p, a) + Product(w, ra), Product(p, b) + Product(w, rb);
    MeanOfProducts(p, a, w, ra);
    MeanOfProducts(p, b, w, rb);
    ProductDistributes(b, a, gap, p);
    ProductDistributes(rb, ra, rgap, w);
    ProductsBetween(w, rgap, 0.0, gap);
    ProductsBetween(p, gap, 0.0, gap);
    ProductByZeroOrOne(w);
    ProductByZeroOrOne(p);
    ProductByZeroOrOne(d);
    ProductDistributes(d, p, w, gap);
    ProductQuotientBetween(y - x, d, 0.0, gap);
    QuotientsDiffer(x, y, d);
  }

  lemma ScaledProductDistance(alpha: real, a: real, b: real, gap: real)
    requires 0.0 <= alpha <= 1.0 && 0.0 <= b - a <= gap
    ensures 0.0 <= Product(b, alpha) - Product(a, alpha) <= gap
  {
    hide *;
    var d := b - a;
    ProductDistributes(b, a, d, alpha);
    ProductsBetween(d, alpha, 0.0, 1.0);
    ProductByZeroOrOne(d);
  }

  lemma ScaledDistance(alpha: real, a: real, b: real, gap: real)
    requires 0.0 <= alpha <= 1.0 && 0.0 <= b - a <= gap
    ensures 0.0 <= b * alpha - a * alpha <= gap
  {
    ScaledProductDistance(alpha, a, b, gap);
  }

  // ---------------------------------------------------------------- one row of a run

  function PreviousOf(previous: Row, rows: seq<Row>, i: nat): Row
    requires i < |rows|
  {
    if i == 0 then previous else rows[i - 1]
  }

  lemma {:induction false} StateAt(exp: real -> real, previous: Row, s: State, rows: seq<Row>, i: nat)
    requires AllInRange(rows) && i < |rows|
    ensures var S := States(exp, previous, s, rows);
            S[i] == Step(exp, PreviousOf(previous, rows, i), rows[i], if i == 0 then s else S[i - 1])
    decreases i
  {
    if i > 0 {
      StateAt(exp, rows[0], Step(exp, previous, rows[0], s), rows[1..], i - 1);
    }
  }

  // ---------------------------------------------------------------- interval

  lemma ProductNonNegative(x: real, y: real)
    requires x >= 0.0 && y >= 0.0
    ensures x * y >= 0.0
  {
  }

  lemma StreakRatioNonNegative(streak: nat, profileValue: real)
    requires profileValue > 0.0
    ensures StreakRatio(streak, profileValue) >= 0.0
    ensures streak as real < profileValue ==> StreakRatio(streak, profileValue) < 0.5
  {
    var r := StreakRatio(streak, profileValue);
    assert r * (2.0 * profileValue) == streak as real;
    if r < 0.0 {
      ProductNonNegative(-r, 2.0 * profileValue);
    }
    if r >= 0.5 {
      ProductNonNegative(r - 0.5, 2.0 * profileValue);
    }
  }

  lemma UpdateMeanInterval(c: nat, prev: nat, pv: real, coverage: Fcd, m: real, median: Option<real>)
    requires pv >= MINIMUM_PROFILE_VALUE && InRange(coverage) && 0.0 <= m <= 1.0
    ensures var r := UpdateMean(c, prev, pv, coverage, m, median); r.Some? ==> 0.0 <= r.value <= 1.0
  {
    hide CalculateRunningMean, StreakRatio, StreakWeight;
    StreakRatioNonNegative(c, pv);
    StreakRatioNonNegative(prev, pv);
    WeightedMeanBetween(pv, m, StreakWeight(c, pv), Max(m, Min(1.0, StreakRatio(c, pv))), 0.0, 1.0);
    WeightedMeanBetween(MINIMUM_PROFILE_VALUE, m, 10.0, 1.0, 0.0, 1.0);
    if coverage.Some? {
      if prev as real < pv {
        WeightedMeanBetween(pv, m, coverage.value, StreakRatio(prev, pv), 0.0, 1.0);
      }
      WeightedMeanBetween(MINIMUM_PROFILE_VALUE, m, coverage.value, 0.0, 0.0, 1.0);
    }
  }

  lemma AlphaInUnitInterval(exp: real -> real, previous: Row, row: Row, k: real)
    requires IsExp(exp) && k >= K_START
    ensures 0.0 < Alpha(exp, previous, row, k) <= 1.0
    ensures K_START <= MomentumK(previous, row, k)
    ensures k <= K_MAX ==> MomentumK(previous, row, k) <= K_MAX
  {
    if MomentumApplies(row.fcd, row.fcdMeanMedian) {
      var k', echo := MomentumK(previous, row, k), Echo(row.consecutiveLow, DecayWindow(previous.lowQ95));
      ProductNonNegative(k', echo);
      assert -k' * echo == -(k' * echo);
      DecayFactorInUnitInterval(exp, -k' * echo);
    }
  }

  ghost predicate Bounded(s: State) {
    && (s.mean.Some? ==> 0.0 <= s.mean.value <= 1.0)
    && K_START <= s.k <= K_MAX
  }

  lemma ScaledIntoInterval(x: real, alpha: real)
    requires 0.0 <= x <= 1.0 && 0.0 <= alpha <= 1.0
    ensures 0.0 <= Damped(x, alpha) <= 1.0
  {
    assert Damped(x, alpha) == Product(x, alpha);
    hide *;
    ProductsBetween(x, alpha, 0.0, 1.0);
    ProductByZeroOrOne(x);
  }

  lemma BaseMeanInUnitInterval(previous: Row, row: Row, m: real)
    requires InRange(row.fcd) && 0.0 <= m <= 1.0
    ensures var base := BaseMean(previous, row, m); base.Some? ==> 0.0 <= base.value <= 1.0
  {
    UpdateMeanInterval(CurrentStreak(row, previous), PreviousStreak(row, previous), Threshold(row, previous),
                       row.fcd, m, row.fcdMeanMedian);
    hide UpdateMean, CurrentStreak, PreviousStreak, Threshold;
  }

  lemma StepIsDampedBase(exp: real -> real, previous: Row, row: Row, s: State)
    requires InRange(row.fcd)
    ensures var next := Step(exp, previous, row, s);
            && next.k == MomentumK(previous, row, s.k)
            && (s.mean.None? ==> next.mean.None?)
            && (s.mean.Some? ==>
                  var base := BaseMean(previous, row, s.mean.value);
                  next.mean == if base.None? then None else Some(Damped(base.value, Alpha(exp, previous, row, s.k))))
  {
    hide BaseMean, Alpha, MomentumK, Damped;
  }

  lemma StepBounded(exp: real -> real, previous: Row, row: Row, s: State)
    requires IsExp(exp) && InRange(row.fcd) && Bounded(s)
    ensures Bounded(Step(exp, previous, row, s))
  {
    AlphaInUnitInterval(exp, previous, row, s.k);
    StepIsDampedBase(exp, previous, row, s);
    hide IsExp, Step, BaseMean, Alpha, MomentumK, Damped;
    if s.mean.Some? {
      BaseMeanInUnitInterval(previous, row, s.mean.value);
      var base := BaseMean(previous, row, s.mean.value);
      if base.Some? {
        ScaledIntoInterval(base.value, Alpha(exp, previous, row, s.k));
      }
    }
  }

  /** Whole-run bounds: from a mean in [0,1] (or a lost one) every mean is in [0,1] or lost, and k
      stays in [K_START, K_MAX], for every sequence of readings in range and every profile. */
  lemma {:induction false} RunStaysBounded(exp: real -> real, previous: Row, s: State, rows: seq<Row>)
    requires IsExp(exp) && AllInRange(rows) && Bounded(s)
    ensures forall i :: 0 <= i < |rows| ==> Bounded(States(exp, previous, s, rows)[i])
    decreases |rows|
  {
    if rows != [] {
      StepBounded(exp, previous, rows[0], s);
      RunStaysBounded(exp, rows[0], Step(exp, previous, rows[0], s), rows[1..]);
    }
  }

  lemma RunningMeansStayInUnitInterval(exp: real -> real, rows: seq<Row>, last: Option<LastValidation>)
    requires IsExp(exp) && AllInRange(rows)
    requires last.Some? && last.value.mean.Some? ==> 0.0 <= last.value.mean.value <= 1.0
    ensures forall i :: 0 <= i < |rows| && RunningMeans(exp, rows, last)[i].Some? ==>
                          0.0 <= RunningMeans(exp, rows, last)[i].value <= 1.0
  {
    if last.Some? {
      RunStaysBounded(exp, last.value.row, State(last.value.mean, K_START), rows);
    } else if rows != [] {
      RunStaysBounded(exp, rows[0], State(Some(INITIAL_RUNNING_MEAN), K_START), rows[1..]);
    }
  }

  // ---------------------------------------------------------------- dependence on the initial mean

  lemma UpdateMeanContracts(c: nat, prev: nat, pv: real, coverage: Fcd, a: real, b: real, median: Option<real>)
    requires pv >= MINIMUM_PROFILE_VALUE && InRange(coverage) && a <= b
    ensures var x, y := UpdateMean(c, prev, pv, coverage, a, median), UpdateMean(c, prev, pv, coverage, b, median);
            x.Some? == y.Some? && (x.Some? ==> 0.0 <= y.value - x.value <= b - a)
  {
    hide CalculateRunningMean, StreakRatio, StreakWeight;
    var cap := Min(1.0, StreakRatio(c, pv));
    WeightedMeanContracts(pv, StreakWeight(c, pv), a, b, Max(a, cap), Max(b, cap));
    WeightedMeanContracts(MINIMUM_PROFILE_VALUE, 10.0, a, b, 1.0, 1.0);
    if coverage.Some? {
      WeightedMeanContracts(pv, coverage.value, a, b, StreakRatio(prev, pv), StreakRatio(prev, pv));
      WeightedMeanContracts(MINIMUM_PROFILE_VALUE, coverage.value, a, b, 0.0, 0.0);
    }
  }

  lemma BaseMeanContracts(previous: Row, row: Row, a: real, b: real)
    requires InRange(row.fcd) && a <= b
    ensures var x, y := BaseMean(previous, row, a), BaseMean(previous, row, b);
            x.Some? == y.Some? && (x.Some? ==> 0.0 <= y.value - x.value <= b - a)
  {
    UpdateMeanContracts(CurrentStreak(row, previous), PreviousStreak(row, previous), Threshold(row, previous),
                        row.fcd, a, b, row.fcdMeanMedian);
  }

  /** b carries the same k as a and a mean that is at least a's and at most `gap` above it. */
  ghost predicate WithinGap(a: State, b: State, gap: real) {
    && a.k == b.k && a.mean.Some? == b.mean.Some?
    && (a.mean.Some? ==> 0.0 <= b.mean.value - a.mean.value <= gap)
  }

  lemma StepKeepsGap(exp: real -> real, previous: Row, row: Row, a: State, b: State, gap: real)
    requires IsExp(exp) && InRange(row.fcd) && a.k >= K_START && WithinGap(a, b, gap)
    ensures WithinGap(Step(exp, previous, row, a), Step(exp, previous, row, b),
                      if a.mean.Some? then b.mean.value - a.mean.value else gap)
  {
    hide BaseMean, Alpha, MomentumK;
    AlphaInUnitInterval(exp, previous, row, a.k);
    if a.mean.Some? {
      BaseMeanContracts(previous, row, a.mean.value, b.mean.value);
      var x, y := BaseMean(previous, row, a.mean.value), BaseMean(previous, row, b.mean.value);
      if x.Some? {
        ScaledDistance(Alpha(exp, previous, row, a.k), x.value, y.value, b.mean.value - a.mean.value);
      }
    }
  }

  lemma {:induction false} RunsStayWithinGap(exp: real -> real, previous: Row, a: State, b: State, rows: seq<Row>,
                                             gap: real, i: nat)
    requires IsExp(exp) && AllInRange(rows) && i < |rows|
    requires a.k >= K_START && WithinGap(a, b, gap)
    ensures WithinGap(States(exp, previous, a, rows)[i], States(exp, previous, b, rows)[i], gap)
    ensures States(exp, previous, a, rows)[i].k >= K_START
    decreases i
  {
    var a', b' := if i == 0 then a else States(exp, previous, a, rows)[i - 1],
                  if i == 0 then b else States(exp, previous, b, rows)[i - 1];
    if i > 0 {
      RunsStayWithinGap(exp, previous, a, b, rows, gap, i - 1);
    }
    StateAt(exp, previous, a, rows, i);
    StateAt(exp, previous, b, rows, i);
    StepKeepsGap(exp, PreviousOf(previous, rows, i), rows[i], a', b', gap);
    AlphaInUnitInterval(exp, PreviousOf(previous, rows, i), rows[i], a'.k);
  }

  /** Two runs over the same rows keep the order of their starting means, lose their means at the
      same rows, and never move further apart: between any two rows i < j the distance at j is at
      most the one at i, which is at most the starting distance. */
  lemma {:induction false} RunsKeepOrderAndNeverSeparate(exp: real -> real, previous: Row, a: State, b: State,
                                                         rows: seq<Row>, i: nat, j: nat)
    requires IsExp(exp) && AllInRange(rows) && i < j < |rows|
    requires a.k == b.k >= K_START && a.mean.Some? && b.mean.Some? && a.mean.value <= b.mean.value
    ensures var A, B := States(exp, previous, a, rows), States(exp, previous, b, rows);
            && WithinGap(A[i], B[i], b.mean.value - a.mean.value)
            && WithinGap(A[j], B[j], b.mean.value - a.mean.value)
            && (A[j].mean.Some? ==>
                  A[i].mean.Some? && B[j].mean.value - A[j].mean.value <= B[i].mean.value - A[i].mean.value)
  {
    hide Step, States, IsExp, LosesMean;
    var A, B := States(exp, previous, a, rows), States(exp, previous, b, rows);
    RunsStayWithinGap(exp, previous, a, b, rows, b.mean.value - a.mean.value, i);
    RunsStayWithinGap(exp, previous, a, b, rows, b.mean.value - a.mean.value, j);
    if A[j].mean.Some? {
      MeanIsLostExactly(exp, previous, a, rows, i);
      MeanIsLostExactly(exp, previous, a, rows, j);
      StatesFrom(exp, previous, a, rows, i);
      StatesFrom(exp, previous, b, rows, i);
      var rest := rows[i + 1..];
      assert AllInRange(rest);
      RunsStayWithinGap(exp, rows[i], A[i], B[i], rest, B[i].mean.value - A[i].mean.value, j - i - 1);
      assert A[i + 1..][j - i - 1] == A[j] && B[i + 1..][j - i - 1] == B[j];
    }
  }

  /** The states after row i are those of a run started from the state at row i. */
  lemma StatesFrom(exp: real -> real, previous: Row, s: State, rows: seq<Row>, i: nat)
    requires AllInRange(rows) && i < |rows|
    ensures AllInRange(rows[i + 1..])
    ensures var S := States(exp, previous, s, rows);
            S[i + 1..] == States(exp, rows[i], S[i], rows[i + 1..])
  {
    var front, back := rows[..i + 1], rows[i + 1..];
    assert front + back == rows && AllInRange(front) && AllInRange(back);
    StatesSplit(exp, previous, s, front, back);
  }

  /** Consequence for the classification: raising the starting mean can never turn a row from
      closed to anything else, nor a row that is not open into an open one. */
  lemma {:induction false} StatusIsMonotoneInTheStart(exp: real -> real, previous: Row, a: State, b: State,
                                                      rows: seq<Row>, i: nat)
    requires IsExp(exp) && AllInRange(rows) && a.k == b.k >= K_START && i < |rows|
    requires a.mean.Some? && b.mean.Some? && a.mean.value <= b.mean.value
    ensures var x := ClosureStatus(States(exp, previous, a, rows)[i].mean);
            var y := ClosureStatus(States(exp, previous, b, rows)[i].mean);
            (x == Closed ==> y == Closed) && (y == Open ==> x == Open)
  {
    RunsStayWithinGap(exp, previous, a, b, rows, b.mean.value - a.mean.value, i);
  }

  // ---------------------------------------------------------------- missing readings

  /** A missing reading enters the arithmetic exactly when the current streak is zero and the
      previous one is below the threshold. */
  predicate LosesMean(previous: Row, row: Row) {
    && row.fcd.None?
    && CurrentStreak(row, previous) == 0
    && PreviousStreak(row, previous) as real < Threshold(row, previous)
  }

  lemma StepLosesMean(exp: real -> real, previous: Row, row: Row, s: State)
    requires InRange(row.fcd)
    ensures Step(exp, previous, row, s).mean.None? <==> s.mean.None? || LosesMean(previous, row)
  {
  }

  /** The mean is lost (NaN, hence "undetermined") at a row exactly when it was lost at the start or
      some row up to it loses it; it never comes back within the call. */
  lemma {:induction false} MeanIsLostExactly(exp: real -> real, previous: Row, s: State, rows: seq<Row>, i: nat)
    requires AllInRange(rows) && i < |rows|
    ensures States(exp, previous, s, rows)[i].mean.None?
            <==> s.mean.None? || exists j :: 0 <= j <= i && LosesMean(PreviousOf(previous, rows, j), rows[j])
    decreases i
  {
    hide Step, States, LosesMean;
    StateAt(exp, previous, s, rows, i);
    if i > 0 {
      MeanIsLostExactly(exp, previous, s, rows, i - 1);
    }
    StepLosesMean(exp, PreviousOf(previous, rows, i), rows[i],
                  if i == 0 then s else States(exp, previous, s, rows)[i - 1]);
  }

  // ---------------------------------------------------------------- resuming

  lemma {:induction false} StatesSplit(exp: real -> real, previous: Row, s: State, front: seq<Row>, back: seq<Row>)
    requires AllInRange(front + back) && AllInRange(front) && AllInRange(back)
    requires front != []
    ensures var S := States(exp, previous, s, front);
            States(exp, previous, s, front + back) == S + States(exp, front[|front| - 1], S[|front| - 1], back)
    decreases |front|
  {
    var rows := front + back;
    assert rows[1..] == front[1..] + back;
    var next := Step(exp, previous, rows[0], s);
    if |front| > 1 {
      StatesSplit(exp, rows[0], next, front[1..], back);
    } else {
      assert front[1..] == [] && rows[1..] == back;
    }
  }

  /** State after the last row of a call. */
  ghost function FinalState(exp: real -> real, rows: seq<Row>, last: Option<LastValidation>): State
    requires AllInRange(rows) && rows != []
  {
    match last
    case Some(v) => States(exp, v.row, State(v.mean, K_START), rows)[|rows| - 1]
    case None =>
      var seed := State(Some(INITIAL_RUNNING_MEAN), K_START);
      if |rows| == 1 then seed else States(exp, rows[0], seed, rows[1..])[|rows| - 2]
  }

  /** What the next call is given after a call over `rows`. */
  ghost function LastOf(exp: real -> real, rows: seq<Row>, last: Option<LastValidation>): Option<LastValidation>
    requires AllInRange(rows) && rows != []
  {
    Some(LastValidation(rows[|rows| - 1], RunningMeans(exp, rows, last)[|rows| - 1]))
  }

  lemma MeansConcat(a: seq<State>, b: seq<State>)
    ensures Means(a + b) == Means(a) + Means(b)
  {
  }

  lemma RunContinues(exp: real -> real, front: seq<Row>, back: seq<Row>, last: Option<LastValidation>)
    requires AllInRange(front + back) && AllInRange(front) && AllInRange(back) && front != []
    ensures RunningMeans(exp, front + back, last)
            == RunningMeans(exp, front, last)
               + Means(States(exp, front[|front| - 1], FinalState(exp, front, last), back))
    ensures FinalState(exp, front, last).mean == RunningMeans(exp, front, last)[|front| - 1]
  {
    hide Step, States;
    match last {
      case Some(v) =>
        var s := State(v.mean, K_START);
        StatesSplit(exp, v.row, s, front, back);
        MeansConcat(States(exp, v.row, s, front), States(exp, front[|front| - 1], FinalState(exp, front, last), back));
      case None =>
        var s := State(Some(INITIAL_RUNNING_MEAN), K_START);
        var rows := front + back;
        assert rows[1..] == front[1..] + back && rows[0] == front[0];
        if |front| > 1 {
          StatesSplit(exp, front[0], s, front[1..], back);
          MeansConcat(States(exp, front[0], s, front[1..]),
                      States(exp, front[|front| - 1], FinalState(exp, front, last), back));
        } else {
          assert front[1..] == [] && rows[1..] == back;
        }
    }
  }

  ghost predicate ResumesExactly(exp: real -> real, front: seq<Row>, back: seq<Row>, last: Option<LastValidation>)
    requires AllInRange(front + back) && AllInRange(front) && AllInRange(back) && front != []
  {
    RunningMeans(exp, front + back, last)
    == RunningMeans(exp, front, last) + RunningMeans(exp, back, LastOf(exp, front, last))
  }

  lemma ConcatInRange(front: seq<Row>, back: seq<Row>)
    requires AllInRange(front) && AllInRange(back)
    ensures AllInRange(front + back)
  {
  }

  /** A row on which momentum applies with a positive echo and the base mean is positive, whatever
      precedes it: one vehicle in an otherwise normal slot, right after the streak restarted. */
  const PROBE := Row(Some(1.0), Some(1), Some(1), None, None, Some(4.0))

  lemma OneReadingRatioPositive(pv: real)
    requires pv > 0.0
    ensures StreakRatio(1, pv) > 0.0
  {
  }

  lemma ProbeBaseMeanPositive(previous: Row, m: real)
    requires 0.0 <= m <= 1.0
    ensures BaseMean(previous, PROBE, m).Some? && BaseMean(previous, PROBE, m).value > 0.0
  {
    hide CalculateRunningMean, StreakRatio, StreakWeight;
    var pv := Threshold(PROBE, previous);
    OneReadingRatioPositive(pv);
    WeightedMeanPositive(pv, m, StreakWeight(1, pv), Max(m, Min(1.0, StreakRatio(1, pv))));
  }

  lemma WeightedMeanPositive(p: real, m: real, w: real, r: real)
    requires p > 0.0 && m >= 0.0 && w >= 1.0 && r > 0.0
    ensures CalculateRunningMean(p, m, w, r) > 0.0
  {
    ScaledBetween(p, m, 0.0, m);
    ScaledBetween(r, w, 1.0, w);
    var sum, d := p * m + w * r, p + w;
    assert sum >= r > 0.0;
    assert sum / d > 0.0;
  }

  lemma ProbeSeparatesK(exp: real -> real, previous: Row, m: real, k: real)
    requires IsExp(exp) && 0.0 <= m <= 1.0 && k > K_START
    ensures StepMean(exp, previous, PROBE, Some(m), k) != StepMean(exp, previous, PROBE, Some(m), K_START)
  {
    hide BaseMean;
    ProbeBaseMeanPositive(previous, m);
    var base := BaseMean(previous, PROBE, m).value;
    var echo := Echo(PROBE.consecutiveLow, DecayWindow(previous.lowQ95));
    assert echo > 0.0;
    ScaledStrictly(echo, K_START, k);
    assert Alpha(exp, previous, PROBE, k) == exp(-k * echo);
    assert Alpha(exp, previous, PROBE, K_START) == exp(-K_START * echo);
    ScaledStrictly(base, exp(-k * echo), exp(-K_START * echo));
  }

  lemma ScaledStrictly(w: real, x: real, y: real)
    requires w > 0.0 && x < y
    ensures w * x < w * y && x * w < y * w && -y * w < -x * w
  {
  }

  /** Where the mean is lost it stays lost, whatever k is. */
  lemma LostMeansForgetMomentum(exp: real -> real, previous: Row, k: real, l: real, rows: seq<Row>)
    requires AllInRange(rows)
    ensures Means(States(exp, previous, State(None, k), rows)) == Means(States(exp, previous, State(None, l), rows))
  {
    forall i | 0 <= i < |rows|
      ensures States(exp, previous, State(None, k), rows)[i].mean == None
      ensures States(exp, previous, State(None, l), rows)[i].mean == None
    {
      MeanIsLostExactly(exp, previous, State(None, k), rows, i);
      MeanIsLostExactly(exp, previous, State(None, l), rows, i);
    }
  }

  /** The one-row continuation that tells a disturbed k from K_START. */
  lemma DisturbedMomentumShows(exp: real -> real, front: seq<Row>, last: Option<LastValidation>)
    requires IsExp(exp) && AllInRange(front) && front != []
    requires last.Some? && last.value.mean.Some? ==> 0.0 <= last.value.mean.value <= 1.0
    requires FinalState(exp, front, last).k != K_START && FinalState(exp, front, last).mean.Some?
    ensures AllInRange([PROBE]) && AllInRange(front + [PROBE]) && !ResumesExactly(exp, front, [PROBE], last)
  {
    var f, back := FinalState(exp, front, last), [PROBE];
    FinalStateBounded(exp, front, last);
    ConcatInRange(front, back);
    RunContinues(exp, front, back, last);
    ProbeSeparatesK(exp, front[|front| - 1], f.mean.value, f.k);
    var x := RunningMeans(exp, front + back, last);
    var y := RunningMeans(exp, front, last) + RunningMeans(exp, back, LastOf(exp, front, last));
    assert x[|front|] == StepMean(exp, front[|front| - 1], PROBE, f.mean, f.k);
    assert y[|front|] == StepMean(exp, front[|front| - 1], PROBE, f.mean, K_START);
  }

  /** Resuming from the last row of a prefix is exact for every continuation if and only if at the cut
      k was back at K_START, which is all the later call forgets, or the mean was already lost. */
  lemma {:induction false} ResumingIsExactIffMomentumIsAtRest(exp: real -> real, front: seq<Row>,
                                                              last: Option<LastValidation>)
    requires IsExp(exp) && AllInRange(front) && front != []
    requires last.Some? && last.value.mean.Some? ==> 0.0 <= last.value.mean.value <= 1.0
    ensures FinalState(exp, front, last).k == K_START || FinalState(exp, front, last).mean.None?
            <==> forall back :: AllInRange(back) ==> AllInRange(front + back) && ResumesExactly(exp, front, back, last)
  {
    var f := FinalState(exp, front, last);
    if f.k == K_START || f.mean.None? {
      forall back | AllInRange(back)
        ensures AllInRange(front + back) && ResumesExactly(exp, front, back, last)
      {
        ConcatInRange(front, back);
        RunContinues(exp, front, back, last);
        if f.mean.None? {
          LostMeansForgetMomentum(exp, front[|front| - 1], f.k, K_START, back);
        }
      }
    } else {
      DisturbedMomentumShows(exp, front, last);
    }
  }

  lemma FinalStateBounded(exp: real -> real, rows: seq<Row>, last: Option<LastValidation>)
    requires IsExp(exp) && AllInRange(rows) && rows != []
    requires last.Some? && last.value.mean.Some? ==> 0.0 <= last.value.mean.value <= 1.0
    ensures Bounded(FinalState(exp, rows, last))
  {
    match last {
      case Some(v) => RunStaysBounded(exp, v.row, State(v.mean, K_START), rows);
      case None => RunStaysBounded(exp, rows[0], State(Some(INITIAL_RUNNING_MEAN), K_START), rows[1..]);
    }
  }

  /** A zero reading that momentum handles puts k back at K_START, so a cut after it is exact. */
  lemma ZeroReadingMakesCutExact(exp: real -> real, front: seq<Row>, zero: Row, back: seq<Row>,
                                 last: Option<LastValidation>)
    requires AllInRange(front) && InRange(zero.fcd) && AllInRange(back)
    requires zero.fcd == Some(0.0) && MomentumApplies(zero.fcd, zero.fcdMeanMedian)
    ensures AllInRange(front + [zero]) && AllInRange(front + [zero] + back)
    ensures ResumesExactly(exp, front + [zero], back, last)
  {
    var cut := front + [zero];
    ConcatInRange(cut, back);
    RunContinues(exp, cut, back, last);
    if last.Some? {
      var s := State(last.value.mean, K_START);
      if front == [] {
        assert cut == [zero] && cut[1..] == [];
      } else {
        StatesSplit(exp, last.value.row, s, front, [zero]);
      }
    } else if front != [] {
      var s := State(Some(INITIAL_RUNNING_MEAN), K_START);
      assert cut[1..] == front[1..] + [zero] && cut[0] == front[0];
      if |front| > 1 {
        StatesSplit(exp, front[0], s, front[1..], [zero]);
      } else {
        assert cut[1..] == [zero] && [zero][1..] == [];
      }
    }
    assert FinalState(exp, cut, last).k == K_START;
  }
}
