/**
 How long a segment must stay without vehicles to be reported closed, how long with vehicles to be
 reported open, and the situations in which it is never reported closed.
 */
module ClosureTimes {
  import opened Wrappers
  import opened IdeaConstants
  import opened CoverageCounters
  import opened RoadStatus
  import opened RunningMeanProperties
  import opened Validation

  // ---------------------------------------------------------------- counters of uniform series

  lemma {:induction false} RunsOfZeros(series: seq<Fcd>, n: nat)
    requires n <= |series| && forall i :: 0 <= i < n ==> series[i] == Some(0.0)
    ensures ZeroRun(series, n) == n && LowRun(series, n) == n
  {
    if n > 0 {
      RunsOfZeros(series, n - 1);
      RunsSnoc(series, n - 1);
    }
  }

  lemma RunEndsAtBusyReading(series: seq<Fcd>, n: nat)
    requires 0 < n <= |series| && Busy(series[n - 1])
    ensures ZeroRun(series, n) == 0 && LowRun(series, n) == 0
  {
    RunsSnoc(series, n - 1);
  }

  // ---------------------------------------------------------------- closing

  /** Both thresholds of the row clamp to at most P; a missing one counts as MISSING_PROFILE_VALUE. */
  predicate ThresholdsAtMost(row: Row, P: real) {
    HandleProfileValue(row.zerosQ95) <= P && HandleProfileValue(row.lowQ95) <= P
  }

  /** The threshold that judges the row is usable and at most P, and momentum lasts at most 2P readings. */
  predicate Closable(previous: Row, row: Row, P: real) {
    && Threshold(row, previous) <= MAX_PROFILE_VALUE
    && Threshold(row, previous) <= P && DecayWindow(previous.lowQ95) <= 2.0 * P
  }

  lemma BothThresholdsSuffice(previous: Row, row: Row, P: real)
    requires P <= MAX_PROFILE_VALUE && ThresholdsAtMost(previous, P)
    ensures Closable(previous, row, P)
  {
  }

  predicate ZeroRow(row: Row, c: nat) {
    row.fcd == Some(0.0) && row.consecutiveZeros == Some(c) && row.consecutiveLow == Some(c)
  }

  /** Weight that c zero readings have accumulated beyond the first 2P of them. */
  function Gain(c: nat, P: real): real
    requires P > 0.0
  {
    (c as real) * (StreakRatio(c, P) - 1.0)
  }

  function GainSoFar(c: nat, P: real): real
    requires P > 0.0
  {
    if (c as real) < 2.0 * P then 0.0 else Gain(c, P)
  }

  /** The distance of the mean from 1 has shrunk in inverse proportion to the accumulated weight. */
  ghost predicate Closing(mean: Option<real>, c: nat, P: real)
    requires P > 0.0
  {
    mean.Some? && 0.0 <= mean.value <= 1.0 && (1.0 - mean.value) * (P + GainSoFar(c, P)) <= P
  }

  lemma RatioIsQuotient(c: nat, p: real)
    requires p > 0.0
    ensures StreakRatio(c, p) * (2.0 * p) == c as real
  {
  }

  lemma RatioAtLeast(c: nat, p: real, bound: real)
    requires p > 0.0 && c as real >= bound * (2.0 * p)
    ensures StreakRatio(c, p) >= bound
  {
    RatioIsQuotient(c, p);
    if StreakRatio(c, p) < bound {
      ScaledStrictly(2.0 * p, StreakRatio(c, p), bound);
    }
  }

  lemma RatioAtMost(c: nat, p: real, bound: real)
    requires p > 0.0 && c as real <= bound * (2.0 * p)
    ensures StreakRatio(c, p) <= bound
  {
    RatioIsQuotient(c, p);
    if StreakRatio(c, p) > bound {
      ScaledStrictly(2.0 * p, bound, StreakRatio(c, p));
    }
  }

  lemma RatioAntitone(c: nat, p: real, q: real)
    requires 0.0 < p <= q
    ensures StreakRatio(c, p) >= StreakRatio(c, q) >= 0.0
  {
    RatioIsQuotient(c, p);
    RatioIsQuotient(c, q);
    StreakRatioNonNegative(c, q);
    var s, t := StreakRatio(c, p), StreakRatio(c, q);
    if s < t {
      ScaledStrictly(2.0 * p, s, t);
      ScaledBetween(t, 2.0 * p, 2.0 * p, 2.0 * q);
    }
  }

  lemma SquareMonotone(x: real, y: real)
    requires 0.0 <= x <= y
    ensures x * x <= y * y
  {
    ScaledBetween(x, y, x, y);
    ScaledBetween(y, x, x, y);
  }

  lemma AtMostScaled(w: real, x: real)
    requires w >= 0.0 && x <= 1.0
    ensures w * x <= w
  {
    ScaledBetween(w, x, x, 1.0);
  }

  lemma FirstGain(x: real, t: real, P: real)
    requires P > 0.0 && t >= 1.0 && t * (2.0 * P) == x && x - 1.0 < 2.0 * P <= x
    ensures x * (t - 1.0) <= t * t
  {
    var a := t * (x - 2.0 * P);
    assert x * (t - 1.0) == a;
    assert a <= t by { AtMostScaled(t, x - 2.0 * P); }
    assert t <= t * t by { ScaledBetween(t, t, 1.0, t); }
  }

  lemma LaterGain(x: real, t: real, u: real, P: real)
    requires P > 0.0 && t >= 1.0 && t * (2.0 * P) == x && u * (2.0 * P) == x - 1.0
    ensures x * (t - 1.0) <= (x - 1.0) * (u - 1.0) + t * t
  {
    var h := t - u;
    assert h * (2.0 * P) == 1.0;
    assert h >= 0.0 by { if h < 0.0 { ScaledStrictly(2.0 * P, h, 0.0); } }
    assert h * x == t by {
      assert h * x == (h * (2.0 * P)) * t;
    }
    assert (x - 1.0) * (u - 1.0) == x * (t - 1.0) - (t - 1.0) - h * x + h;
    ProductNonNegative(t - 1.0, t - 1.0);
    assert (t - 1.0) * (t - 1.0) == t * t - 2.0 * t + 1.0;
  }

  /** One more zero reading adds at most its own weight to the gain. */
  lemma GainStep(c: nat, P: real)
    requires P > 0.0 && c > 0 && c as real >= 2.0 * P
    ensures GainSoFar(c, P) <= GainSoFar(c - 1, P) + StreakRatio(c, P) * StreakRatio(c, P)
    ensures GainSoFar(c - 1, P) >= 0.0
  {
    var t, x := StreakRatio(c, P), c as real;
    RatioIsQuotient(c, P);
    RatioAtLeast(c, P, 1.0);
    hide StreakRatio;
    if x - 1.0 < 2.0 * P {
      FirstGain(x, t, P);
    } else {
      var u := StreakRatio(c - 1, P);
      RatioIsQuotient(c - 1, P);
      RatioAtLeast(c - 1, P, 1.0);
      LaterGain(x, t, u, P);
      ProductNonNegative(x - 1.0, u - 1.0);
    }
  }

  lemma CancelScale(w: real, x: real, y: real)
    requires w > 0.0 && w * x <= w * y
    ensures x <= y
  {
    if x > y { ScaledStrictly(w, y, x); }
  }

  lemma ScaledDistanceBound(p: real, P: real, d: real, d': real, w: real, w0: real)
    requires 0.0 < p <= P && d >= 0.0 && w >= w0 >= 0.0
    requires d' * (p + w) == p * d
    ensures d' * (P + w0) <= P * d
  {
    assert d' >= 0.0 by {
      ProductNonNegative(p, d);
      if d' < 0.0 { ScaledStrictly(p + w, d', 0.0); }
    }
    ProductNonNegative(d', w);
    assert p * d' + d' * w == p * d;
    CancelScale(p, d', d);
    ScaledBetween(d', w0, 0.0, w);
    ScaledBetween(P - p, d', 0.0, d);
    assert (P - p) * d' == d' * P - p * d' && (P - p) * d == P * d - p * d;
    assert d' * (P + w0) == d' * P + d' * w0;
  }

  /** Mixing 1 in with weight w >= w0 at threshold p <= P shrinks the distance from 1. */
  lemma DistanceShrinks(p: real, P: real, m: real, w: real, w0: real)
    requires 0.0 < p <= P && 0.0 <= m <= 1.0 && w >= w0 >= 0.0
    ensures (1.0 - CalculateRunningMean(p, m, w, 1.0)) * (P + w0) <= P * (1.0 - m)
  {
    var m' := CalculateRunningMean(p, m, w, 1.0);
    assert m' * (p + w) == p * m + w;
    ScaledDistanceBound(p, P, 1.0 - m, 1.0 - m', w, w0);
  }

  lemma ShrinkingKeepsClosing(d: real, d': real, P: real, g: real, g': real, w0: real)
    requires P > 0.0 && 0.0 <= d && 0.0 <= d' && g >= 0.0 && w0 >= 0.0
    requires d * (P + g) <= P && d' * (P + w0) <= P * d && g' <= g + w0
    ensures d' * (P + g') <= P
  {
    var q := d' * (P + g + w0);
    ScaledBetween(d', P + g', P + g', P + g + w0);
    ProductNonNegative(g, w0);
    assert (P + w0) * (P + g) == P * (P + g + w0) + g * w0;
    var a := d' * (P + w0);
    ScaledBetween(P + g, a, a, P * d);
    assert (P + g) * a == d' * ((P + w0) * (P + g));
    ScaledBetween(d', P * (P + g + w0), P * (P + g + w0), (P + w0) * (P + g));
    assert d' * (P * (P + g + w0)) == P * q;
    assert (P + g) * (P * d) == P * (d * (P + g));
    ScaledBetween(P, d * (P + g), d * (P + g), P);
    assert P * q <= P * P;
    if q > P { ScaledStrictly(P, P, q); }
  }

  /** Past half the low threshold (two and a half readings, where it is missing or below 5) momentum is the
      identity. */
  lemma NoMomentumInLongZeroRuns(exp: real -> real, previous: Row, row: Row, k: real, c: nat)
    requires IsExp(exp) && ZeroRow(row, c) && c as real >= 2.5
    requires previous.lowQ95.Some? ==> 2.0 * c as real >= previous.lowQ95.value
    ensures Alpha(exp, previous, row, k) == 1.0
  {
    var window := DecayWindow(previous.lowQ95);
    var x := (window - c as real) / window;
    assert x * window == window - c as real;
    if x > 0.0 { ScaledStrictly(window, 0.0, x); }
    assert Echo(row.consecutiveLow, window) == 0.0;
    assert -MomentumK(previous, row, k) * 0.0 == 0.0;
  }

  lemma LongZeroRunMixesOneIn(previous: Row, row: Row, m: real, c: nat, P: real)
    requires Closable(previous, row, P)
    requires c > 0 && ZeroRow(row, c) && 0.0 <= m <= 1.0 && c as real >= 2.0 * P
    ensures var pv := Threshold(row, previous);
            pv <= P && BaseMean(previous, row, m) == Some(CalculateRunningMean(pv, m, StreakWeight(c, pv), 1.0))
  {
    RatioAtLeast(c, Threshold(row, previous), 1.0);
    hide CalculateRunningMean, StreakRatio, StreakWeight;
  }

  lemma MixingOneInKeepsClosing(pv: real, m: real, c: nat, P: real)
    requires MINIMUM_PROFILE_VALUE <= pv <= P && c > 0 && c as real >= 2.0 * P && Closing(Some(m), c - 1, P)
    ensures Closing(Some(CalculateRunningMean(pv, m, StreakWeight(c, pv), 1.0)), c, P)
  {
    hide StreakRatio, Gain, GainSoFar, CalculateRunningMean;
    var w, r := StreakWeight(c, pv), StreakRatio(c, P);
    assert w >= r * r by {
      RatioAntitone(c, pv, P);
      SquareMonotone(r, StreakRatio(c, pv));
    }
    hide StreakWeight;
    var w0 := r * r;
    assert w0 >= 0.0 by { StreakRatioNonNegative(c, P); ProductNonNegative(r, r); }
    var m' := CalculateRunningMean(pv, m, w, 1.0);
    WeightedMeanBetween(pv, m, w, 1.0, 0.0, 1.0);
    DistanceShrinks(pv, P, m, w, w0);
    GainStep(c, P);
    ShrinkingKeepsClosing(1.0 - m, 1.0 - m', P, GainSoFar(c - 1, P), GainSoFar(c, P), w0);
  }

  lemma ClosingStart(mean: real, c: nat, P: real)
    requires P > 0.0 && 0.0 <= mean <= 1.0 && c as real < 2.0 * P
    ensures Closing(Some(mean), c, P)
  {
    ProductNonNegative(mean, P);
  }

  lemma ClosingStep(exp: real -> real, previous: Row, row: Row, s: State, c: nat, P: real)
    requires IsExp(exp) && Bounded(s) && P >= MINIMUM_PROFILE_VALUE && Closable(previous, row, P)
    requires c > 0 && ZeroRow(row, c) && Closing(s.mean, c - 1, P)
    ensures Closing(Step(exp, previous, row, s).mean, c, P)
  {
    assert row.fcd.Some? && s.mean.Some? && 0.0 <= s.mean.value <= 1.0;
    hide CalculateRunningMean, StreakRatio, Alpha, BaseMean, Threshold, Closing, ZeroRow;
    if c as real >= 2.0 * P {
      var m := s.mean.value;
      assert previous.lowQ95.Some? ==> 2.0 * c as real >= previous.lowQ95.value;
      hide Closable;
      NoMomentumInLongZeroRuns(exp, previous, row, s.k, c);
      LongZeroRunMixesOneIn(previous, row, m, c, P);
      MixingOneInKeepsClosing(Threshold(row, previous), m, c, P);
      assert Step(exp, previous, row, s).mean == Some(BaseMean(previous, row, m).value * 1.0);
    } else {
      StepBounded(exp, previous, row, s);
      StepLosesMean(exp, previous, row, s);
      ClosingStart(Step(exp, previous, row, s).mean.value, c, P);
    }
  }

  lemma {:induction false} ClosingRun(exp: real -> real, previous: Row, s: State, rows: seq<Row>, c: nat, P: real)
    requires IsExp(exp) && AllInRange(rows) && Bounded(s) && P >= MINIMUM_PROFILE_VALUE
    requires forall i :: 0 <= i < |rows| ==> Closable(PreviousOf(previous, rows, i), rows[i], P)
    requires forall i :: 0 <= i < |rows| ==> ZeroRow(rows[i], c + 1 + i)
    requires Closing(s.mean, c, P)
    ensures forall i :: 0 <= i < |rows| ==> Closing(States(exp, previous, s, rows)[i].mean, c + 1 + i, P)
    decreases |rows|
  {
    hide Closable, ZeroRow, Step, Closing;
    if rows != [] {
      assert Closable(PreviousOf(previous, rows, 0), rows[0], P);
      ClosingStep(exp, previous, rows[0], s, c + 1, P);
      StepBounded(exp, previous, rows[0], s);
      var tail := rows[1..];
      forall i | 0 <= i < |tail|
        ensures Closable(PreviousOf(rows[0], tail, i), tail[i], P)
      {
        assert PreviousOf(rows[0], tail, i) == PreviousOf(previous, rows, i + 1);
        assert Closable(PreviousOf(previous, rows, i + 1), rows[i + 1], P);
      }
      ClosingRun(exp, rows[0], Step(exp, previous, rows[0], s), tail, c + 1, P);
    }
  }

  lemma ClosingCall(exp: real -> real, rows: seq<Row>, last: Option<LastValidation>, P: real, i: nat)
    requires IsExp(exp) && AllInRange(rows) && i < |rows| && P >= MINIMUM_PROFILE_VALUE
    requires forall j :: 0 <= j < |rows| ==> ZeroRow(rows[j], j + 1)
    requires forall j :: 0 < j < |rows| ==> Closable(PreviousOf(rows[0], rows, j), rows[j], P)
    requires last.Some? ==>
      last.value.mean.Some? && 0.0 <= last.value.mean.value <= 1.0 && Closable(last.value.row, rows[0], P)
    ensures Closing(RunningMeans(exp, rows, last)[i], i + 1, P)
  {
    hide Step, States, Closable, Closing, ZeroRow;
    match last {
      case Some(v) =>
        ClosingStart(v.mean.value, 0, P);
        forall j | 0 <= j < |rows|
          ensures Closable(PreviousOf(v.row, rows, j), rows[j], P)
        {
          if j > 0 { assert PreviousOf(v.row, rows, j) == PreviousOf(rows[0], rows, j); }
        }
        ClosingRun(exp, v.row, State(v.mean, K_START), rows, 0, P);
      case None =>
        ClosingStart(INITIAL_RUNNING_MEAN, 1, P);
        var tail := rows[1..];
        forall j | 0 <= j < |tail|
          ensures Closable(PreviousOf(rows[0], tail, j), tail[j], P)
        {
          assert PreviousOf(rows[0], tail, j) == PreviousOf(rows[0], rows, j + 1);
        }
        ClosingRun(exp, rows[0], State(Some(INITIAL_RUNNING_MEAN), K_START), tail, 1, P);
    }
  }

  lemma ClosingBecomesClosed(mean: Option<real>, c: nat, P: real)
    requires P >= MINIMUM_PROFILE_VALUE && c as real >= 3.65 * P && Closing(mean, c, P)
    ensures ClosureStatus(mean) == Closed
  {
    var t, d := StreakRatio(c, P), 1.0 - mean.value;
    RatioAtLeast(c, P, 1.825);
    ScaledBetween(c as real, t - 1.0, 0.825, t - 1.0);
    assert (c as real) * 0.825 >= 3.011 * P;
    assert Gain(c, P) == (c as real) * (t - 1.0);
    assert GainSoFar(c, P) >= 3.011 * P;
    if d >= 0.25 {
      ScaledBetween(P + GainSoFar(c, P), d, 0.25, d);
      assert false;
    }
  }

  /** The profile thresholds of every reading's hour clamp to at most P. */
  ghost predicate ProfileAtMost(readings: seq<Reading>, profile: Profile, P: real) {
    forall i :: 0 <= i < |readings| ==>
      var p := ProfileAt(profile, readings[i].hourOfWeek);
      HandleProfileValue(p.zerosQ95) <= P && HandleProfileValue(p.lowQ95) <= P
  }

  lemma MatchedZeroRows(readings: seq<Reading>, profile: Profile, P: real, i: nat)
    requires ReadingsInRange(readings) && ProfileAtMost(readings, profile, P)
    requires forall j :: 0 <= j < |readings| ==> readings[j].fcd == Some(0.0)
    requires i < |readings|
    ensures ZeroRow(MatchedRows(readings, profile)[i], i + 1)
    ensures ThresholdsAtMost(MatchedRows(readings, profile)[i], P)
  {
    hide ZeroRun, LowRun;
    RunsOfZeros(Series(readings), i + 1);
  }

  lemma MatchedBusyRows(readings: seq<Reading>, profile: Profile, P: real, i: nat)
    requires ReadingsInRange(readings) && ProfileAtMost(readings, profile, P)
    requires i < |readings| && Busy(readings[i].fcd)
    ensures BusyRow(MatchedRows(readings, profile)[i])
    ensures ThresholdsAtMost(MatchedRows(readings, profile)[i], P)
  {
    hide ZeroRun, LowRun;
    RunEndsAtBusyReading(Series(readings), i + 1);
  }

  /** Guaranteed closure. Within one call in which every reading is zero and every profile threshold
      clamps to at most P, with 5 <= P <= 54, the status is "closed" at every reading whose number is at
      least 3.65 P, whatever mean in [0,1] the call starts from. */
  lemma ZeroReadingsClose(exp: real -> real, readings: seq<Reading>, profile: Profile, last: Option<LastValidation>,
                          P: real, n: nat)
    requires IsExp(exp) && MINIMUM_PROFILE_VALUE <= P <= MAX_PROFILE_VALUE
    requires forall i :: 0 <= i < |readings| ==> readings[i].fcd == Some(0.0)
    requires ProfileAtMost(readings, profile, P)
    requires last.Some? ==>
      last.value.mean.Some? && 0.0 <= last.value.mean.value <= 1.0 && ThresholdsAtMost(last.value.row, P)
    requires 3.65 * P <= n as real && n <= |readings|
    ensures ReadingsInRange(readings) && ClosureStatus(CallMeans(exp, readings, profile, last)[n - 1]) == Closed
  {
    hide MatchedRows, ProfileAtMost, RunningMeans, Closing;
    var rows := MatchedRows(readings, profile);
    forall i | 0 <= i < |rows|
      ensures ZeroRow(rows[i], i + 1) && ThresholdsAtMost(rows[i], P)
    {
      MatchedZeroRows(readings, profile, P, i);
    }
    if last.Some? { BothThresholdsSuffice(last.value.row, rows[0], P); }
    forall i | 0 < i < |rows|
      ensures Closable(PreviousOf(rows[0], rows, i), rows[i], P)
    {
      BothThresholdsSuffice(rows[i - 1], rows[i], P);
    }
    ClosingCall(exp, rows, last, P, n - 1);
    ClosingBecomesClosed(CallMeans(exp, readings, profile, last)[n - 1], n, P);
  }

  // ---------------------------------------------------------------- reopening

  function Pow(x: real, n: nat): real {
    if n == 0 then 1.0 else x * Pow(x, n - 1)
  }

  const REOPENING_RATE := 10.0 / 11.0

  predicate BusyRow(row: Row) {
    Busy(row.fcd) && row.consecutiveZeros == Some(0) && row.consecutiveLow == Some(0)
  }

  lemma MixingZeroIn(p: real, m: real, w: real)
    requires 0.0 < p <= 60.0 && m >= 0.0 && w > COV_HIGH
    ensures 0.0 <= CalculateRunningMean(p, m, w, 0.0) <= REOPENING_RATE * m
  {
    var d, pm := p + w, p * m;
    ProductNonNegative(p, m);
    ProductNonNegative(10.0 * w - p, m);
    assert d * (REOPENING_RATE * m) - pm == ((10.0 * w - p) * m) / 11.0;
    QuotientBetween(pm, d, 0.0, REOPENING_RATE * m);
  }

  /** A busy row after a row without a streak shrinks the mean to at most 10/11 of itself. */
  lemma ReopeningStep(exp: real -> real, previous: Row, row: Row, s: State)
    requires InRange(row.fcd) && BusyRow(row) && s.mean.Some? && 0.0 <= s.mean.value
    requires previous.consecutiveZeros == Some(0) && previous.consecutiveLow == Some(0)
    requires ThresholdsAtMost(previous, 60.0)
    ensures var next := Step(exp, previous, row, s).mean;
            next.Some? && 0.0 <= next.value <= REOPENING_RATE * s.mean.value
  {
    var m, pv, cov := s.mean.value, Threshold(row, previous), row.fcd.value;
    assert StreakRatio(0, pv) == 0.0;
    hide StreakRatio, CalculateRunningMean;
    MixingZeroIn(pv, m, cov);
    assert BaseMean(previous, row, m) == Some(CalculateRunningMean(pv, m, cov, 0.0));
    assert Alpha(exp, previous, row, s.k) == 1.0;
  }

  lemma {:induction false} ReopeningRun(exp: real -> real, previous: Row, s: State, rows: seq<Row>, n: nat)
    requires AllInRange(rows) && s.mean.Some? && 0.0 <= s.mean.value <= Pow(REOPENING_RATE, n)
    requires forall i :: 0 <= i < |rows| ==> BusyRow(rows[i]) && ThresholdsAtMost(rows[i], 60.0)
    requires previous.consecutiveZeros == Some(0) && previous.consecutiveLow == Some(0)
    requires ThresholdsAtMost(previous, 60.0)
    ensures forall i :: 0 <= i < |rows| ==>
              var mean := States(exp, previous, s, rows)[i].mean;
              mean.Some? && 0.0 <= mean.value <= Pow(REOPENING_RATE, n + 1 + i)
    decreases |rows|
  {
    hide Step;
    if rows != [] {
      ReopeningStep(exp, previous, rows[0], s);
      ScaledBetween(REOPENING_RATE, s.mean.value, 0.0, Pow(REOPENING_RATE, n));
      ReopeningRun(exp, rows[0], Step(exp, previous, rows[0], s), rows[1..], n + 1);
    }
  }

  lemma PowStep(x: real, n: nat)
    requires n > 0
    ensures Pow(x, n) == Product(x, Pow(x, n - 1))
  {
  }

  lemma ProductsRegroup(x: real, a: real, b: real)
    ensures Product(x, Product(a, b)) == Product(Product(x, a), b)
  {
    assert x * (a * b) == (x * a) * b;
  }

  lemma {:induction false} PowAddsUp(x: real, m: nat, n: nat)
    ensures Pow(x, m + n) == Product(Pow(x, m), Pow(x, n))
  {
    if m == 0 {
      assert Pow(x, 0) == 1.0;
    } else {
      hide *;
      PowStep(x, m + n);
      PowStep(x, m);
      PowAddsUp(x, m - 1, n);
      ProductsRegroup(x, Pow(x, m - 1), Pow(x, n));
    }
  }

  lemma PowAdd(x: real, m: nat, n: nat)
    ensures Pow(x, m + n) == Pow(x, m) * Pow(x, n)
  {
    PowAddsUp(x, m, n);
    hide Pow;
  }

  lemma {:induction false} PowInUnitInterval(x: real, n: nat)
    requires 0.0 <= x <= 1.0
    ensures 0.0 <= Pow(x, n) <= 1.0
  {
    if n == 0 {
      assert Pow(x, 0) == 1.0;
    } else {
      hide *;
      PowStep(x, n);
      PowInUnitInterval(x, n - 1);
      ProductsBetween(x, Pow(x, n - 1), 0.0, 1.0);
      ProductByZeroOrOne(x);
    }
  }

  lemma TwentyStepsReopen(n: nat)
    requires n >= 20
    ensures Pow(REOPENING_RATE, n) < OPEN_LIMIT
  {
    var x := REOPENING_RATE;
    assert Pow(x, 2) == x * (x * 1.0) by { assert Pow(x, 1) == x * Pow(x, 0); }
    PowAdd(x, 2, 2);
    PowAdd(x, 4, 4);
    PowAdd(x, 8, 8);
    PowAdd(x, 16, 4);
    PowAdd(x, 20, n - 20);
    PowInUnitInterval(x, n - 20);
    ScaledBetween(Pow(x, 20), Pow(x, n - 20), 0.0, 1.0);
  }

  /** Guaranteed reopening. Within one call in which every reading exceeds COV_HIGH and every profile
      threshold clamps to at most 60 (a missing one does), the status is "open" from the 21st reading
      on, whatever mean in [0,1] and whatever streak the call starts from. */
  lemma BusyReadingsReopen(exp: real -> real, readings: seq<Reading>, profile: Profile, last: Option<LastValidation>,
                           i: nat)
    requires IsExp(exp) && ReadingsInRange(readings)
    requires forall j :: 0 <= j < |readings| ==> Busy(readings[j].fcd)
    requires ProfileAtMost(readings, profile, 60.0)
    requires last.Some? ==> last.value.mean.Some? && 0.0 <= last.value.mean.value <= 1.0
    requires 20 <= i < |readings|
    ensures ClosureStatus(CallMeans(exp, readings, profile, last)[i]) == Open
  {
    hide MatchedRows, ProfileAtMost, Step;
    var rows := MatchedRows(readings, profile);
    forall j | 0 <= j < |rows|
      ensures BusyRow(rows[j]) && ThresholdsAtMost(rows[j], 60.0)
    {
      MatchedBusyRows(readings, profile, 60.0, j);
    }
    TwentyStepsReopen(i);
    match last {
      case Some(v) =>
        var s := State(v.mean, K_START);
        FirstStepKeepsMean(exp, v.row, rows[0], s);
        var next := Step(exp, v.row, rows[0], s);
        assert States(exp, v.row, s, rows)[i] == States(exp, rows[0], next, rows[1..])[i - 1];
        ReopeningRun(exp, rows[0], next, rows[1..], 0);
      case None =>
        var s := State(Some(INITIAL_RUNNING_MEAN), K_START);
        ReopeningRun(exp, rows[0], s, rows[1..], 0);
    }
  }

  lemma FirstStepKeepsMean(exp: real -> real, previous: Row, row: Row, s: State)
    requires IsExp(exp) && InRange(row.fcd) && row.fcd.Some? && Bounded(s) && s.mean.Some?
    ensures Step(exp, previous, row, s).mean.Some? && 0.0 <= Step(exp, previous, row, s).mean.value <= 1.0
  {
    StepBounded(exp, previous, row, s);
    StepLosesMean(exp, previous, row, s);
  }

  // ---------------------------------------------------------------- never closing

  /** A row that cannot lift the mean above the ceiling: no sudden drop without a streak, and a streak that
      is either short for its threshold or frozen out by an unusable threshold. */
  predicate CannotLift(previous: Row, row: Row, ceiling: real) {
    && (CurrentStreak(row, previous) == 0 ==> !SuddenDrop(row.fcdMeanMedian, row.fcd))
    && var pv := Threshold(row, previous);
       var streak := CurrentStreak(row, previous);
       (pv > MAX_PROFILE_VALUE && streak as real > pv) || StreakRatio(streak, pv) <= ceiling
  }

  lemma CeilingStep(exp: real -> real, previous: Row, row: Row, s: State, ceiling: real)
    requires IsExp(exp) && InRange(row.fcd) && s.k >= K_START && 0.5 <= ceiling <= 1.0
    requires s.mean.Some? ==> 0.0 <= s.mean.value <= ceiling
    requires CannotLift(previous, row, ceiling)
    ensures var next := Step(exp, previous, row, s);
            next.k >= K_START && (next.mean.Some? ==> 0.0 <= next.mean.value <= ceiling)
  {
    hide CalculateRunningMean, StreakRatio, StreakWeight, Alpha, MomentumK;
    AlphaInUnitInterval(exp, previous, row, s.k);
    if s.mean.Some? {
      var m, pv := s.mean.value, Threshold(row, previous);
      var c, prev := CurrentStreak(row, previous), PreviousStreak(row, previous);
      StreakRatioNonNegative(c, pv);
      StreakRatioNonNegative(prev, pv);
      if !(pv > MAX_PROFILE_VALUE && c as real > pv) {
        WeightedMeanBetween(pv, m, StreakWeight(c, pv), Max(m, Min(1.0, StreakRatio(c, pv))), 0.0, ceiling);
      }
      if row.fcd.Some? {
        if prev as real < pv {
          WeightedMeanBetween(pv, m, row.fcd.value, StreakRatio(prev, pv), 0.0, ceiling);
        }
        WeightedMeanBetween(MINIMUM_PROFILE_VALUE, m, row.fcd.value, 0.0, 0.0, ceiling);
      }
      var base := BaseMean(previous, row, m);
      if base.Some? {
        ScaledDistance(Alpha(exp, previous, row, s.k), 0.0, base.value, ceiling);
      }
    }
  }

  lemma {:induction false} CeilingRun(exp: real -> real, previous: Row, s: State, rows: seq<Row>, ceiling: real)
    requires IsExp(exp) && AllInRange(rows) && s.k >= K_START && 0.5 <= ceiling <= 1.0
    requires s.mean.Some? ==> 0.0 <= s.mean.value <= ceiling
    requires forall i :: 0 <= i < |rows| ==> CannotLift(PreviousOf(previous, rows, i), rows[i], ceiling)
    ensures forall i :: 0 <= i < |rows| && States(exp, previous, s, rows)[i].mean.Some? ==>
                          0.0 <= States(exp, previous, s, rows)[i].mean.value <= ceiling
    decreases |rows|
  {
    hide Step, CannotLift;
    if rows != [] {
      assert CannotLift(PreviousOf(previous, rows, 0), rows[0], ceiling);
      CeilingStep(exp, previous, rows[0], s, ceiling);
      var tail := rows[1..];
      forall i | 0 <= i < |tail|
        ensures CannotLift(PreviousOf(rows[0], tail, i), tail[i], ceiling)
      {
        assert PreviousOf(rows[0], tail, i) == PreviousOf(previous, rows, i + 1);
        assert CannotLift(PreviousOf(previous, rows, i + 1), rows[i + 1], ceiling);
      }
      CeilingRun(exp, rows[0], Step(exp, previous, rows[0], s), tail, ceiling);
    }
  }

  lemma CeilingCall(exp: real -> real, rows: seq<Row>, last: Option<LastValidation>, ceiling: real)
    requires IsExp(exp) && AllInRange(rows) && 0.5 <= ceiling <= 1.0
    requires last.Some? && last.value.mean.Some? ==> 0.0 <= last.value.mean.value <= ceiling
    requires last.Some? && rows != [] ==> CannotLift(last.value.row, rows[0], ceiling)
    requires forall i :: 0 < i < |rows| ==> CannotLift(PreviousOf(rows[0], rows, i), rows[i], ceiling)
    ensures forall i :: 0 <= i < |rows| && RunningMeans(exp, rows, last)[i].Some? ==>
                          0.0 <= RunningMeans(exp, rows, last)[i].value <= ceiling
  {
    hide Step, CannotLift;
    match last {
      case Some(v) =>
        forall i | 0 <= i < |rows|
          ensures CannotLift(PreviousOf(v.row, rows, i), rows[i], ceiling)
        {
          if i > 0 { assert PreviousOf(v.row, rows, i) == PreviousOf(rows[0], rows, i); }
        }
        CeilingRun(exp, v.row, State(v.mean, K_START), rows, ceiling);
      case None =>
        if rows != [] {
          var tail := rows[1..];
          forall i | 0 <= i < |tail|
            ensures CannotLift(PreviousOf(rows[0], tail, i), tail[i], ceiling)
          {
            assert PreviousOf(rows[0], tail, i) == PreviousOf(rows[0], rows, i + 1);
          }
          CeilingRun(exp, rows[0], State(Some(INITIAL_RUNNING_MEAN), K_START), tail, ceiling);
        }
    }
  }

  /** A reading more than COV_DROP_LIMIT below the median is one of those that the low streak counts. */
  predicate DropsOnlyToLow(median: Option<real>, fcd: Fcd) {
    SuddenDrop(median, fcd) ==> IsLow(fcd)
  }

  predicate QuietMedian(median: Option<real>) {
    median.Some? ==> median.value <= COV_DROP_LIMIT
  }

  predicate WholeNumber(fcd: Fcd) {
    fcd.Some? ==> fcd.value.Floor as real == fcd.value
  }

  lemma QuietMediansDoNotDrop(median: Option<real>, fcd: Fcd)
    requires InRange(fcd)
    ensures QuietMedian(median) ==> DropsOnlyToLow(median, fcd)
  {
  }

  /** Whole readings, which is what the conversion of confidences yields, drop only to 0 or 1, because no
      median of readings exceeds 10. */
  lemma WholeReadingsDropOnlyToLow(median: Option<real>, fcd: Fcd)
    requires InRange(fcd) && (median.Some? ==> median.value <= 10.0)
    ensures WholeNumber(fcd) ==> DropsOnlyToLow(median, fcd)
  {
  }

  /** The sudden drop is judged by the low streak, so a reading that the streak counts never reaches it. */
  predicate DropProof(row: Row) {
    SuddenDrop(row.fcdMeanMedian, row.fcd) ==> row.consecutiveLow.Some? && row.consecutiveLow.value > 0
  }

  lemma DropNeedsNoStreak(previous: Row, row: Row)
    requires InRange(row.fcd) && DropProof(row)
    ensures CurrentStreak(row, previous) == 0 ==> !SuddenDrop(row.fcdMeanMedian, row.fcd)
  {
  }

  lemma JoinedIsDropProof(reading: Reading, zeros: nat, lows: nat, profile: Profile)
    requires InRange(reading.fcd) && (IsLow(reading.fcd) ==> lows > 0)
    requires DropsOnlyToLow(ProfileAt(profile, reading.hourOfWeek).fcdMeanMedian, reading.fcd)
    ensures var row := Join(reading, zeros, lows, profile);
            DropProof(row) && InRange(row.fcd)
  {
  }

  lemma RowIsDropProof(readings: seq<Reading>, profile: Profile, i: nat)
    requires ReadingsInRange(readings) && i < |readings|
    requires DropsOnlyToLow(ProfileAt(profile, readings[i].hourOfWeek).fcdMeanMedian, readings[i].fcd)
    ensures DropProof(MatchedRows(readings, profile)[i]) && InRange(MatchedRows(readings, profile)[i].fcd)
  {
    RunsSnoc(Series(readings), i);
    hide ZeroRun, LowRun, Join, DropProof, DropsOnlyToLow, ProfileAt, InRange;
    JoinedIsDropProof(readings[i], ZeroRun(Series(readings), i + 1), LowRun(Series(readings), i + 1), profile);
  }

  /** Where readings drop only to 0 or 1, the branch for a sudden drop is never taken within a call. */
  lemma {:induction false} SuddenDropIsUnreachable(readings: seq<Reading>, profile: Profile, previous: Row, i: nat)
    requires ReadingsInRange(readings) && i < |readings|
    requires DropsOnlyToLow(ProfileAt(profile, readings[i].hourOfWeek).fcdMeanMedian, readings[i].fcd)
    ensures var row := MatchedRows(readings, profile)[i];
            DropProof(row) && (CurrentStreak(row, previous) == 0 ==> !SuddenDrop(row.fcdMeanMedian, row.fcd))
  {
    hide *;
    RowIsDropProof(readings, profile, i);
    DropNeedsNoStreak(previous, MatchedRows(readings, profile)[i]);
  }

  predicate Unusable(threshold: Option<real>) {
    threshold.Some? ==> threshold.value > MAX_PROFILE_VALUE
  }

  predicate UnusableRow(row: Row) {
    Unusable(row.zerosQ95) && Unusable(row.lowQ95)
  }

  lemma UnusableThresholdCannotLift(previous: Row, row: Row)
    requires InRange(row.fcd) && Threshold(row, previous) > MAX_PROFILE_VALUE && DropProof(row)
    ensures CannotLift(previous, row, 0.5)
  {
    DropNeedsNoStreak(previous, row);
    var pv, streak := Threshold(row, previous), CurrentStreak(row, previous);
    if streak as real <= pv {
      RatioAtMost(streak, pv, 0.5);
    }
  }

  ghost predicate UnusableProfile(readings: seq<Reading>, profile: Profile) {
    forall i :: 0 <= i < |readings| ==>
      var p := ProfileAt(profile, readings[i].hourOfWeek);
      Unusable(p.zerosQ95) && Unusable(p.lowQ95) && DropsOnlyToLow(p.fcdMeanMedian, readings[i].fcd)
  }

  /** Without usable thresholds (missing, or above MAX_PROFILE_VALUE), readings that drop suddenly only to
      0 or 1 never lift the mean above 1/2, so nothing is ever closed. */
  lemma UnusableProfileNeverCloses(exp: real -> real, readings: seq<Reading>, profile: Profile,
                                   last: Option<LastValidation>, i: nat)
    requires IsExp(exp) && ReadingsInRange(readings) && UnusableProfile(readings, profile)
    requires last.Some? ==> UnusableRow(last.value.row)
    requires last.Some? && last.value.mean.Some? ==> 0.0 <= last.value.mean.value <= 0.5
    requires i < |readings|
    ensures var mean := CallMeans(exp, readings, profile, last)[i];
            (mean.Some? ==> mean.value <= 0.5) && ClosureStatus(mean) != Closed
  {
    hide CannotLift, ZeroRun, LowRun;
    var rows := MatchedRows(readings, profile);
    forall j | 0 <= j < |rows|
      ensures UnusableRow(rows[j]) && DropProof(rows[j])
    {
      SuddenDropIsUnreachable(readings, profile, rows[j], j);
    }
    if last.Some? {
      UnusableThresholdCannotLift(last.value.row, rows[0]);
    }
    forall j | 0 < j < |rows|
      ensures CannotLift(PreviousOf(rows[0], rows, j), rows[j], 0.5)
    {
      UnusableThresholdCannotLift(rows[j - 1], rows[j]);
    }
    CeilingCall(exp, rows, last, 0.5);
  }

  /** n zero readings in one hour of week. */
  function ZerosAt(hour: nat, n: nat): (readings: seq<Reading>)
    ensures |readings| == n && ReadingsInRange(readings)
    ensures forall i :: 0 <= i < n ==> readings[i] == Reading(hour, Some(0.0))
  {
    seq(n, _ => Reading(hour, Some(0.0)))
  }

  /** Whether some reading of some call of zero readings in the hour, from the default start, is closed. */
  ghost predicate ZerosClose(exp: real -> real, profile: Profile, hour: nat) {
    exists n: nat, i: nat ::
      i < n && ClosureStatus(CallMeans(exp, ZerosAt(hour, n), profile, None)[i]) == Closed
  }

  /** The row of the c-th zero reading under one profile row. */
  function ZeroRowOf(p: ProfileRow, c: nat): Row {
    Row(Some(0.0), Some(c), Some(c), p.zerosQ95, p.lowQ95, p.fcdMeanMedian)
  }

  lemma ZeroRowsOfOneHour(profile: Profile, hour: nat, n: nat, i: nat)
    requires i < n
    ensures MatchedRows(ZerosAt(hour, n), profile)[i] == ZeroRowOf(ProfileAt(profile, hour), i + 1)
  {
    RunsOfZeros(Series(ZerosAt(hour, n)), i + 1);
    hide ZeroRun, LowRun;
  }

  lemma ZerosCloseUnder(exp: real -> real, profile: Profile, hour: nat, P: real, n: nat)
    requires IsExp(exp) && P >= MINIMUM_PROFILE_VALUE && 3.65 * P <= n as real
    requires var p := ProfileAt(profile, hour);
             forall c: nat, d: nat :: Closable(ZeroRowOf(p, c), ZeroRowOf(p, d), P)
    ensures ClosureStatus(CallMeans(exp, ZerosAt(hour, n), profile, None)[n - 1]) == Closed
  {
    var rows := MatchedRows(ZerosAt(hour, n), profile);
    forall i | 0 <= i < n
      ensures ZeroRow(rows[i], i + 1)
      ensures i > 0 ==> Closable(PreviousOf(rows[0], rows, i), rows[i], P)
    {
      ZeroRowsOfOneHour(profile, hour, n, i);
      if i > 0 { ZeroRowsOfOneHour(profile, hour, n, i - 1); }
      hide MatchedRows, Closable;
    }
    hide MatchedRows, Closable, Closing, RunningMeans, ZeroRow;
    ClosingCall(exp, rows, None, P, n - 1);
    ClosingBecomesClosed(CallMeans(exp, ZerosAt(hour, n), profile, None)[n - 1], n, P);
  }

  lemma UnusableZeroRowCannotLift(p: ProfileRow, c: nat, d: nat)
    requires d > 0 && Threshold(ZeroRowOf(p, d), ZeroRowOf(p, c)) > MAX_PROFILE_VALUE
    ensures CannotLift(ZeroRowOf(p, c), ZeroRowOf(p, d), 0.5)
  {
    assert DropProof(ZeroRowOf(p, d)) && InRange(ZeroRowOf(p, d).fcd);
    hide *;
    UnusableThresholdCannotLift(ZeroRowOf(p, c), ZeroRowOf(p, d));
  }

  /** Whatever the streaks, the threshold that judges a zero reading under the profile row is unusable. */
  ghost predicate JudgedUnusable(p: ProfileRow) {
    forall c: nat, d: nat :: Threshold(ZeroRowOf(p, d), ZeroRowOf(p, c)) > MAX_PROFILE_VALUE
  }

  lemma UnusableZeroRowsCannotLift(profile: Profile, hour: nat, n: nat, j: nat)
    requires 0 < j < n && JudgedUnusable(ProfileAt(profile, hour))
    ensures var rows := MatchedRows(ZerosAt(hour, n), profile);
            CannotLift(PreviousOf(rows[0], rows, j), rows[j], 0.5)
  {
    hide MatchedRows, CannotLift, Threshold, ZeroRowOf, ProfileAt;
    ZeroRowsOfOneHour(profile, hour, n, j);
    ZeroRowsOfOneHour(profile, hour, n, j - 1);
    UnusableZeroRowCannotLift(ProfileAt(profile, hour), j, j + 1);
  }

  lemma ZerosNeverCloseUnder(exp: real -> real, profile: Profile, hour: nat, n: nat, i: nat)
    requires IsExp(exp) && i < n && JudgedUnusable(ProfileAt(profile, hour))
    ensures ClosureStatus(CallMeans(exp, ZerosAt(hour, n), profile, None)[i]) != Closed
  {
    var rows := MatchedRows(ZerosAt(hour, n), profile);
    CallMeansUnfold(exp, ZerosAt(hour, n), profile, None);
    hide *;
    forall j | 0 < j < n
      ensures CannotLift(PreviousOf(rows[0], rows, j), rows[j], 0.5)
    {
      UnusableZeroRowsCannotLift(profile, hour, n, j);
    }
    CeilingCall(exp, rows, None, 0.5);
    LowMeanIsNotClosed(CallMeans(exp, ZerosAt(hour, n), profile, None)[i]);
  }

  lemma LowMeanIsNotClosed(mean: Option<real>)
    ensures mean.Some? && mean.value <= 0.5 ==> ClosureStatus(mean) != Closed
    ensures mean.None? ==> ClosureStatus(mean) != Closed
  {
  }

  /** Which threshold judges a slot, exactly: zero readings in an hour of week close a segment from the default
      start if and only if the profile has a threshold of at most 54 for that hour, the one for zeros where the
      median is below 3 and the one for zeros or ones otherwise. The other one does not matter. */
  lemma {:induction false} ZeroReadingsCloseIffThresholdUsable(exp: real -> real, profile: Profile, hour: nat)
    requires IsExp(exp)
    ensures ZerosClose(exp, profile, hour) <==>
            && hour in profile
            && var p := profile[hour];
               var judged := if p.fcdMeanMedian.Some? && p.fcdMeanMedian.value < 3.0 then p.zerosQ95 else p.lowQ95;
               judged.Some? && judged.value <= 54.0
  {
    var p := ProfileAt(profile, hour);
    var judged := if p.fcdMeanMedian.Some? && p.fcdMeanMedian.value < 3.0 then p.zerosQ95 else p.lowQ95;
    if judged.Some? && judged.value <= 54.0 {
      var P := MAX_PROFILE_VALUE + (if p.lowQ95.Some? && p.lowQ95.value > 0.0 then p.lowQ95.value else 0.0);
      var n := (4.0 * P).Floor + 1;
      ZerosCloseUnder(exp, profile, hour, P, n);
      assert ClosureStatus(CallMeans(exp, ZerosAt(hour, n), profile, None)[n - 1]) == Closed;
    } else {
      forall n: nat, i: nat | i < n
        ensures ClosureStatus(CallMeans(exp, ZerosAt(hour, n), profile, None)[i]) != Closed
      {
        ZerosNeverCloseUnder(exp, profile, hour, n, i);
      }
    }
  }

  // ---------------------------------------------------------------- short calls

  ghost predicate DropsAreLow(readings: seq<Reading>, profile: Profile) {
    forall i :: 0 <= i < |readings| ==>
      DropsOnlyToLow(ProfileAt(profile, readings[i].hourOfWeek).fcdMeanMedian, readings[i].fcd)
  }

  /** The mean that the call starts from is unknown or not above CLOSED_LIMIT. */
  predicate StartsUnclosed(last: Option<LastValidation>) {
    last.Some? && last.value.mean.Some? ==> 0.0 <= last.value.mean.value <= CLOSED_LIMIT
  }

  /** The profile thresholds of every reading's hour clamp to at least P. */
  ghost predicate ProfileAtLeast(readings: seq<Reading>, profile: Profile, P: real) {
    forall i :: 0 <= i < |readings| ==>
      var p := ProfileAt(profile, readings[i].hourOfWeek);
      HandleProfileValue(p.zerosQ95) >= P && HandleProfileValue(p.lowQ95) >= P
  }

  predicate StreaksAtMost(row: Row, n: nat) {
    && row.consecutiveZeros.Some? && row.consecutiveZeros.value <= n
    && row.consecutiveLow.Some? && row.consecutiveLow.value <= n
  }

  /** A streak lifts a mean of CLOSED_LIMIT only from three quarters of twice its threshold on, and never
      under a threshold above MAX_PROFILE_VALUE. */
  lemma ShortStreakCannotLift(previous: Row, row: Row, n: nat)
    requires InRange(row.fcd) && DropProof(row) && StreaksAtMost(row, n)
    requires Threshold(row, previous) > MAX_PROFILE_VALUE || n as real <= 1.5 * Threshold(row, previous)
    ensures CannotLift(previous, row, CLOSED_LIMIT)
  {
    DropNeedsNoStreak(previous, row);
    var streak, pv := CurrentStreak(row, previous), Threshold(row, previous);
    if streak as real <= 1.5 * pv {
      RatioAtMost(streak, pv, CLOSED_LIMIT);
    }
  }

  lemma MatchedRowsAreProof(readings: seq<Reading>, profile: Profile, j: nat)
    requires ReadingsInRange(readings) && DropsAreLow(readings, profile) && j < |readings|
    ensures var row := MatchedRows(readings, profile)[j];
            DropProof(row) && StreaksAtMost(row, j + 1)
  {
    assert ZeroRun(Series(readings), j + 1) <= j + 1 && LowRun(Series(readings), j + 1) <= j + 1;
    hide ZeroRun, LowRun, DropProof;
    SuddenDropIsUnreachable(readings, profile, MatchedRows(readings, profile)[j], j);
  }

  lemma MatchedThresholds(readings: seq<Reading>, profile: Profile, P: real, j: nat, row: Row)
    requires ReadingsInRange(readings) && ProfileAtLeast(readings, profile, P) && j < |readings|
    ensures Threshold(row, MatchedRows(readings, profile)[j]) >= P
  {
    hide ZeroRun, LowRun;
  }

  /** Within a call whose thresholds clamp to at least P, the streaks are too short to close a segment as long
      as there are at most 1.5 P readings; if P exceeds MAX_PROFILE_VALUE they always are. */
  lemma SlowCallNeverCloses(exp: real -> real, readings: seq<Reading>, profile: Profile, last: Option<LastValidation>,
                            P: real, i: nat)
    requires IsExp(exp) && ReadingsInRange(readings) && DropsAreLow(readings, profile) && i < |readings|
    requires P >= MINIMUM_PROFILE_VALUE && ProfileAtLeast(readings, profile, P)
    requires P > MAX_PROFILE_VALUE || |readings| as real <= 1.5 * P
    requires StartsUnclosed(last)
    ensures var mean := CallMeans(exp, readings, profile, last)[i];
            mean.Some? ==> 0.0 <= mean.value <= CLOSED_LIMIT
  {
    hide CannotLift, DropProof, DropsAreLow, MatchedRows, Threshold, ProfileAtLeast;
    var rows := MatchedRows(readings, profile);
    MatchedRowsAreProof(readings, profile, 0);
    if last.Some? {
      ShortStreakCannotLift(last.value.row, rows[0], 1);
    }
    forall j | 0 < j < |rows|
      ensures CannotLift(PreviousOf(rows[0], rows, j), rows[j], CLOSED_LIMIT)
    {
      MatchedRowsAreProof(readings, profile, j);
      MatchedThresholds(readings, profile, P, j - 1, rows[j]);
      ShortStreakCannotLift(rows[j - 1], rows[j], j + 1);
    }
    CeilingCall(exp, rows, last, CLOSED_LIMIT);
  }

  lemma ShortCallNeverCloses(exp: real -> real, readings: seq<Reading>, profile: Profile,
                             last: Option<LastValidation>, i: nat)
    requires IsExp(exp) && ReadingsInRange(readings) && DropsAreLow(readings, profile) && i < |readings| <= 7
    requires StartsUnclosed(last)
    ensures var mean := CallMeans(exp, readings, profile, last)[i];
            mean.Some? ==> 0.0 <= mean.value <= CLOSED_LIMIT
  {
    SlowCallNeverCloses(exp, readings, profile, last, MINIMUM_PROFILE_VALUE, i);
  }

  /** Any number of consecutive calls of at most 7 readings each leaves a segment that is not closed
      unclosed, as long as readings drop suddenly only to 0 or 1. */
  lemma {:induction false} ShortCallsNeverClose(exp: real -> real, calls: seq<seq<Reading>>, profile: Profile,
                                                last: Option<LastValidation>)
    requires IsExp(exp) && StartsUnclosed(last)
    requires forall c :: c in calls ==> ReadingsInRange(c) && |c| <= 7 && DropsAreLow(c, profile)
    ensures NeverClosed(exp, calls, profile, last)
    decreases |calls|
  {
    hide RunningMeans, MatchedRows, DropsAreLow;
    if calls != [] {
      forall i | 0 <= i < |calls[0]|
        ensures var mean := CallMeans(exp, calls[0], profile, last)[i];
                mean.Some? ==> 0.0 <= mean.value <= CLOSED_LIMIT
      {
        ShortCallNeverCloses(exp, calls[0], profile, last, i);
      }
      if calls[0] != [] {
        assert NextLast(exp, calls[0], profile, last).value.mean
            == CallMeans(exp, calls[0], profile, last)[|calls[0]| - 1];
      }
      ShortCallsNeverClose(exp, calls[1..], profile, NextLast(exp, calls[0], profile, last));
    }
  }

  // ---------------------------------------------------------------- how short is too short

  /** A call that starts unclosed and closes at some reading. */
  ghost predicate Closes(exp: real -> real, readings: seq<Reading>, profile: Profile, last: Option<LastValidation>)
    requires ReadingsInRange(readings)
  {
    StartsUnclosed(last)
    && exists i :: 0 <= i < |readings| && ClosureStatus(CallMeans(exp, readings, profile, last)[i]) == Closed
  }

  /** A slot with both thresholds at P and no median, and a segment just not closed in it. */
  function Brink(P: real): Profile { map[0 := ProfileRow(Some(P), Some(P), None)] }

  /** The row of the c-th zero reading. */
  function BrinkRow(P: real, c: nat): (row: Row)
    ensures row.lowQ95 == Some(P) && InRange(row.fcd)
  {
    Row(Some(0.0), Some(c), Some(c), Some(P), Some(P), None)
  }

  function BrinkLast(P: real): Option<LastValidation> { Some(LastValidation(BrinkRow(P, 1), Some(CLOSED_LIMIT))) }

  lemma MeanMeetsItself(p: real, m: real, w: real)
    requires p > 0.0 && w >= 1.0
    ensures CalculateRunningMean(p, m, w, m) == m
  {
    WeightedMeanBetween(p, m, w, m, m, m);
  }

  lemma MixingInMoreLifts(p: real, m: real, w: real, r: real)
    requires p > 0.0 && w >= 1.0 && r > m
    ensures CalculateRunningMean(p, m, w, r) > m
  {
    hide *;
    var d := p + w;
    MeanOfProducts(p, m, w, r);
    ProductDistributes(d, p, w, m);
    ProductGrows(w, m, r);
    QuotientAbove(Product(p, m) + Product(w, r), d, m);
  }

  lemma ProductGrows(w: real, x: real, y: real)
    requires w > 0.0 && x < y
    ensures Product(w, x) < Product(w, y)
  {
    ScaledStrictly(w, x, y);
  }

  lemma QuotientAbove(sum: real, d: real, m: real)
    requires d > 0.0 && sum > Product(d, m)
    ensures sum / d > m
  {
    assert (sum / d) * d == sum;
    if sum / d <= m {
      ScaledBetween(d, sum / d, sum / d, m);
    }
  }

  /** Up to 1.5 P zero readings the mean stays at the brink, the next one lifts it. */
  lemma BrinkStep(exp: real -> real, previous: Row, k: real, P: real, c: nat)
    requires MINIMUM_PROFILE_VALUE <= P <= MAX_PROFILE_VALUE && c > 0 && previous.lowQ95 == Some(P)
    ensures var s := State(Some(CLOSED_LIMIT), k);
            var next := Step(exp, previous, BrinkRow(P, c), s);
            if c as real <= 1.5 * P then next == s else ClosureStatus(next.mean) == Closed
  {
    var row := BrinkRow(P, c);
    assert Threshold(row, previous) == P && CurrentStreak(row, previous) == c;
    StepIsDampedBase(exp, previous, row, State(Some(CLOSED_LIMIT), k));
    assert Alpha(exp, previous, row, k) == 1.0 && MomentumK(previous, row, k) == k;
    var t, w := StreakRatio(c, P), StreakWeight(c, P);
    var res := Max(CLOSED_LIMIT, Min(1.0, t));
    assert BaseMean(previous, row, CLOSED_LIMIT) == Some(CalculateRunningMean(P, CLOSED_LIMIT, w, res));
    hide Step, BaseMean, Alpha, MomentumK, CalculateRunningMean, StreakRatio, StreakWeight;
    if c as real <= 1.5 * P {
      RatioAtMost(c, P, CLOSED_LIMIT);
      MeanMeetsItself(P, CLOSED_LIMIT, w);
    } else {
      RatioAbove(c, P);
      MixingInMoreLifts(P, CLOSED_LIMIT, w, res);
    }
  }

  lemma RatioAbove(c: nat, p: real)
    requires p > 0.0 && c as real > 1.5 * p
    ensures StreakRatio(c, p) > CLOSED_LIMIT
  {
    RatioIsQuotient(c, p);
    var r := StreakRatio(c, p);
    hide StreakRatio;
    if r <= CLOSED_LIMIT {
      ScaledBetween(2.0 * p, r, r, CLOSED_LIMIT);
    }
  }

  lemma StatesCons(exp: real -> real, previous: Row, s: State, rows: seq<Row>)
    requires AllInRange(rows) && rows != []
    ensures InRange(rows[0].fcd) && AllInRange(rows[1..])
    ensures var next := Step(exp, previous, rows[0], s);
            States(exp, previous, s, rows) == [next] + States(exp, rows[0], next, rows[1..])
  {
    hide Step;
  }

  lemma {:induction false} BrinkRun(exp: real -> real, previous: Row, k: real, P: real, rows: seq<Row>, c: nat)
    returns (i: nat)
    requires AllInRange(rows) && MINIMUM_PROFILE_VALUE <= P <= MAX_PROFILE_VALUE && previous.lowQ95 == Some(P)
    requires c as real <= 1.5 * P < (c + |rows|) as real
    requires forall i :: 0 <= i < |rows| ==> rows[i] == BrinkRow(P, c + 1 + i)
    ensures i < |rows| && ClosureStatus(States(exp, previous, State(Some(CLOSED_LIMIT), k), rows)[i].mean) == Closed
    decreases |rows|
  {
    var s := State(Some(CLOSED_LIMIT), k);
    hide *;
    StatesCons(exp, previous, s, rows);
    assert rows[0] == BrinkRow(P, c + 1);
    BrinkStep(exp, previous, k, P, c + 1);
    if (c + 1) as real <= 1.5 * P {
      var tail := rows[1..];
      forall i | 0 <= i < |tail|
        ensures tail[i] == BrinkRow(P, c + 2 + i)
      {
        assert tail[i] == rows[i + 1];
      }
      i := BrinkRun(exp, rows[0], k, P, tail, c + 1);
      i := i + 1;
    } else {
      i := 0;
    }
  }

  lemma BrinkRows(P: real, n: nat, i: nat)
    requires i < n && ReadingsInRange(ZerosAt(0, n))
    ensures MatchedRows(ZerosAt(0, n), Brink(P))[i] == BrinkRow(P, i + 1)
  {
    var readings := ZerosAt(0, n);
    RunsOfZeros(Series(readings), i + 1);
    hide ZeroRun, LowRun;
  }

  lemma EnoughZerosClose(exp: real -> real, P: real, n: nat)
    requires MINIMUM_PROFILE_VALUE <= P <= MAX_PROFILE_VALUE && n as real > 1.5 * P
    ensures ReadingsInRange(ZerosAt(0, n)) && DropsAreLow(ZerosAt(0, n), Brink(P))
    ensures ProfileAtLeast(ZerosAt(0, n), Brink(P), P)
    ensures Closes(exp, ZerosAt(0, n), Brink(P), BrinkLast(P))
  {
    var readings := ZerosAt(0, n);
    assert ReadingsInRange(readings);
    var rows := MatchedRows(readings, Brink(P));
    forall i | 0 <= i < n
      ensures rows[i] == BrinkRow(P, i + 1)
    {
      BrinkRows(P, n, i);
    }
    hide MatchedRows, Step, BrinkRow, States;
    var i := BrinkRun(exp, BrinkRow(P, 1), K_START, P, rows, 0);
    assert ClosureStatus(CallMeans(exp, readings, Brink(P), BrinkLast(P))[i]) == Closed;
  }

  /** Some call of n readings that drop suddenly only to 0 or 1, under thresholds that clamp to at least P,
      closes a segment that was not closed. */
  ghost predicate CallCanClose(exp: real -> real, P: real, n: nat) {
    exists readings: seq<Reading>, profile: Profile, last: Option<LastValidation> ::
      && |readings| == n && ReadingsInRange(readings) && DropsAreLow(readings, profile)
      && ProfileAtLeast(readings, profile, P) && Closes(exp, readings, profile, last)
  }

  /** With thresholds that clamp to at least P, a call of n readings that drop suddenly only to 0 or 1 can close
      a segment that was not closed if and only if n exceeds 1.5 P and P does not exceed MAX_PROFILE_VALUE. */
  lemma CallCanCloseIff(exp: real -> real, P: real, n: nat)
    requires IsExp(exp) && P >= MINIMUM_PROFILE_VALUE
    ensures CallCanClose(exp, P, n) <==> P <= MAX_PROFILE_VALUE && n as real > 1.5 * P
  {
    if P <= MAX_PROFILE_VALUE && n as real > 1.5 * P {
      EnoughZerosClose(exp, P, n);
      assert |ZerosAt(0, n)| == n;
    } else {
      forall readings: seq<Reading>, profile: Profile, last: Option<LastValidation> |
        && |readings| == n && ReadingsInRange(readings) && DropsAreLow(readings, profile)
        && ProfileAtLeast(readings, profile, P) && StartsUnclosed(last)
        ensures !Closes(exp, readings, profile, last)
      {
        forall i | 0 <= i < n
          ensures ClosureStatus(CallMeans(exp, readings, profile, last)[i]) != Closed
        {
          SlowCallNeverCloses(exp, readings, profile, last, P, i);
        }
      }
    }
  }

  /** Over all profiles: a call of n readings that drop suddenly only to 0 or 1 can close a segment that was not
      closed if and only if n is at least 8. */
  lemma {:induction false} CallCanCloseIffEightReadings(exp: real -> real, n: nat)
    requires IsExp(exp)
    ensures (exists readings: seq<Reading>, profile: Profile, last: Option<LastValidation> ::
               && |readings| == n && ReadingsInRange(readings) && DropsAreLow(readings, profile)
               && Closes(exp, readings, profile, last))
            <==> n >= 8
  {
    CallCanCloseIff(exp, MINIMUM_PROFILE_VALUE, n);
    hide Closes, DropsAreLow;
    forall readings: seq<Reading>, profile: Profile
      ensures ProfileAtLeast(readings, profile, MINIMUM_PROFILE_VALUE)
    {
    }
    hide ProfileAtLeast;
  }

  /** Without that hypothesis one reading is enough: after a streak as long as the threshold, a reading of
      1.5 under a median of 10 is a sudden drop that no streak counts. */
  lemma OddDropClosesAtOnce(exp: real -> real)
    ensures var readings := [Reading(0, Some(1.5))];
            var profile := map[0 := ProfileRow(Some(5.0), Some(5.0), Some(10.0))];
            var last := Some(LastValidation(BrinkRow(5.0, 5), Some(CLOSED_LIMIT)));
            && ReadingsInRange(readings) && !DropsAreLow(readings, profile)
            && Closes(exp, readings, profile, last)
  {
    var readings := [Reading(0, Some(1.5))];
    var profile := map[0 := ProfileRow(Some(5.0), Some(5.0), Some(10.0))];
    var previous := BrinkRow(5.0, 5);
    var last := Some(LastValidation(previous, Some(CLOSED_LIMIT)));
    RunsSnoc(Series(readings), 0);
    assert ZeroRun(Series(readings), 0) == 0 && LowRun(Series(readings), 0) == 0;
    var rows := MatchedRows(readings, profile);
    var row := Row(Some(1.5), Some(0), Some(0), Some(5.0), Some(5.0), Some(10.0));
    assert rows[0] == row;
    assert BaseMean(previous, row, CLOSED_LIMIT) == Some(CalculateRunningMean(5.0, CLOSED_LIMIT, 10.0, 1.0));
    assert ClosureStatus(CallMeans(exp, readings, profile, last)[0]) == Closed;
    assert !DropsOnlyToLow(ProfileAt(profile, readings[0].hourOfWeek).fcdMeanMedian, readings[0].fcd);
  }

  /** Nor does a missing threshold keep a segment open without it: after sixty zero readings, during which the
      mean stays at the default start, the same reading closes. */
  lemma OddDropClosesWithoutThresholds(exp: real -> real)
    ensures var readings := ZerosAt(0, 60) + [Reading(0, Some(1.5))];
            var profile := map[0 := ProfileRow(None, None, Some(10.0))];
            && ReadingsInRange(readings) && !DropsAreLow(readings, profile)
            && ClosureStatus(CallMeans(exp, readings, profile, None)[60]) == Closed
  {
    var readings := ZerosAt(0, 60) + [Reading(0, Some(1.5))];
    var profile := map[0 := ProfileRow(None, None, Some(10.0))];
    assert ReadingsInRange(readings);
    assert !DropsOnlyToLow(ProfileAt(profile, readings[60].hourOfWeek).fcdMeanMedian, readings[60].fcd);
    var rows := MatchedRows(readings, profile);
    forall i | 0 <= i < 60
      ensures rows[i] == UncoveredRow(i + 1)
    {
      UncoveredRows(readings, profile, i);
    }
    OddRow(readings, profile);
    hide MatchedRows, UncoveredRow;
    var s := State(Some(INITIAL_RUNNING_MEAN), K_START);
    UncoveredRun(exp, rows[0], K_START, rows[1..], 1);
    assert CallMeans(exp, readings, profile, None)[60] == States(exp, rows[0], s, rows[1..])[59].mean;
  }

  /** The row of the c-th zero reading under missing thresholds and a median of 10. */
  function UncoveredRow(c: nat): Row {
    Row(Some(0.0), Some(c), Some(c), None, None, Some(10.0))
  }

  const ODD_ROW := Row(Some(1.5), Some(0), Some(0), None, None, Some(10.0))

  lemma UncoveredRows(readings: seq<Reading>, profile: Profile, i: nat)
    requires readings == ZerosAt(0, 60) + [Reading(0, Some(1.5))] && ReadingsInRange(readings) && i < 60
    requires profile == map[0 := ProfileRow(None, None, Some(10.0))]
    ensures MatchedRows(readings, profile)[i] == UncoveredRow(i + 1)
  {
    RunsOfZeros(Series(readings), i + 1);
    hide ZeroRun, LowRun;
  }

  lemma OddRow(readings: seq<Reading>, profile: Profile)
    requires readings == ZerosAt(0, 60) + [Reading(0, Some(1.5))] && ReadingsInRange(readings)
    requires profile == map[0 := ProfileRow(None, None, Some(10.0))]
    ensures MatchedRows(readings, profile)[60] == ODD_ROW
  {
    RunsSnoc(Series(readings), 60);
    hide ZeroRun, LowRun;
  }

  lemma UncoveredStep(exp: real -> real, previous: Row, k: real, c: nat)
    requires 1 <= c <= 60 && previous.lowQ95 == None
    ensures InRange(UncoveredRow(c).fcd)
    ensures var s := State(Some(INITIAL_RUNNING_MEAN), k);
            Step(exp, previous, UncoveredRow(c), s) == s
  {
    var row := UncoveredRow(c);
    assert Threshold(row, previous) == 60.0 && CurrentStreak(row, previous) == c;
    StepIsDampedBase(exp, previous, row, State(Some(INITIAL_RUNNING_MEAN), k));
    assert Alpha(exp, previous, row, k) == 1.0 && MomentumK(previous, row, k) == k;
    var t, w := StreakRatio(c, 60.0), StreakWeight(c, 60.0);
    assert BaseMean(previous, row, INITIAL_RUNNING_MEAN)
        == Some(CalculateRunningMean(60.0, INITIAL_RUNNING_MEAN, w, Max(INITIAL_RUNNING_MEAN, Min(1.0, t))));
    hide Step, BaseMean, Alpha, MomentumK, CalculateRunningMean, StreakRatio, StreakWeight;
    RatioAtMost(c, 60.0, INITIAL_RUNNING_MEAN);
    MeanMeetsItself(60.0, INITIAL_RUNNING_MEAN, w);
  }

  lemma OddStep(exp: real -> real, k: real)
    ensures ClosureStatus(Step(exp, UncoveredRow(60), ODD_ROW, State(Some(INITIAL_RUNNING_MEAN), k)).mean) == Closed
  {
    var previous := UncoveredRow(60);
    assert BaseMean(previous, ODD_ROW, INITIAL_RUNNING_MEAN)
        == Some(CalculateRunningMean(5.0, INITIAL_RUNNING_MEAN, 10.0, 1.0));
  }

  lemma {:induction false} UncoveredRun(exp: real -> real, previous: Row, k: real, rows: seq<Row>, c: nat)
    requires AllInRange(rows) && previous == UncoveredRow(c) && c + |rows| == 61 && 1 <= c <= 60
    requires forall i :: 0 <= i < |rows| - 1 ==> rows[i] == UncoveredRow(c + 1 + i)
    requires rows[|rows| - 1] == ODD_ROW
    ensures ClosureStatus(States(exp, previous, State(Some(INITIAL_RUNNING_MEAN), k), rows)[60 - c].mean) == Closed
    decreases |rows|
  {
    var s := State(Some(INITIAL_RUNNING_MEAN), k);
    UncoveredHasNoThreshold(c);
    hide *;
    StatesCons(exp, previous, s, rows);
    if c == 60 {
      OddStep(exp, k);
    } else {
      assert rows[0] == UncoveredRow(c + 1);
      UncoveredStep(exp, previous, k, c + 1);
      var tail := rows[1..];
      forall i | 0 <= i < |tail| - 1
        ensures tail[i] == UncoveredRow(c + 2 + i)
      {
        assert tail[i] == rows[i + 1];
      }
      UncoveredRun(exp, rows[0], k, tail, c + 1);
    }
  }

  lemma UncoveredHasNoThreshold(c: nat)
    ensures UncoveredRow(c).lowQ95 == None
  {
  }
}
