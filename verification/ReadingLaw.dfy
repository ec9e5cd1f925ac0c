/**
 What one reading does to the running mean, from the readings and the profile: it pulls the mean a stated part of
 the way to a target, and momentum then scales the result.
 */
module ReadingLaw {
  import opened Wrappers
  import opened CoverageCounters
  import opened RoadStatus
  import opened RunningMeanProperties
  import opened Validation

  /** With weight `weight` against `own`, the distance to the target has shrunk by own / (own + weight). */
  predicate Pulled(before: real, after: real, own: real, weight: real, target: real) {
    own + weight > 0.0 && (after - target) * (own + weight) == own * (before - target)
  }

  /** The threshold that judges a row of `hour` after one of `hourBefore`: the one of the hour before, for zeros
      where the hour's median is below 3; 60 if there is none, and at least 5. */
  function Judging(profile: Profile, hourBefore: nat, hour: nat): (t: real)
    ensures t >= 5.0
  {
    var q := ProfileAt(profile, hourBefore);
    var t := if SparseHour(profile, hour) then q.zerosQ95 else q.lowQ95;
    if t.None? then 60.0 else if t.value < 5.0 then 5.0 else t.value
  }

  predicate SparseHour(profile: Profile, hour: nat) {
    var p := ProfileAt(profile, hour);
    p.fcdMeanMedian.Some? && p.fcdMeanMedian.value < 3.0
  }

  /** The streak that judges the hour, over the first n readings of the call. */
  function JudgedRun(readings: seq<Reading>, profile: Profile, hour: nat, n: nat): nat
    requires n <= |readings|
  {
    if SparseHour(profile, hour) then ZeroRun(Series(readings), n) else LowRun(Series(readings), n)
  }

  /** A streak as a share of twice the threshold. */
  function Share(run: nat, t: real): real
    requires t > 0.0
  {
    run as real / (2.0 * t)
  }

  /** The square of the share, and at least 1. */
  function Weight(share: real): real {
    if share * share > 1.0 then share * share else 1.0
  }

  function Target(m: real, share: real): real {
    if m >= share then m else if share <= 1.0 then share else if m > 1.0 then m else 1.0
  }

  lemma {:induction false} WeightAndTarget(run: nat, t: real, m: real)
    requires t > 0.0
    ensures StreakRatio(run, t) == Share(run, t) && StreakWeight(run, t) == Weight(Share(run, t))
    ensures Max(m, Min(1.0, StreakRatio(run, t))) == Target(m, Share(run, t))
  {
    assert StreakRatio(run, t) == Share(run, t);
    hide StreakRatio, Share;
  }

  /** How the mean m moves to `base` at a reading that makes the judged streak `run`, after one that left it at
      `ended`, under the threshold t; None is a lost mean. */
  predicate Moves(run: nat, ended: nat, t: real, fcd: Fcd, median: Option<real>, m: real, base: Option<real>)
    requires t > 0.0
  {
    var share := Share(run, t);
    if t > 54.0 && run as real > t then
      base == Some(m)
    else if run > 0 then
      // towards the share of the streak, but never down
      base.Some? && Pulled(m, base.value, t, Weight(share), Target(m, share))
    else if ended as real < t then
      // towards the share of the streak that has just ended; a missing reading loses the mean
      if fcd.None? then base.None? else base.Some? && Pulled(m, base.value, t, fcd.value, Share(ended, t))
    else if fcd.Some? && median.Some? && median.value - fcd.value > 8.0 then
      base.Some? && Pulled(m, base.value, 5.0, 10.0, 1.0)
    else if fcd.Some? && fcd.value > 6.0 then
      base.Some? && Pulled(m, base.value, 5.0, fcd.value, 0.0)
    else
      base == Some(m)
  }

  lemma {:induction false} WeightedMeanPulls(p: real, m: real, w: real, r: real)
    requires p > 0.0 && w >= 0.0
    ensures Pulled(m, CalculateRunningMean(p, m, w, r), p, w, r)
  {
    var after := CalculateRunningMean(p, m, w, r);
    assert after * (p + w) == p * m + w * r;
    assert (after - r) * (p + w) == after * (p + w) - r * p - r * w;
    assert p * (m - r) == p * m - p * r;
  }

  lemma {:induction false} UpdateMoves(run: nat, ended: nat, t: real, fcd: Fcd, median: Option<real>, m: real)
    requires t >= 5.0 && InRange(fcd)
    ensures Moves(run, ended, t, fcd, median, m, UpdateMean(run, ended, t, fcd, m, median))
  {
    WeightAndTarget(run, t, m);
    WeightAndTarget(ended, t, m);
    hide StreakRatio, StreakWeight, Share, Weight, Target, CalculateRunningMean, Pulled, Max, Min;
    WeightedMeanPulls(t, m, StreakWeight(run, t), Max(m, Min(1.0, StreakRatio(run, t))));
    WeightedMeanPulls(5.0, m, 10.0, 1.0);
    if fcd.Some? {
      WeightedMeanPulls(t, m, fcd.value, StreakRatio(ended, t));
      WeightedMeanPulls(5.0, m, fcd.value, 0.0);
    }
  }

  /** How momentum scales the mean, with the part it keeps, and what becomes of its parameter: below 6 vehicles, and
      not far below a known median, the mean keeps the part exp(-k (1 - run / window)), where the run is that of low
      readings and the window is half the low threshold of the row before, a missing one or one below 5 counting as
      5. A zero resets k, an event doubles it up to 10 if the one before it lies within the window. */
  ghost predicate Fades(exp: real -> real, run: nat, before: nat, low: Option<real>, fcd: Fcd, median: Option<real>,
                        k: real, next: real, part: real)
  {
    var window := 0.5 * (if low.None? || low.value < 5.0 then 5.0 else low.value);
    if fcd.Some? && fcd.value < 6.0 && median.Some? && median.value - fcd.value <= 8.0 then
      && next == (if fcd.value == 0.0 then 0.025
                  else if run == 0 && before as real <= window then (if 2.0 * k > 10.0 then 10.0 else 2.0 * k)
                  else k)
      && part == exp(-next * (if run as real >= window then 0.0 else 1.0 - run as real / window))
    else
      next == k && part == 1.0
  }

  lemma {:induction false} MatchedPair(readings: seq<Reading>, profile: Profile, i: nat)
    requires ReadingsInRange(readings) && 0 < i < |readings|
    ensures var rows := MatchedRows(readings, profile);
            var p, q := ProfileAt(profile, readings[i].hourOfWeek), ProfileAt(profile, readings[i - 1].hourOfWeek);
            && rows[i] == Row(readings[i].fcd, Some(ZeroRun(Series(readings), i + 1)),
                              Some(LowRun(Series(readings), i + 1)), p.zerosQ95, p.lowQ95, p.fcdMeanMedian)
            && rows[i - 1] == Row(readings[i - 1].fcd, Some(ZeroRun(Series(readings), i)),
                                  Some(LowRun(Series(readings), i)), q.zerosQ95, q.lowQ95, q.fcdMeanMedian)
  {
    hide ZeroRun, LowRun;
  }

  lemma {:induction false} JudgedAs(readings: seq<Reading>, profile: Profile, i: nat)
    requires ReadingsInRange(readings) && 0 < i < |readings|
    ensures var rows, hour := MatchedRows(readings, profile), readings[i].hourOfWeek;
            && CurrentStreak(rows[i], rows[i - 1]) == JudgedRun(readings, profile, hour, i + 1)
            && PreviousStreak(rows[i], rows[i - 1]) == JudgedRun(readings, profile, hour, i)
            && Threshold(rows[i], rows[i - 1]) == Judging(profile, readings[i - 1].hourOfWeek, hour)
  {
    MatchedPair(readings, profile, i);
    hide ZeroRun, LowRun, MatchedRows;
  }

  lemma {:induction false} MomentumFades(exp: real -> real, previous: Row, row: Row, k: real)
    requires row.consecutiveLow.Some? && previous.consecutiveLow.Some?
    ensures Fades(exp, row.consecutiveLow.value, previous.consecutiveLow.value, previous.lowQ95, row.fcd,
                  row.fcdMeanMedian, k, MomentumK(previous, row, k), Alpha(exp, previous, row, k))
  {
    EchoIs(row.consecutiveLow.value, DecayWindow(previous.lowQ95));
    hide Echo;
  }

  lemma {:induction false} EchoIs(run: nat, window: real)
    requires window > 0.0
    ensures Echo(Some(run), window) == if run as real >= window then 0.0 else 1.0 - run as real / window
  {
    var e, q := (window - run as real) / window, run as real / window;
    QuotientsDiffer(run as real, window, window);
    assert window / window == 1.0;
    assert q * window == run as real;
    if run as real >= window && q < 1.0 {
      ScaledBetween(window, q, q, 1.0);
      assert false;
    }
    if (run as real) < window && q >= 1.0 {
      ScaledBetween(window, q, 1.0, q);
      assert false;
    }
  }

  lemma {:induction false} BaseMoves(readings: seq<Reading>, profile: Profile, i: nat, m: real)
    requires ReadingsInRange(readings) && 0 < i < |readings|
    ensures var rows, hour := MatchedRows(readings, profile), readings[i].hourOfWeek;
            Moves(JudgedRun(readings, profile, hour, i + 1), JudgedRun(readings, profile, hour, i),
                  Judging(profile, readings[i - 1].hourOfWeek, hour), readings[i].fcd,
                  ProfileAt(profile, hour).fcdMeanMedian, m, BaseMean(rows[i - 1], rows[i], m))
  {
    var rows := MatchedRows(readings, profile);
    MatchedPair(readings, profile, i);
    JudgedAs(readings, profile, i);
    hide Moves, MatchedRows, UpdateMean, CurrentStreak, PreviousStreak, Threshold, ZeroRun, LowRun, JudgedRun, Judging,
         ProfileAt;
    UpdateMoves(CurrentStreak(rows[i], rows[i - 1]), PreviousStreak(rows[i], rows[i - 1]),
                Threshold(rows[i], rows[i - 1]), rows[i].fcd, rows[i].fcdMeanMedian, m);
  }

  lemma {:induction false} AlphaFades(exp: real -> real, readings: seq<Reading>, profile: Profile, i: nat, k: real)
    requires ReadingsInRange(readings) && 0 < i < |readings|
    ensures var rows, hour := MatchedRows(readings, profile), readings[i].hourOfWeek;
            Fades(exp, LowRun(Series(readings), i + 1), LowRun(Series(readings), i),
                  ProfileAt(profile, readings[i - 1].hourOfWeek).lowQ95, readings[i].fcd,
                  ProfileAt(profile, hour).fcdMeanMedian, k, MomentumK(rows[i - 1], rows[i], k),
                  Alpha(exp, rows[i - 1], rows[i], k))
  {
    var rows := MatchedRows(readings, profile);
    MatchedPair(readings, profile, i);
    hide Fades, MatchedRows, Alpha, MomentumK, ZeroRun, LowRun, ProfileAt;
    MomentumFades(exp, rows[i - 1], rows[i], k);
  }

  /** What one reading of a call does, whatever the mean and the momentum before it: the mean moves as its streaks
      and the profile say, and momentum keeps a part of it. */
  lemma {:induction false} ReadingMovesAndFades(exp: real -> real, readings: seq<Reading>, profile: Profile, i: nat,
                                                m: real, k: real)
    returns (base: Option<real>, part: real)
    requires ReadingsInRange(readings) && 0 < i < |readings|
    ensures var hour, before := readings[i].hourOfWeek, readings[i - 1].hourOfWeek;
            Moves(JudgedRun(readings, profile, hour, i + 1), JudgedRun(readings, profile, hour, i),
                  Judging(profile, before, hour), readings[i].fcd, ProfileAt(profile, hour).fcdMeanMedian, m, base)
    ensures var rows := MatchedRows(readings, profile);
            Fades(exp, LowRun(Series(readings), i + 1), LowRun(Series(readings), i),
                  ProfileAt(profile, readings[i - 1].hourOfWeek).lowQ95, readings[i].fcd,
                  ProfileAt(profile, readings[i].hourOfWeek).fcdMeanMedian, k,
                  Step(exp, rows[i - 1], rows[i], State(Some(m), k)).k, part)
    ensures var rows := MatchedRows(readings, profile);
            var mean := Step(exp, rows[i - 1], rows[i], State(Some(m), k)).mean;
            mean.Some? == base.Some? && (base.Some? ==> mean.value == base.value * part)
  {
    var rows := MatchedRows(readings, profile);
    base, part := BaseMean(rows[i - 1], rows[i], m), Alpha(exp, rows[i - 1], rows[i], k);
    assert InRange(rows[i].fcd);
    hide *;
    BaseMoves(readings, profile, i, m);
    AlphaFades(exp, readings, profile, i, k);
    StepIsDampedBase(exp, rows[i - 1], rows[i], State(Some(m), k));
    if base.Some? {
      assert Step(exp, rows[i - 1], rows[i], State(Some(m), k)).mean == Some(Damped(base.value, part));
      DampedIs(base.value, part);
    }
  }

  lemma {:induction false} DampedIs(x: real, y: real)
    ensures Damped(x, y) == x * y
  {
  }
}
