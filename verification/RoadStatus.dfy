/**
 The running mean of the validation (lib/idea/validation/util.py): one step per matched row, the
 momentum factor and its parameter k, the loop over the rows and the classification.
 Reals stand for the source's floats; None stands for NaN and propagates as NaN does.
 */
module RoadStatus {
  import opened Wrappers
  import opened IdeaConstants
  import opened CoverageCounters

  /** A row of the data frame after the profile has been merged in. */
  datatype Row = Row(fcd: Fcd,
                     consecutiveZeros: Option<nat>, consecutiveLow: Option<nat>,
                     zerosQ95: Option<real>, lowQ95: Option<real>,
                     fcdMeanMedian: Option<real>)

  datatype State = State(mean: Option<real>, k: real)

  datatype Status = Open | Closed | Undetermined

  /** What the model assumes of math.exp. */
  ghost predicate IsExp(exp: real -> real) {
    && exp(0.0) == 1.0
    && (forall x :: exp(x) > 0.0)
    && (forall x, y :: x < y ==> exp(x) < exp(y))
  }

  lemma DecayFactorInUnitInterval(exp: real -> real, x: real)
    requires IsExp(exp) && x <= 0.0
    ensures 0.0 < exp(x) <= 1.0
  {
  }

  function Max(x: real, y: real): real { if y > x then y else x }
  function Min(x: real, y: real): real { if y < x then y else x }

  // ---------------------------------------------------------------- one row

  function HandleProfileValue(profileValue: Option<real>): (v: real)
    ensures v >= MINIMUM_PROFILE_VALUE
  {
    if profileValue.None? then MISSING_PROFILE_VALUE else Max(profileValue.value, MINIMUM_PROFILE_VALUE)
  }

  function Sanitize(minNoCov: Option<nat>): nat {
    if minNoCov.None? then 0 else minNoCov.value
  }

  /** A sparse slot (median below the threshold) is judged by its zero streak, any other by its low
      streak; a missing median compares false and selects the low streak. */
  predicate JudgedByZeros(row: Row) {
    row.fcdMeanMedian.Some? && row.fcdMeanMedian.value < COV_THRESHOLD_ZEROS_OR_ONE_VALUE
  }

  function DetermineCoverageProfileValue(row: Row, previous: Row): (Option<nat>, Option<nat>, Option<real>) {
    if JudgedByZeros(row) then (row.consecutiveZeros, previous.consecutiveZeros, previous.zerosQ95)
    else (row.consecutiveLow, previous.consecutiveLow, previous.lowQ95)
  }

  function CurrentStreak(row: Row, previous: Row): nat {
    Sanitize(DetermineCoverageProfileValue(row, previous).0)
  }

  function PreviousStreak(row: Row, previous: Row): nat {
    Sanitize(DetermineCoverageProfileValue(row, previous).1)
  }

  function Threshold(row: Row, previous: Row): (v: real)
    ensures v >= MINIMUM_PROFILE_VALUE
  {
    HandleProfileValue(DetermineCoverageProfileValue(row, previous).2)
  }

  function CalculateRunningMean(profileValue: real, prevMean: real, covWeight: real, res: real): real
    requires profileValue + covWeight != 0.0
  {
    (profileValue * prevMean + covWeight * res) / (profileValue + covWeight)
  }

  function StreakRatio(streak: nat, profileValue: real): real
    requires profileValue > 0.0
  {
    (streak as real) / (2.0 * profileValue)
  }

  /** Weight of a streak: never below that of one reading, quadratic in the streak. */
  function StreakWeight(streak: nat, profileValue: real): (w: real)
    requires profileValue > 0.0
    ensures w >= 1.0
  {
    Max(1.0, StreakRatio(streak, profileValue) * StreakRatio(streak, profileValue))
  }

  /** median - coverage > limit, false as soon as one side is missing */
  predicate SuddenDrop(median: Option<real>, coverage: Fcd) {
    median.Some? && coverage.Some? && median.value - coverage.value > COV_DROP_LIMIT
  }

  predicate Busy(coverage: Fcd) {
    coverage.Some? && coverage.value > COV_HIGH
  }

  /** The five-branch weighted mean for a known previous mean; None when a missing reading enters
      the arithmetic. */
  function UpdateMean(minNoCov: nat, prevMinNoCov: nat, profileValue: real, coverage: Fcd, prevMean: real,
                      median: Option<real>): Option<real>
    requires profileValue >= MINIMUM_PROFILE_VALUE && InRange(coverage)
  {
    if profileValue > MAX_PROFILE_VALUE && minNoCov as real > profileValue then
      Some(prevMean)
    else if minNoCov == 0 && prevMinNoCov as real < profileValue then
      if coverage.None? then None
      else Some(CalculateRunningMean(profileValue, prevMean, coverage.value, StreakRatio(prevMinNoCov, profileValue)))
    else if minNoCov != 0 then
      var res := Max(prevMean, Min(1.0, StreakRatio(minNoCov, profileValue)));
      Some(CalculateRunningMean(profileValue, prevMean, StreakWeight(minNoCov, profileValue), res))
    else if SuddenDrop(median, coverage) then
      Some(CalculateRunningMean(MINIMUM_PROFILE_VALUE, prevMean, 10.0, 1.0))
    else if Busy(coverage) then
      Some(CalculateRunningMean(MINIMUM_PROFILE_VALUE, prevMean, coverage.value, 0.0))
    else
      Some(prevMean)
  }

  function UpdateK(k: real, coverage: real, currentLow: Option<nat>, previousLow: Option<nat>,
                   decayWindow: real): real {
    if coverage == 0.0 then K_START
    else if currentLow == Some(0) && previousLow.Some? && previousLow.value as real <= decayWindow then
      Min(K_MAX, k * 2.0)
    else k
  }

  function DecayWindow(lowQ95: Option<real>): (w: real)
    ensures w >= DECAY_PARAM * MINIMUM_PROFILE_VALUE > 0.0
  {
    DECAY_PARAM * (if lowQ95.None? then MINIMUM_PROFILE_VALUE else Max(lowQ95.value, MINIMUM_PROFILE_VALUE))
  }

  /** max(0.0, NaN) is 0.0 in the source's argument order, hence no echo for a missing streak. */
  function Echo(currentLow: Option<nat>, decayWindow: real): (e: real)
    requires decayWindow > 0.0
    ensures e >= 0.0
  {
    if currentLow.None? then 0.0
    else Max(0.0, (decayWindow - currentLow.value as real) / decayWindow)
  }

  predicate MomentumApplies(coverage: Fcd, median: Option<real>) {
    && coverage.Some? && coverage.value < COV_HIGH
    && median.Some? && median.value - coverage.value <= COV_DROP_LIMIT
  }

  function MomentumK(previous: Row, row: Row, k: real): real {
    if MomentumApplies(row.fcd, row.fcdMeanMedian) then
      UpdateK(k, row.fcd.value, row.consecutiveLow, previous.consecutiveLow, DecayWindow(previous.lowQ95))
    else k
  }

  /** The momentum factor of a row, 1 where momentum does not apply. */
  function Alpha(exp: real -> real, previous: Row, row: Row, k: real): real {
    if MomentumApplies(row.fcd, row.fcdMeanMedian) then
      exp(-MomentumK(previous, row, k) * Echo(row.consecutiveLow, DecayWindow(previous.lowQ95)))
    else 1.0
  }

  /** The mean under the momentum factor. */
  function Damped(mean: real, alpha: real): real { mean * alpha }

  function BaseMean(previous: Row, row: Row, mean: real): Option<real>
    requires InRange(row.fcd)
  {
    UpdateMean(CurrentStreak(row, previous), PreviousStreak(row, previous), Threshold(row, previous),
               row.fcd, mean, row.fcdMeanMedian)
  }

  function StepMean(exp: real -> real, previous: Row, row: Row, mean: Option<real>, k: real): Option<real>
    requires InRange(row.fcd)
  {
    if mean.None? then None else
      var base := BaseMean(previous, row, mean.value);
      if base.None? then None else Some(Damped(base.value, Alpha(exp, previous, row, k)))
  }

  function Step(exp: real -> real, previous: Row, row: Row, s: State): State
    requires InRange(row.fcd)
  {
    State(StepMean(exp, previous, row, s.mean, s.k), MomentumK(previous, row, s.k))
  }

  // ---------------------------------------------------------------- all rows

  ghost predicate AllInRange(rows: seq<Row>) {
    forall i :: 0 <= i < |rows| ==> InRange(rows[i].fcd)
  }

  /** State after each row, when `previous` precedes the first one. */
  ghost function States(exp: real -> real, previous: Row, s: State, rows: seq<Row>): (r: seq<State>)
    requires AllInRange(rows)
    ensures |r| == |rows|
    decreases |rows|
  {
    if rows == [] then [] else
      var next := Step(exp, previous, rows[0], s);
      [next] + States(exp, rows[0], next, rows[1..])
  }

  ghost function Means(states: seq<State>): seq<Option<real>> {
    seq(|states|, i requires 0 <= i < |states| => states[i].mean)
  }

  /** The running means of a run that starts from `previous` with the state s. */
  ghost function MeansFrom(exp: real -> real, previous: Row, s: State, rows: seq<Row>): (r: seq<Option<real>>)
    requires AllInRange(rows)
    ensures |r| == |rows|
  {
    Means(States(exp, previous, s, rows))
  }

  lemma MeansUnfold(exp: real -> real, previous: Row, s: State, rows: seq<Row>, i: nat)
    requires AllInRange(rows) && i < |rows|
    ensures AllInRange(rows[i..]) && AllInRange(rows[i + 1..])
    ensures var next := Step(exp, previous, rows[i], s);
            MeansFrom(exp, previous, s, rows[i..]) == [next.mean] + MeansFrom(exp, rows[i], next, rows[i + 1..])
  {
    assert rows[i..][0] == rows[i] && rows[i..][1..] == rows[i + 1..];
  }

  /** Final row and running mean of an earlier call. */
  datatype LastValidation = LastValidation(row: Row, mean: Option<real>)

  /** The running means of one call. Without an earlier call the first row only seeds the recurrence. */
  ghost function RunningMeans(exp: real -> real, rows: seq<Row>, last: Option<LastValidation>): (r: seq<Option<real>>)
    requires AllInRange(rows)
    ensures |r| == |rows|
  {
    match last
    case Some(v) => MeansFrom(exp, v.row, State(v.mean, K_START), rows)
    case None =>
      if rows == [] then []
      else [Some(INITIAL_RUNNING_MEAN)]
           + MeansFrom(exp, rows[0], State(Some(INITIAL_RUNNING_MEAN), K_START), rows[1..])
  }

  /** NaN compares false with both limits. */
  function ClosureStatus(mean: Option<real>): Status {
    if mean.None? then Undetermined
    else if mean.value < OPEN_LIMIT then Open
    else if mean.value > CLOSED_LIMIT then Closed
    else Undetermined
  }

  method SetSegmentClosureStatus(runningMeans: seq<Option<real>>) returns (statuses: seq<Status>)
    ensures |statuses| == |runningMeans|
    ensures forall i :: 0 <= i < |statuses| ==> statuses[i] == ClosureStatus(runningMeans[i])
    ensures forall i :: 0 <= i < |statuses| ==>
              && (statuses[i] == Open <==> runningMeans[i].Some? && runningMeans[i].value < 0.15)
              && (statuses[i] == Closed <==> runningMeans[i].Some? && runningMeans[i].value > 0.75)
  {
    statuses := [];
    for i := 0 to |runningMeans|
      invariant |statuses| == i
      invariant forall j :: 0 <= j < i ==> statuses[j] == ClosureStatus(runningMeans[j])
    {
      statuses := statuses + [ClosureStatus(runningMeans[i])];
    }
  }

  method DetermineRoadStatusByMinute(exp: real -> real, rows: seq<Row>, last: Option<LastValidation>)
    returns (runningMeans: seq<Option<real>>, statuses: seq<Status>)
    requires AllInRange(rows)
    ensures runningMeans == RunningMeans(exp, rows, last)
    ensures |statuses| == |rows|
    ensures forall i :: 0 <= i < |rows| ==> statuses[i] == ClosureStatus(runningMeans[i])
  {
    hide MeansFrom, StepMean, MomentumK;
    var prevRunningMean: Option<real> := Some(INITIAL_RUNNING_MEAN);
    var k := K_START;
    var previousRow: Option<Row> := None;
    runningMeans := [];
    if last.Some? {
      prevRunningMean := last.value.mean;
      previousRow := Some(last.value.row);
    }
    for i := 0 to |rows|
      invariant |runningMeans| == i
      invariant previousRow.None? ==>
        i == 0 && last.None? && prevRunningMean == Some(INITIAL_RUNNING_MEAN) && k == K_START
      invariant previousRow.Some? ==>
        RunningMeans(exp, rows, last)
        == runningMeans + MeansFrom(exp, previousRow.value, State(prevRunningMean, k), rows[i..])
    {
      var row := rows[i];
      if previousRow.None? {
        runningMeans := runningMeans + [prevRunningMean];
      } else {
        MeansUnfold(exp, previousRow.value, State(prevRunningMean, k), rows, i);
        prevRunningMean := StepMean(exp, previousRow.value, row, prevRunningMean, k);
        k := MomentumK(previousRow.value, row, k);
        runningMeans := runningMeans + [prevRunningMean];
      }
      previousRow := Some(row);
    }
    if previousRow.Some? {
      assert |MeansFrom(exp, previousRow.value, State(prevRunningMean, k), rows[|rows|..])| == 0;
    }
    statuses := SetSegmentClosureStatus(runningMeans);
  }
}
