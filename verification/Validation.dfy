/**
 One validation call (lib/idea/validation/validation.py): counters, then the profile of the hour of
 week, then the status. Chains of calls hand the last row on.
 */
module Validation {
  import opened Wrappers
  import opened CoverageCounters
  import opened RoadStatus
  import opened RunningMeanProperties

  /** A reading and the hour of week (0..167) of its timestamp. */
  datatype Reading = Reading(hourOfWeek: nat, fcd: Fcd)

  datatype ProfileRow = ProfileRow(zerosQ95: Option<real>, lowQ95: Option<real>, fcdMeanMedian: Option<real>)

  type Profile = map<nat, ProfileRow>

  datatype ValidatedRow = ValidatedRow(row: Row, runningMean: Option<real>, status: Status)

  function Series(readings: seq<Reading>): (s: seq<Fcd>)
    ensures |s| == |readings|
  {
    seq(|readings|, i requires 0 <= i < |readings| => readings[i].fcd)
  }

  /** The left join: an hour without a profile row gets missing thresholds. */
  function ProfileAt(profile: Profile, hourOfWeek: nat): ProfileRow {
    if hourOfWeek in profile then profile[hourOfWeek] else ProfileRow(None, None, None)
  }

  function Join(reading: Reading, zeros: nat, low: nat, profile: Profile): Row {
    var p := ProfileAt(profile, reading.hourOfWeek);
    Row(reading.fcd, Some(zeros), Some(low), p.zerosQ95, p.lowQ95, p.fcdMeanMedian)
  }

  function MatchNoCoverageProfile(readings: seq<Reading>, zeros: seq<nat>, low: seq<nat>, profile: Profile): seq<Row>
    requires |zeros| == |low| == |readings|
  {
    seq(|readings|, i requires 0 <= i < |readings| => Join(readings[i], zeros[i], low[i], profile))
  }

  ghost predicate ReadingsInRange(readings: seq<Reading>) {
    forall i :: 0 <= i < |readings| ==> InRange(readings[i].fcd)
  }

  /** The matched rows of a call, each with the runs that end at its reading. */
  ghost function MatchedRows(readings: seq<Reading>, profile: Profile): (rows: seq<Row>)
    requires ReadingsInRange(readings)
    ensures |rows| == |readings| && AllInRange(rows)
  {
    seq(|readings|, i requires 0 <= i < |readings| =>
      Join(readings[i], ZeroRun(Series(readings), i + 1), LowRun(Series(readings), i + 1), profile))
  }

  /** The running means of a call. */
  ghost function CallMeans(exp: real -> real, readings: seq<Reading>, profile: Profile, last: Option<LastValidation>)
    : (means: seq<Option<real>>)
    requires ReadingsInRange(readings)
    ensures |means| == |readings|
  {
    RunningMeans(exp, MatchedRows(readings, profile), last)
  }

  lemma SeriesInRange(readings: seq<Reading>)
    ensures ReadingsInRange(readings) <==> forall i :: 0 <= i < |Series(readings)| ==> InRange(Series(readings)[i])
  {
    assert forall i :: 0 <= i < |readings| ==> Series(readings)[i] == readings[i].fcd;
  }

  lemma MatchedFromCounters(readings: seq<Reading>, zeros: seq<nat>, low: seq<nat>, profile: Profile)
    requires ReadingsInRange(readings) && |zeros| == |low| == |readings|
    requires forall i :: 0 <= i < |readings| ==> zeros[i] == ZeroRun(Series(readings), i + 1)
    requires forall i :: 0 <= i < |readings| ==> low[i] == LowRun(Series(readings), i + 1)
    ensures MatchNoCoverageProfile(readings, zeros, low, profile) == MatchedRows(readings, profile)
  {
    hide ZeroRun, LowRun, Join;
  }

  lemma CallMeansUnfold(exp: real -> real, readings: seq<Reading>, profile: Profile, last: Option<LastValidation>)
    requires ReadingsInRange(readings)
    ensures CallMeans(exp, readings, profile, last) == RunningMeans(exp, MatchedRows(readings, profile), last)
  {
  }

  method ValidateRoadwork(exp: real -> real, readings: seq<Reading>, profile: Profile, last: Option<LastValidation>)
    returns (r: Result<seq<ValidatedRow>, real>)
    ensures r.Ok? <==> ReadingsInRange(readings)
    ensures r.Ok? ==> |r.value| == |readings|
    ensures r.Ok? ==> forall i :: 0 <= i < |readings| ==>
                        var mean := CallMeans(exp, readings, profile, last)[i];
                        r.value[i] == ValidatedRow(MatchedRows(readings, profile)[i], mean, ClosureStatus(mean))
  {
    var series := Series(readings);
    SeriesInRange(readings);
    hide *;
    var counters := CalculateMinutesNoCoverage(series);
    if counters.Err? {
      return Err(counters.error);
    }
    var rows := MatchNoCoverageProfile(readings, counters.value.0, counters.value.1, profile);
    MatchedFromCounters(readings, counters.value.0, counters.value.1, profile);
    var means, statuses := DetermineRoadStatusByMinute(exp, rows, last);
    assert means == CallMeans(exp, readings, profile, last) by {
      CallMeansUnfold(exp, readings, profile, last);
    }
    r := Ok(seq(|rows|, i requires 0 <= i < |rows| => ValidatedRow(rows[i], means[i], statuses[i])));
  }

  /** What the next call gets as its reference; an empty call leaves the old one in place. */
  ghost function NextLast(exp: real -> real, readings: seq<Reading>, profile: Profile, last: Option<LastValidation>)
    : Option<LastValidation>
    requires ReadingsInRange(readings)
  {
    if readings == [] then last else LastOf(exp, MatchedRows(readings, profile), last)
  }

  /** No row of any of the consecutive calls is classified as closed. */
  ghost predicate NeverClosed(exp: real -> real, calls: seq<seq<Reading>>, profile: Profile,
                              last: Option<LastValidation>)
    requires forall c :: c in calls ==> ReadingsInRange(c)
    decreases |calls|
  {
    calls != [] ==>
      && (forall i :: 0 <= i < |calls[0]| ==> ClosureStatus(CallMeans(exp, calls[0], profile, last)[i]) != Closed)
      && NeverClosed(exp, calls[1..], profile, NextLast(exp, calls[0], profile, last))
  }
}
