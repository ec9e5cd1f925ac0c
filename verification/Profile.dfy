/**
 The traffic profile of a segment (lib/idea/profile/util.py, profile.py): hourly streak statistics,
 their 95% quantiles per hour of week, masking of unusable hours and filling of missing values.
 */
module Profile {
  import opened Wrappers
  import opened IdeaConstants
  import opened Numbers
  import opened CoverageCounters
  import opened Sorting
  import Validation

  const TICKS_PER_HOUR := 12 // readings are 5 minutes apart
  const HOURS_PER_WEEK := 168
  const STREAK_LIMIT := 60.0

  /** One hour of aggregated readings; a masked hour has no streak statistics. */
  datatype Hour = Hour(hour: nat, fcdMean: real, maxZeros: Option<nat>, maxLow: Option<nat>)

  // ---------------------------------------------------------------- hourly aggregation

  /** The whole part of a number, towards zero. */
  function Truncate(x: real): int {
    if x < 0.0 then -(-x).Floor else x.Floor
  }

  /** Missing readings count as zero; the cast to an integer column drops the fraction. */
  function FillWithZero(fcd: Fcd): Fcd {
    if fcd.None? then Some(0.0) else Some(Truncate(fcd.value) as real)
  }

  function FillNanWithZeros(series: seq<Fcd>): (r: seq<Fcd>)
    ensures |r| == |series|
  {
    seq(|series|, i requires 0 <= i < |series| => FillWithZero(series[i]))
  }

  function Sum(series: seq<Fcd>): real {
    if series == [] then 0.0 else (if series[0].None? then 0.0 else series[0].value) + Sum(series[1..])
  }

  function AggregateHour(hour: nat, series: seq<Fcd>): Hour
    requires series != []
  {
    Hour(hour, Sum(series) / |series| as real, Some(MaxConsecutiveZeros(series)),
         Some(MaxConsecutiveZerosOrOnes(series)))
  }

  /** Consecutive 5-minute readings from tick `start`, cut at the full hours. */
  function AggregateByHour(start: nat, series: seq<Fcd>): seq<Hour>
    decreases |series|
  {
    if series == [] then [] else
      var n := Smaller(|series|, TICKS_PER_HOUR - start % TICKS_PER_HOUR);
      [AggregateHour(start / TICKS_PER_HOUR, series[..n])] + AggregateByHour(start + n, series[n..])
  }

  // ---------------------------------------------------------------- masking of long quiet runs

  function Repeat(b: bool, n: nat): (s: seq<bool>)
    ensures |s| == n
  {
    seq(n, _ => b)
  }

  /** True on the maximal runs of true flags of length n or more. */
  function LargeTrueGroups(flags: seq<bool>, n: nat): (mask: seq<bool>)
    ensures |mask| == |flags|
    decreases |flags|
  {
    if flags == [] then [] else
      var run := LeadingRun(flags, flags[0]);
      assert run > 0;
      Repeat(flags[0] && run >= n, run) + LargeTrueGroups(flags[run..], n)
  }

  ghost predicate StreakThrough(flags: seq<bool>, i: nat, start: int, len: nat) {
    start <= i < start + len && Streak(flags, start, len)
  }

  ghost predicate InLongStreak(flags: seq<bool>, i: nat, n: nat) {
    exists start: int, len: nat :: len >= n && StreakThrough(flags, i, start, len)
  }

  /** A window of true flags never straddles the end of the leading run. */
  lemma StreakOnOneSide(flags: seq<bool>, start: int, len: nat)
    requires flags != [] && len > 0 && Streak(flags, start, len)
    ensures start + len <= LeadingRun(flags, flags[0]) || start >= LeadingRun(flags, flags[0])
    ensures start < LeadingRun(flags, flags[0]) ==> flags[0]
  {
    var run := LeadingRun(flags, flags[0]);
    var first := flags[start];
    assert run < |flags| ==> flags[run] != flags[0];
    if start < run < start + len {
      assert false;
    }
  }

  lemma StreakShift(flags: seq<bool>, run: nat, start: int, len: nat)
    requires run <= |flags|
    ensures start >= 0 && Streak(flags, start + run, len) ==> Streak(flags[run..], start, len)
    ensures Streak(flags[run..], start, len) ==> Streak(flags, start + run, len)
  {
    var rest := flags[run..];
    assert forall j :: 0 <= j < |rest| ==> rest[j] == flags[j + run];
    assert forall j :: run <= j < |flags| ==> flags[j] == rest[j - run];
  }

  lemma InLongStreakDropRun(flags: seq<bool>, i: nat, n: nat)
    requires flags != [] && LeadingRun(flags, flags[0]) <= i < |flags|
    ensures var run := LeadingRun(flags, flags[0]);
            InLongStreak(flags, i, n) <==> InLongStreak(flags[run..], i - run, n)
  {
    hide Streak, LeadingRun;
    var run := LeadingRun(flags, flags[0]);
    var rest, k := flags[run..], i - run;
    if InLongStreak(rest, k, n) {
      var start: int, len: nat :| len >= n && StreakThrough(rest, k, start, len);
      StreakShift(flags, run, start, len);
      assert StreakThrough(flags, i, start + run, len);
      assert InLongStreak(flags, i, n);
    }
    if InLongStreak(flags, i, n) {
      var start: int, len: nat :| len >= n && StreakThrough(flags, i, start, len);
      StreakOnOneSide(flags, start, len);
      StreakShift(flags, run, start - run, len);
      assert StreakThrough(rest, k, start - run, len);
      assert InLongStreak(rest, k, n);
    }
  }

  /** A row is masked exactly when it lies in a run of at least n true flags. */
  lemma {:induction false} MaskIsLongStreaks(flags: seq<bool>, n: nat, i: nat)
    requires i < |flags|
    ensures LargeTrueGroups(flags, n)[i] <==> InLongStreak(flags, i, n)
    decreases |flags|
  {
    var run := LeadingRun(flags, flags[0]);
    if i < run {
      if flags[0] && run >= n {
        assert StreakThrough(flags, i, 0, run);
      }
      if start: int, len: nat :| len >= n && StreakThrough(flags, i, start, len) {
        StreakOnOneSide(flags, start, len);
      }
    } else {
      MaskIsLongStreaks(flags[run..], n, i - run);
      InLongStreakDropRun(flags, i, n);
    }
  }

  function QuietHours(hours: seq<Hour>): (r: seq<bool>)
    ensures |r| == |hours|
  {
    seq(|hours|, i requires 0 <= i < |hours| => hours[i].maxLow == Some(CONSECUTIVE_60_MINUTES))
  }

  function FilterMaxConsecutive60(hours: seq<Hour>): (r: seq<Hour>)
    ensures |r| == |hours|
  {
    var mask := LargeTrueGroups(QuietHours(hours), MINIMUM_HOURS_NO_TRAFFIC_FOR_PROFILE);
    seq(|hours|, i requires 0 <= i < |hours| =>
      if mask[i] then hours[i].(maxZeros := None, maxLow := None) else hours[i])
  }

  // ---------------------------------------------------------------- quantiles per hour of week

  function Interpolate(a: real, b: real, f: real): real {
    a + (b - a) * f
  }

  /** Linear interpolation at position 0.95 (n - 1) of the sorted values. */
  function Quantile95(values: seq<real>): Option<real> {
    if values == [] then None else
      var s := Sort(values);
      var position := 0.95 * (|s| - 1) as real;
      var lo := position.Floor;
      var frac := position - lo as real;
      assert 0 <= lo <= |s| - 1;
      if lo + 1 < |s| then Some(Interpolate(s[lo], s[lo + 1], frac)) else Some(s[lo])
  }

  function Median(values: seq<real>): Option<real> {
    if values == [] then None else
      var s, h := Sort(values), |values| / 2;
      if |s| % 2 == 1 then Some(s[h]) else Some((s[h - 1] + s[h]) / 2.0)
  }

  function Round1(x: real): real {
    RoundHalfEven(10.0 * x) as real / 10.0
  }

  function RoundOption(x: Option<real>): Option<real> {
    if x.None? then None else Some(Round1(x.value))
  }

  function HoursAt(hours: seq<Hour>, hourOfWeek: nat): seq<Hour> {
    if hours == [] then [] else
      (if hours[0].hour % HOURS_PER_WEEK == hourOfWeek then [hours[0]] else []) + HoursAt(hours[1..], hourOfWeek)
  }

  function Known(column: seq<Option<nat>>): seq<real> {
    if column == [] then [] else
      (if column[0].Some? then [column[0].value as real] else []) + Known(column[1..])
  }

  function ZerosColumn(hours: seq<Hour>): seq<Option<nat>> {
    seq(|hours|, i requires 0 <= i < |hours| => hours[i].maxZeros)
  }

  function LowColumn(hours: seq<Hour>): seq<Option<nat>> {
    seq(|hours|, i requires 0 <= i < |hours| => hours[i].maxLow)
  }

  function MeanColumn(hours: seq<Hour>): (r: seq<real>)
    ensures |r| == |hours|
  {
    seq(|hours|, i requires 0 <= i < |hours| => hours[i].fcdMean)
  }

  /** One row of the profile: the three statistics of an hour of week, rounded to one decimal. */
  function AggregateHourOfWeek(hours: seq<Hour>): Validation.ProfileRow {
    Validation.ProfileRow(RoundOption(Quantile95(Known(ZerosColumn(hours)))),
                          RoundOption(Quantile95(Known(LowColumn(hours)))),
                          RoundOption(Median(MeanColumn(hours))))
  }

  const NO_DATA := Validation.ProfileRow(None, None, None)

  function FilterLowAvailability(row: Validation.ProfileRow, numberOfHours: nat, minimum: nat): Validation.ProfileRow {
    if numberOfHours < minimum then NO_DATA else row
  }

  function FillMissingValues(row: Validation.ProfileRow): Validation.ProfileRow {
    Validation.ProfileRow(
      Some(if row.zerosQ95.None? then Q95_REPLACEMENT_VALUE else row.zerosQ95.value),
      Some(if row.lowQ95.None? then Q95_REPLACEMENT_VALUE else row.lowQ95.value),
      Some(if row.fcdMeanMedian.None? then FCD_MEAN_MEDIAN_REPLACEMENT_VALUE else row.fcdMeanMedian.value))
  }

  /** The hours of week that occur in the data. */
  function Slots(hours: seq<Hour>): set<nat> {
    set h | h in hours :: h.hour % HOURS_PER_WEEK
  }

  function UnfilledRow(hours: seq<Hour>, minimumWeeks: nat, slot: nat): Validation.ProfileRow {
    var group := HoursAt(hours, slot);
    FilterLowAvailability(AggregateHourOfWeek(group), |group|, minimumWeeks)
  }

  /** Slots whose zero quantile is acceptable; a missing one does not count. */
  function UsefulSlots(hours: seq<Hour>, minimumWeeks: nat): set<nat> {
    set slot | slot in Slots(hours) &&
               var z := UnfilledRow(hours, minimumWeeks, slot).zerosQ95;
               z.Some? && z.value < MAX_ACCEPTABLE_CONSECUTIVE_ZEROS_Q95
  }

  datatype ProfileError = NotEnoughData(useful: nat)

  function CalculateProfileFromHourly(hours: seq<Hour>, minimumWeeks: nat): Result<Validation.Profile, ProfileError> {
    var filtered := FilterMaxConsecutive60(hours);
    var useful := |UsefulSlots(filtered, minimumWeeks)|;
    if useful < THRESHOLD_OF_USEFUL_DATA_PROFILE then Err(NotEnoughData(useful))
    else Ok(map slot | slot in Slots(filtered) :: FillMissingValues(UnfilledRow(filtered, minimumWeeks, slot)))
  }

  function CalculateProfile(start: nat, series: seq<Fcd>, minimumWeeks: nat): Result<Validation.Profile, ProfileError> {
    CalculateProfileFromHourly(AggregateByHour(start, FillNanWithZeros(series)), minimumWeeks)
  }
}
