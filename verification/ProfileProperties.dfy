/**
 What every produced profile guarantees, and what that means for the validation that uses it.
 */
module ProfileProperties {
  import opened Wrappers
  import opened IdeaConstants
  import opened CoverageCounters
  import opened Numbers
  import opened Sorting
  import opened Profile
  import opened RoadStatus
  import opened RunningMeanProperties
  import V = Validation
  import opened ClosureTimes

  // ---------------------------------------------------------------- hours

  /** Both streak statistics are present or both are masked, and they are ordered and bounded. */
  ghost predicate OrderedHour(h: Hour, cap: nat) {
    && 0.0 <= h.fcdMean <= 10.0
    && h.maxZeros.Some? == h.maxLow.Some?
    && (h.maxZeros.Some? ==> h.maxZeros.value <= h.maxLow.value <= cap)
  }

  ghost predicate OrderedHours(hours: seq<Hour>, cap: nat) {
    forall i :: 0 <= i < |hours| ==> OrderedHour(hours[i], cap)
  }

  ghost predicate AllPresent(hours: seq<Hour>) {
    forall i :: 0 <= i < |hours| ==> hours[i].maxLow.Some?
  }

  lemma {:induction false} SumBetween(series: seq<Fcd>)
    requires forall i :: 0 <= i < |series| ==> InRange(series[i])
    ensures 0.0 <= Sum(series) <= 10.0 * |series| as real
  {
    if series != [] {
      SumBetween(series[1..]);
    }
  }

  lemma FilledReadingInRange(fcd: Fcd)
    requires InRange(fcd)
    ensures InRange(FillWithZero(fcd))
  {
  }

  /** Aggregated 5-minute readings: at most 12 per hour, so no streak exceeds 12. */
  lemma {:induction false} AggregatedHoursAreOrdered(start: nat, series: seq<Fcd>)
    requires forall i :: 0 <= i < |series| ==> InRange(series[i])
    ensures OrderedHours(AggregateByHour(start, series), TICKS_PER_HOUR)
    ensures AllPresent(AggregateByHour(start, series))
    decreases |series|
  {
    hide MaxConsecutiveZeros, MaxConsecutiveZerosOrOnes, Sum;
    if series != [] {
      var n := Smaller(|series|, TICKS_PER_HOUR - start % TICKS_PER_HOUR);
      ZeroStreaksNeverExceedLowStreaks(series[..n]);
      SumBetween(series[..n]);
      QuotientBetween(Sum(series[..n]), n as real, 0.0, 10.0);
      AggregatedHoursAreOrdered(start + n, series[n..]);
    }
  }

  lemma FilterKeepsOrder(hours: seq<Hour>, cap: nat)
    requires OrderedHours(hours, cap)
    ensures OrderedHours(FilterMaxConsecutive60(hours), cap)
  {
  }

  /** Masking waits for 60 quiet readings in an hour; with at most 12 readings it never happens. */
  lemma FilterIsIdleOnFiveMinuteData(hours: seq<Hour>)
    requires OrderedHours(hours, TICKS_PER_HOUR)
    ensures FilterMaxConsecutive60(hours) == hours
  {
    var flags := QuietHours(hours);
    forall i | 0 <= i < |hours|
      ensures FilterMaxConsecutive60(hours)[i] == hours[i]
    {
      assert OrderedHour(hours[i], TICKS_PER_HOUR) && !flags[i];
      MaskIsLongStreaks(flags, MINIMUM_HOURS_NO_TRAFFIC_FOR_PROFILE, i);
    }
  }

  lemma {:induction false} HoursAtAreHours(hours: seq<Hour>, slot: nat, cap: nat)
    requires OrderedHours(hours, cap)
    ensures OrderedHours(HoursAt(hours, slot), cap)
    ensures AllPresent(hours) ==> AllPresent(HoursAt(hours, slot))
    ensures slot in Slots(hours) ==> HoursAt(hours, slot) != []
  {
    if hours != [] {
      HoursAtAreHours(hours[1..], slot, cap);
      assert forall h :: h in hours ==> h == hours[0] || h in hours[1..];
      assert slot in Slots(hours) ==> hours[0].hour % HOURS_PER_WEEK == slot || slot in Slots(hours[1..]);
    }
  }

  // ---------------------------------------------------------------- quantiles

  lemma {:induction false} KnownColumnsDominated(hours: seq<Hour>, cap: nat)
    requires OrderedHours(hours, cap)
    ensures Dominated(Known(ZerosColumn(hours)), Known(LowColumn(hours)))
    ensures forall i :: 0 <= i < |Known(ZerosColumn(hours))| ==> 0.0 <= Known(ZerosColumn(hours))[i] <= cap as real
    ensures forall i :: 0 <= i < |Known(LowColumn(hours))| ==> 0.0 <= Known(LowColumn(hours))[i] <= cap as real
    ensures hours != [] && AllPresent(hours) ==> Known(ZerosColumn(hours)) != []
  {
    if hours != [] {
      hide Dominated;
      KnownColumnsDominated(hours[1..], cap);
      assert ZerosColumn(hours)[1..] == ZerosColumn(hours[1..]);
      assert LowColumn(hours)[1..] == LowColumn(hours[1..]);
      assert OrderedHour(hours[0], cap);
      if hours[0].maxZeros.Some? {
        ConsDominated(hours[0].maxZeros.value as real, Known(ZerosColumn(hours[1..])),
                      hours[0].maxLow.value as real, Known(LowColumn(hours[1..])));
      }
    }
  }

  lemma InterpolationIsWeighting(a: real, b: real, f: real, g: real)
    requires f + g == 1.0
    ensures Interpolate(a, b, f) == g * a + f * b
  {
  }

  lemma InterpolationMonotone(a: real, a': real, b: real, b': real, f: real)
    requires a <= b && a' <= b' && 0.0 <= f <= 1.0
    ensures Interpolate(a, a', f) <= Interpolate(b, b', f)
  {
    var g := 1.0 - f;
    var x, y, x', y' := g * a, g * b, f * a', f * b';
    assert x <= y by { ScaledBetween(g, a, a, b); }
    assert x' <= y' by { ScaledBetween(f, a', a', b'); }
    assert Interpolate(a, a', f) == x + x' by { InterpolationIsWeighting(a, a', f, g); }
    assert Interpolate(b, b', f) == y + y' by { InterpolationIsWeighting(b, b', f, g); }
  }

  lemma InterpolationBetween(a: real, a': real, f: real, lo: real, hi: real)
    requires lo <= a <= hi && lo <= a' <= hi && 0.0 <= f <= 1.0
    ensures lo <= Interpolate(a, a', f) <= hi
  {
    InterpolationMonotone(lo, lo, a, a', f);
    InterpolationMonotone(a, a', hi, hi, f);
  }

  /** The quantile keeps pointwise domination. */
  lemma QuantileMonotone(a: seq<real>, b: seq<real>)
    requires Dominated(a, b)
    ensures Quantile95(a).Some? == Quantile95(b).Some?
    ensures Quantile95(a).Some? ==> Quantile95(a).value <= Quantile95(b).value
  {
    hide Interpolate;
    if a != [] {
      SortKeepsDomination(a, b);
      var s, t := Sort(a), Sort(b);
      var position := 0.95 * (|s| - 1) as real;
      var lo := position.Floor;
      if lo + 1 < |s| {
        InterpolationMonotone(s[lo], s[lo + 1], t[lo], t[lo + 1], position - lo as real);
      }
    }
  }

  lemma QuantileBetween(a: seq<real>, lo: real, hi: real)
    requires forall i :: 0 <= i < |a| ==> lo <= a[i] <= hi
    ensures Quantile95(a).Some? <==> a != []
    ensures Quantile95(a).Some? ==> lo <= Quantile95(a).value <= hi
  {
    hide Interpolate;
    if a != [] {
      SortStaysWithin(a, lo, hi);
      var s := Sort(a);
      var position := 0.95 * (|s| - 1) as real;
      var i := position.Floor;
      if i + 1 < |s| {
        InterpolationBetween(s[i], s[i + 1], position - i as real, lo, hi);
      }
    }
  }

  lemma MedianBetween(a: seq<real>, lo: real, hi: real)
    requires forall i :: 0 <= i < |a| ==> lo <= a[i] <= hi
    ensures Median(a).Some? <==> a != []
    ensures Median(a).Some? ==> lo <= Median(a).value <= hi
  {
    if a != [] {
      SortStaysWithin(a, lo, hi);
    }
  }

  /** Rounding is monotone and fixes whole numbers, hence keeps whole bounds. */
  lemma RoundingMonotone(x: real, y: real)
    requires x <= y
    ensures Round1(x) <= Round1(y)
  {
    RoundHalfEvenIsMonotone(10.0 * x, 10.0 * y);
  }

  lemma RoundingFixesWholeNumbers(n: nat)
    ensures Round1(n as real) == n as real
  {
    var tenths := 10 * n;
    assert 10.0 * n as real == tenths as real;
    hide RoundHalfEven;
    assert RoundHalfEven(tenths as real) == tenths;
  }

  // ---------------------------------------------------------------- profile rows

  /** 0 <= zeros_q95 <= zeros_or_ones_q95 <= 60 and a median in the range of the readings. */
  ghost predicate OrderedRow(p: V.ProfileRow) {
    && p.zerosQ95.Some? && p.lowQ95.Some? && p.fcdMeanMedian.Some?
    && 0.0 <= p.zerosQ95.value <= p.lowQ95.value <= STREAK_LIMIT
    && 0.0 <= p.fcdMeanMedian.value <= 10.0
  }

  lemma AggregatedRowIsOrdered(hours: seq<Hour>, cap: nat)
    requires OrderedHours(hours, cap) && hours != []
    ensures var p := AggregateHourOfWeek(hours);
            && p.zerosQ95.Some? == p.lowQ95.Some?
            && (p.zerosQ95.Some? ==> 0.0 <= p.zerosQ95.value <= p.lowQ95.value <= cap as real)
            && p.fcdMeanMedian.Some? && 0.0 <= p.fcdMeanMedian.value <= 10.0
            && (AllPresent(hours) ==> p.zerosQ95.Some?)
  {
    var z, l, m := Known(ZerosColumn(hours)), Known(LowColumn(hours)), MeanColumn(hours);
    KnownColumnsDominated(hours, cap);
    QuantileMonotone(z, l);
    QuantileBetween(z, 0.0, cap as real);
    QuantileBetween(l, 0.0, cap as real);
    assert forall i :: 0 <= i < |m| ==> OrderedHour(hours[i], cap);
    MedianBetween(m, 0.0, 10.0);
    RoundingFixesWholeNumbers(0);
    RoundingFixesWholeNumbers(cap);
    RoundingFixesWholeNumbers(10);
    if Quantile95(z).Some? {
      RoundingMonotone(0.0, Quantile95(z).value);
      RoundingMonotone(Quantile95(z).value, Quantile95(l).value);
      RoundingMonotone(Quantile95(l).value, cap as real);
    }
    RoundingMonotone(0.0, Median(m).value);
    RoundingMonotone(Median(m).value, 10.0);
  }

  /** Every row of every produced profile is ordered and bounded: domination of the hourly streaks
      survives masking, grouping, sorting, interpolation, rounding, low availability and filling. */
  lemma {:induction false} ProducedRowsAreOrdered(hours: seq<Hour>, minimumWeeks: nat)
    requires OrderedHours(hours, CONSECUTIVE_60_MINUTES)
    ensures var r := CalculateProfileFromHourly(hours, minimumWeeks);
            r.Ok? ==> forall slot :: slot in r.value ==> OrderedRow(r.value[slot])
  {
    var filtered := FilterMaxConsecutive60(hours);
    FilterKeepsOrder(hours, CONSECUTIVE_60_MINUTES);
    forall slot | slot in Slots(filtered)
      ensures OrderedRow(FillMissingValues(UnfilledRow(filtered, minimumWeeks, slot)))
    {
      HoursAtAreHours(filtered, slot, CONSECUTIVE_60_MINUTES);
      AggregatedRowIsOrdered(HoursAt(filtered, slot), CONSECUTIVE_60_MINUTES);
    }
  }

  const FILLED_ROW := V.ProfileRow(Some(60.0), Some(60.0), Some(0.0))

  lemma ProfileOfSlot(start: nat, series: seq<Fcd>, minimumWeeks: nat, slot: nat)
    requires forall i :: 0 <= i < |series| ==> InRange(series[i])
    ensures var r := CalculateProfile(start, series, minimumWeeks);
            r.Ok? && slot in r.value ==>
              var p := r.value[slot];
              OrderedRow(p) && (p == FILLED_ROW || p.lowQ95.value <= TICKS_PER_HOUR as real)
  {
    var filled := FillNanWithZeros(series);
    forall i | 0 <= i < |filled| ensures InRange(filled[i]) { FilledReadingInRange(series[i]); }
    var hours := AggregateByHour(start, filled);
    AggregatedHoursAreOrdered(start, filled);
    FilterIsIdleOnFiveMinuteData(hours);
    if slot in Slots(hours) {
      HoursAtAreHours(hours, slot, TICKS_PER_HOUR);
      AggregatedRowIsOrdered(HoursAt(hours, slot), TICKS_PER_HOUR);
    }
  }

  ghost predicate UsableSlot(profile: V.Profile, slot: nat) {
    slot in profile && profile[slot] != FILLED_ROW
  }

  /** What a profile of 5-minute readings offers an hour of week: thresholds of at most 12, or nothing
      the validation can use (too few weeks, or no data at all). */
  lemma {:induction false} UsableSlotClamps(start: nat, series: seq<Fcd>, minimumWeeks: nat, slot: nat)
    requires forall i :: 0 <= i < |series| ==> InRange(series[i])
    requires CalculateProfile(start, series, minimumWeeks).Ok?
    ensures var profile := CalculateProfile(start, series, minimumWeeks).value;
            var p := V.ProfileAt(profile, slot);
            if UsableSlot(profile, slot) then
              HandleProfileValue(p.zerosQ95) <= 12.0 && HandleProfileValue(p.lowQ95) <= 12.0
            else Unusable(p.zerosQ95) && Unusable(p.lowQ95) && QuietMedian(p.fcdMeanMedian)
  {
    ProfileOfSlot(start, series, minimumWeeks, slot);
    hide CalculateProfile;
  }

  /** With a profile of 5-minute readings, zero readings within one call close a segment from the 44th
      on where every hour has a usable profile row. */
  lemma {:induction false} CoveredSegmentCloses(exp: real -> real, start: nat, series: seq<Fcd>, minimumWeeks: nat,
                                                readings: seq<V.Reading>, i: nat)
    requires IsExp(exp)
    requires forall i :: 0 <= i < |series| ==> InRange(series[i])
    requires CalculateProfile(start, series, minimumWeeks).Ok?
    requires forall i :: 0 <= i < |readings| ==> readings[i].fcd == Some(0.0)
    requires var profile := CalculateProfile(start, series, minimumWeeks).value;
             forall i :: 0 <= i < |readings| ==> UsableSlot(profile, readings[i].hourOfWeek)
    requires 43 <= i < |readings|
    ensures V.ReadingsInRange(readings)
    ensures var profile := CalculateProfile(start, series, minimumWeeks).value;
            ClosureStatus(V.CallMeans(exp, readings, profile, None)[i]) == Closed
  {
    hide CalculateProfile, HandleProfileValue, V.CallMeans, UsableSlot;
    var profile := CalculateProfile(start, series, minimumWeeks).value;
    forall i | 0 <= i < |readings|
      ensures var p := V.ProfileAt(profile, readings[i].hourOfWeek);
              HandleProfileValue(p.zerosQ95) <= 12.0 && HandleProfileValue(p.lowQ95) <= 12.0
    {
      UsableSlotClamps(start, series, minimumWeeks, readings[i].hourOfWeek);
    }
    assert ProfileAtMost(readings, profile, 12.0);
    ZeroReadingsClose(exp, readings, profile, None, 12.0, i + 1);
  }

  /** Where no hour has a usable profile row, no readings of any kind close it. */
  lemma {:induction false} UncoveredSegmentNeverCloses(exp: real -> real, start: nat, series: seq<Fcd>,
                                                       minimumWeeks: nat, readings: seq<V.Reading>, i: nat)
    requires IsExp(exp) && V.ReadingsInRange(readings)
    requires forall i :: 0 <= i < |series| ==> InRange(series[i])
    requires CalculateProfile(start, series, minimumWeeks).Ok?
    requires var profile := CalculateProfile(start, series, minimumWeeks).value;
             forall i :: 0 <= i < |readings| ==> !UsableSlot(profile, readings[i].hourOfWeek)
    requires i < |readings|
    ensures var profile := CalculateProfile(start, series, minimumWeeks).value;
            ClosureStatus(V.CallMeans(exp, readings, profile, None)[i]) != Closed
  {
    hide CalculateProfile, Unusable, QuietMedian, DropsOnlyToLow, V.CallMeans, UsableSlot;
    var profile := CalculateProfile(start, series, minimumWeeks).value;
    forall i | 0 <= i < |readings|
      ensures var p := V.ProfileAt(profile, readings[i].hourOfWeek);
              Unusable(p.zerosQ95) && Unusable(p.lowQ95) && DropsOnlyToLow(p.fcdMeanMedian, readings[i].fcd)
    {
      QuietMediansDoNotDrop(V.ProfileAt(profile, readings[i].hourOfWeek).fcdMeanMedian, readings[i].fcd);
      UsableSlotClamps(start, series, minimumWeeks, readings[i].hourOfWeek);
    }
    assert UnusableProfile(readings, profile);
    UnusableProfileNeverCloses(exp, readings, profile, None, i);
  }

  /** Whole readings under a produced profile drop suddenly only to 0 or 1: its medians are means of
      readings. */
  lemma {:induction false} ProducedProfileDropsToLow(hours: seq<Hour>, minimumWeeks: nat, readings: seq<V.Reading>)
    requires OrderedHours(hours, CONSECUTIVE_60_MINUTES) && CalculateProfileFromHourly(hours, minimumWeeks).Ok?
    requires V.ReadingsInRange(readings)
    requires forall i :: 0 <= i < |readings| ==> WholeNumber(readings[i].fcd)
    ensures DropsAreLow(readings, CalculateProfileFromHourly(hours, minimumWeeks).value)
  {
    var profile := CalculateProfileFromHourly(hours, minimumWeeks).value;
    ProducedRowsAreOrdered(hours, minimumWeeks);
    hide CalculateProfileFromHourly, DropsOnlyToLow, WholeNumber;
    forall i | 0 <= i < |readings|
      ensures DropsOnlyToLow(V.ProfileAt(profile, readings[i].hourOfWeek).fcdMeanMedian, readings[i].fcd)
    {
      WholeReadingsDropOnlyToLow(V.ProfileAt(profile, readings[i].hourOfWeek).fcdMeanMedian, readings[i].fcd);
    }
  }

  /** With a profile that the code produces, consecutive calls of at most 7 whole readings never close a
      segment, whatever the readings are. */
  lemma {:induction false} ShortCallsUnderProducedProfileNeverClose(exp: real -> real, hours: seq<Hour>,
                                                                    minimumWeeks: nat, calls: seq<seq<V.Reading>>,
                                                                    last: Option<LastValidation>)
    requires IsExp(exp) && StartsUnclosed(last)
    requires OrderedHours(hours, CONSECUTIVE_60_MINUTES) && CalculateProfileFromHourly(hours, minimumWeeks).Ok?
    requires forall c: seq<V.Reading> :: c in calls ==>
               |c| <= 7 && V.ReadingsInRange(c) && forall i :: 0 <= i < |c| ==> WholeNumber(c[i].fcd)
    ensures V.NeverClosed(exp, calls, CalculateProfileFromHourly(hours, minimumWeeks).value, last)
  {
    forall c | c in calls
      ensures DropsAreLow(c, CalculateProfileFromHourly(hours, minimumWeeks).value)
    {
      ProducedProfileDropsToLow(hours, minimumWeeks, c);
    }
    hide CalculateProfileFromHourly, DropsAreLow;
    ShortCallsNeverClose(exp, calls, CalculateProfileFromHourly(hours, minimumWeeks).value, last);
  }
}
