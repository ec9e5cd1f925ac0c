/**
 What an aggregated hour is, from the raw five-minute readings: which readings fall into it, their mean number of
 vehicles, and their longest runs without vehicles and without more than one.
 */
module HourlyCounting {
  import opened Wrappers
  import opened Numbers
  import opened CoverageCounters
  import opened Profile
  import opened ProfileProperties

  /** v is the whole number of vehicles of a reading: what is left without its fraction, none where it is missing. */
  ghost predicate Counts(fcd: Fcd, v: int) {
    if fcd.None? then v == 0
    else if fcd.value >= 0.0 then v as real <= fcd.value < v as real + 1.0
    else v as real - 1.0 < fcd.value <= v as real
  }

  lemma {:induction false} CountsOnce(fcd: Fcd, v: int, w: int)
    requires Counts(fcd, v) && Counts(fcd, w)
    ensures v == w
  {
  }

  lemma {:induction false} EveryReadingCounts(fcd: Fcd)
    ensures Counts(fcd, if fcd.None? then 0 else Truncate(fcd.value))
  {
    if fcd.Some? {
      var x := if fcd.value < 0.0 then -fcd.value else fcd.value;
      assert x.Floor as real <= x < x.Floor as real + 1.0;
    }
  }

  ghost function Vehicles(fcd: Fcd): (v: int)
    ensures Counts(fcd, v)
  {
    EveryReadingCounts(fcd);
    var v :| Counts(fcd, v);
    v
  }

  /** Their number over the readings from lo to hi. */
  ghost function VehiclesBetween(series: seq<Fcd>, lo: nat, hi: nat): int
    requires lo <= hi <= |series|
    decreases hi - lo
  {
    if lo == hi then 0 else Vehicles(series[lo]) + VehiclesBetween(series, lo + 1, hi)
  }

  /** The first reading of the a-th hour, when the readings begin at tick `start` and an hour has 12. */
  function FirstOf(start: nat, n: nat, a: nat): int {
    var tick := 12 * (start / 12 + a) - start;
    if tick < 0 then 0 else if tick > n then n else tick
  }

  /** The `len` readings from `from` on lie between lo and hi and show no vehicle more than `most`. */
  ghost predicate QuietRun(series: seq<Fcd>, from: int, len: nat, lo: nat, hi: nat, most: int)
    requires lo <= hi <= |series|
  {
    lo <= from && from + len <= hi && forall j :: from <= j < from + len ==> 0 <= Vehicles(series[j]) <= most
  }

  /** n is the length of the longest run of such readings between lo and hi. */
  ghost predicate LongestRun(series: seq<Fcd>, lo: nat, hi: nat, most: int, n: nat)
    requires lo <= hi <= |series|
  {
    && (exists from :: QuietRun(series, from, n, lo, hi, most))
    && (forall from, len: nat :: QuietRun(series, from, len, lo, hi, most) ==> len <= n)
  }

  lemma {:induction false} NextHour(start: nat, n: nat)
    requires n == 12 - start % 12
    ensures (start + n) % 12 == 0 && (start + n) / 12 == start / 12 + 1
  {
    var q, r := start / 12, start % 12;
    assert start == 12 * q + r;
    assert start + n == 12 * (q + 1);
  }

  lemma {:induction false} OneHour(start: nat, n: nat)
    requires 0 < n <= 12 - start % 12
    ensures (start + n - 1) / 12 == start / 12
  {
  }

  /** The readings left of the first hour, or all of them. */
  function FirstHour(start: nat, size: nat): nat {
    Smaller(size, 12 - start % 12)
  }

  lemma {:induction false} Unfold(start: nat, series: seq<Fcd>)
    requires series != []
    ensures var n := FirstHour(start, |series|);
            && 0 < n <= |series|
            && AggregateByHour(start, series)
               == [AggregateHour(start / 12, series[..n])] + AggregateByHour(start + n, series[n..])
  {
    hide AggregateHour;
  }

  /** How many hours the readings touch. */
  function HourCount(start: nat, size: nat): int {
    if size == 0 then 0 else (start + size - 1) / 12 - start / 12 + 1
  }

  lemma {:induction false} CountOfRest(start: nat, size: nat)
    requires size > 0
    ensures var n := FirstHour(start, size);
            HourCount(start, size) == 1 + HourCount(start + n, size - n)
  {
    var n := FirstHour(start, size);
    if n == size {
      OneHour(start, n);
    } else {
      NextHour(start, n);
    }
  }

  lemma {:induction false} Count(start: nat, series: seq<Fcd>)
    ensures |AggregateByHour(start, series)| == HourCount(start, |series|)
    decreases |series|
  {
    hide AggregateHour, AggregateByHour, FirstHour, HourCount;
    if series == [] {
      assert AggregateByHour(start, series) == [] by { NoReadings(start, series); }
      NoHours(start);
    } else {
      var n := FirstHour(start, |series|);
      Unfold(start, series);
      Count(start + n, series[n..]);
      CountOfRest(start, |series|);
    }
  }

  lemma {:induction false} NoReadings(start: nat, series: seq<Fcd>)
    requires series == []
    ensures AggregateByHour(start, series) == []
  {
  }

  lemma {:induction false} NoHours(start: nat)
    ensures HourCount(start, 0) == 0
  {
  }

  /** The first hour ends where the second begins. */
  lemma {:induction false} FirstBounds(start: nat, size: nat)
    requires size > 0
    ensures FirstOf(start, size, 0) == 0
    ensures FirstOf(start, size, 1) == FirstHour(start, size)
  {
  }

  lemma {:induction false} RestBounds(start: nat, size: nat, a: nat)
    requires a > 0 && FirstHour(start, size) < size
    ensures var n := FirstHour(start, size);
            && FirstOf(start, size, a) == n + FirstOf(start + n, size - n, a - 1)
            && (start + n) / 12 == start / 12 + 1
  {
    var n := FirstHour(start, size);
    NextHour(start, n);
    assert 12 * ((start + n) / 12 + (a - 1)) - (start + n) == 12 * (start / 12 + a) - start - n;
  }

  /** The hours follow each other from that of the first tick to that of the last, and each is aggregated from the
      readings that fall into it. */
  lemma {:induction false} HoursOfTicks(start: nat, series: seq<Fcd>, a: nat)
    requires a < |AggregateByHour(start, series)|
    ensures var lo, hi := FirstOf(start, |series|, a), FirstOf(start, |series|, a + 1);
            && 0 <= lo < hi <= |series|
            && AggregateByHour(start, series)[a] == AggregateHour(start / 12 + a, series[lo..hi])
    decreases |series|
  {
    hide AggregateHour, AggregateByHour, FirstHour, FirstOf;
    if series == [] {
      NoReadings(start, series);
    } else {
      var n := FirstHour(start, |series|);
      Unfold(start, series);
      if a == 0 {
        FirstBounds(start, |series|);
        assert series[0..n] == series[..n];
      } else {
        var rest := series[n..];
        assert rest != [] by {
          if rest == [] { NoReadings(start + n, rest); }
        }
        HoursOfTicks(start + n, rest, a - 1);
        RestBounds(start, |series|, a);
        RestBounds(start, |series|, a + 1);
        var lo, hi := FirstOf(start + n, |rest|, a - 1), FirstOf(start + n, |rest|, a);
        assert rest[lo..hi] == series[n + lo..n + hi];
        assert AggregateByHour(start, series)[a] == AggregateByHour(start + n, rest)[a - 1];
      }
    }
  }

  // ---------------------------------------------------------------- one hour

  lemma {:induction false} FilledReading(fcd: Fcd)
    ensures FillWithZero(fcd) == Some(Vehicles(fcd) as real)
  {
    hide Counts;
    EveryReadingCounts(fcd);
    CountsOnce(fcd, Vehicles(fcd), if fcd.None? then 0 else Truncate(fcd.value));
  }

  lemma {:induction false} FilledAt(series: seq<Fcd>, j: nat)
    requires j < |series|
    ensures FillNanWithZeros(series)[j] == Some(Vehicles(series[j]) as real)
  {
    FilledReading(series[j]);
  }

  lemma {:induction false} SumIsVehicles(series: seq<Fcd>, lo: nat, hi: nat)
    requires lo <= hi <= |series|
    ensures Sum(FillNanWithZeros(series)[lo..hi]) == VehiclesBetween(series, lo, hi) as real
    decreases hi - lo
  {
    hide FillWithZero, Vehicles;
    var filled := FillNanWithZeros(series);
    if lo < hi {
      SumIsVehicles(series, lo + 1, hi);
      FilledAt(series, lo);
      assert filled[lo..hi][1..] == filled[lo + 1..hi];
      assert filled[lo..hi][0] == filled[lo];
    }
  }

  /** The flags of the readings from lo to hi that show no vehicle more than `most`. */
  ghost predicate FlagsQuiet(flags: seq<bool>, series: seq<Fcd>, lo: nat, hi: nat, most: int)
    requires lo <= hi <= |series|
  {
    |flags| == hi - lo && forall j :: 0 <= j < |flags| ==> (flags[j] <==> 0 <= Vehicles(series[lo + j]) <= most)
  }

  lemma {:induction false} FlagsOfHour(series: seq<Fcd>, lo: nat, hi: nat)
    requires lo <= hi <= |series|
    ensures FlagsQuiet(ZeroFlags(FillNanWithZeros(series)[lo..hi]), series, lo, hi, 0)
    ensures FlagsQuiet(LowFlags(FillNanWithZeros(series)[lo..hi]), series, lo, hi, 1)
  {
    hide FillWithZero, Vehicles;
    forall j | 0 <= j < hi - lo
      ensures FillNanWithZeros(series)[lo..hi][j] == Some(Vehicles(series[lo + j]) as real)
    {
      FilledAt(series, lo + j);
    }
  }

  lemma {:induction false} StreakIsQuietRun(flags: seq<bool>, series: seq<Fcd>, lo: nat, hi: nat, most: int,
                                            i: int, n: nat)
    requires lo <= hi <= |series| && FlagsQuiet(flags, series, lo, hi, most)
    ensures Streak(flags, i, n) <==> QuietRun(series, lo + i, n, lo, hi, most)
  {
    hide Vehicles;
    if Streak(flags, i, n) {
      forall j | lo + i <= j < lo + i + n
        ensures 0 <= Vehicles(series[j]) <= most
      {
        assert flags[j - lo];
      }
    }
    if QuietRun(series, lo + i, n, lo, hi, most) {
      forall j | i <= j < i + n
        ensures flags[j]
      {
        assert 0 <= Vehicles(series[lo + j]) <= most;
      }
    }
  }

  lemma {:induction false} LongestOfFlags(flags: seq<bool>, series: seq<Fcd>, lo: nat, hi: nat, most: int)
    requires lo <= hi <= |series| && FlagsQuiet(flags, series, lo, hi, most)
    ensures LongestRun(series, lo, hi, most, MaxConsecutiveTrueStreak(flags))
  {
    hide Streak, QuietRun, FlagsQuiet, MaxConsecutiveTrueStreak;
    GroupedMaximumIsLongestStreak(flags);
    var n := MaxConsecutiveTrueStreak(flags);
    var i :| Streak(flags, i, n);
    StreakIsQuietRun(flags, series, lo, hi, most, i, n);
    forall from, len: nat | QuietRun(series, from, len, lo, hi, most)
      ensures len <= n
    {
      StreakIsQuietRun(flags, series, lo, hi, most, from - lo, len);
    }
  }

  /** Every hour that the readings touch is aggregated from exactly the readings that fall into it: its number, their
      mean number of vehicles, and their longest runs without a vehicle and without a second one. */
  lemma {:induction false} HoursFromReadings(start: nat, series: seq<Fcd>)
    ensures var hours := AggregateByHour(start, FillNanWithZeros(series));
            && |hours| == HourCount(start, |series|)
            && forall a :: 0 <= a < |hours| ==>
                 var lo, hi := FirstOf(start, |series|, a), FirstOf(start, |series|, a + 1);
                 && 0 <= lo < hi <= |series|
                 && hours[a].hour == start / 12 + a
                 && hours[a].fcdMean * (hi - lo) as real == VehiclesBetween(series, lo, hi) as real
                 && hours[a].maxZeros.Some? && LongestRun(series, lo, hi, 0, hours[a].maxZeros.value)
                 && hours[a].maxLow.Some? && LongestRun(series, lo, hi, 1, hours[a].maxLow.value)
  {
    hide FirstOf, HourCount, AggregateByHour, AggregateHour, LongestRun, VehiclesBetween;
    var filled := FillNanWithZeros(series);
    Count(start, filled);
    forall a | 0 <= a < |AggregateByHour(start, filled)|
      ensures var lo, hi := FirstOf(start, |series|, a), FirstOf(start, |series|, a + 1);
              && 0 <= lo < hi <= |series|
              && AggregateByHour(start, filled)[a].hour == start / 12 + a
              && AggregateByHour(start, filled)[a].fcdMean * (hi - lo) as real
                 == VehiclesBetween(series, lo, hi) as real
              && AggregateByHour(start, filled)[a].maxZeros.Some?
              && LongestRun(series, lo, hi, 0, AggregateByHour(start, filled)[a].maxZeros.value)
              && AggregateByHour(start, filled)[a].maxLow.Some?
              && LongestRun(series, lo, hi, 1, AggregateByHour(start, filled)[a].maxLow.value)
    {
      HoursOfTicks(start, filled, a);
      HourOfReadings(start / 12 + a, series, FirstOf(start, |series|, a), FirstOf(start, |series|, a + 1));
    }
  }

  lemma {:induction false} HourOfReadings(hour: nat, series: seq<Fcd>, lo: nat, hi: nat)
    requires lo < hi <= |series|
    ensures var h := AggregateHour(hour, FillNanWithZeros(series)[lo..hi]);
            && h.hour == hour
            && h.fcdMean * (hi - lo) as real == VehiclesBetween(series, lo, hi) as real
            && h.maxZeros.Some? && LongestRun(series, lo, hi, 0, h.maxZeros.value)
            && h.maxLow.Some? && LongestRun(series, lo, hi, 1, h.maxLow.value)
  {
    hide FillNanWithZeros, VehiclesBetween, Sum, FlagsQuiet, LongestRun, ZeroFlags, LowFlags;
    SumIsVehicles(series, lo, hi);
    FlagsOfHour(series, lo, hi);
    LongestOfFlags(ZeroFlags(FillNanWithZeros(series)[lo..hi]), series, lo, hi, 0);
    LongestOfFlags(LowFlags(FillNanWithZeros(series)[lo..hi]), series, lo, hi, 1);
  }
}
