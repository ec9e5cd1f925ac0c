/**
 The two no-coverage streak counters of the validation (lib/idea/validation/util.py) and the
 per-hour streak statistics of the profile (lib/idea/profile/util.py), both tied to one
 declarative notion: the runs of consecutive true flags in a series.
 */
module CoverageCounters {
  import opened Wrappers

  type Fcd = Option<real>

  predicate InRange(fcd: Fcd) {
    fcd.Some? ==> 0.0 <= fcd.value <= 10.0
  }

  predicate IsZero(fcd: Fcd) {
    fcd == Some(0.0)
  }

  predicate IsLow(fcd: Fcd) {
    fcd == Some(0.0) || fcd == Some(1.0)
  }

  function ZeroFlags(series: seq<Fcd>): seq<bool> {
    seq(|series|, i requires 0 <= i < |series| => IsZero(series[i]))
  }

  function LowFlags(series: seq<Fcd>): seq<bool> {
    seq(|series|, i requires 0 <= i < |series| => IsLow(series[i]))
  }

  /** The window of length n that starts at i lies in the series and holds only true flags. */
  ghost predicate Streak(flags: seq<bool>, i: int, n: nat) {
    0 <= i && i + n <= |flags| && forall j :: i <= j < i + n ==> flags[j]
  }

  /** Length of the run of true flags that ends the series. */
  function Trail(flags: seq<bool>): (n: nat)
    ensures n <= |flags|
  {
    if |flags| == 0 || !flags[|flags| - 1] then 0 else 1 + Trail(flags[..|flags| - 1])
  }

  lemma {:induction false} TrailIsMaximal(flags: seq<bool>, n: nat)
    ensures n <= Trail(flags) <==> Streak(flags, |flags| - n, n)
  {
    if n > 0 && |flags| > 0 && flags[|flags| - 1] {
      var front := flags[..|flags| - 1];
      TrailIsMaximal(front, n - 1);
      if Streak(front, |front| - (n - 1), n - 1) {
        assert Streak(flags, |flags| - n, n);
      }
      if Streak(flags, |flags| - n, n) {
        assert Streak(front, |front| - (n - 1), n - 1);
      }
    }
  }

  // ---------------------------------------------------------------- online counters

  function UpdateCounter(condition: bool, prev: nat): nat {
    if condition then prev + 1 else 0
  }

  function UpdateNoCoverageCounters(fcd: real, prevZeros: nat, prevLow: nat): Result<(nat, nat), real> {
    if !(0.0 <= fcd <= 10.0) then Err(fcd)
    else Ok((UpdateCounter(fcd == 0.0, prevZeros), UpdateCounter(fcd == 0.0 || fcd == 1.0, prevLow)))
  }

  lemma TrailSnoc(flags: seq<bool>, b: bool)
    ensures Trail(flags + [b]) == UpdateCounter(b, Trail(flags))
  {
    assert (flags + [b])[..|flags|] == flags;
  }

  /** Length of the run of zero readings that ends the first n readings. */
  function ZeroRun(series: seq<Fcd>, n: nat): nat
    requires n <= |series|
  {
    Trail(ZeroFlags(series[..n]))
  }

  /** Length of the run of zero or one readings that ends the first n readings. */
  function LowRun(series: seq<Fcd>, n: nat): nat
    requires n <= |series|
  {
    Trail(LowFlags(series[..n]))
  }

  lemma RunsSnoc(series: seq<Fcd>, n: nat)
    requires n < |series|
    ensures ZeroRun(series, n + 1) == UpdateCounter(IsZero(series[n]), ZeroRun(series, n))
    ensures LowRun(series, n + 1) == UpdateCounter(IsLow(series[n]), LowRun(series, n))
  {
    assert ZeroFlags(series[..n + 1]) == ZeroFlags(series[..n]) + [IsZero(series[n])];
    assert LowFlags(series[..n + 1]) == LowFlags(series[..n]) + [IsLow(series[n])];
    TrailSnoc(ZeroFlags(series[..n]), IsZero(series[n]));
    TrailSnoc(LowFlags(series[..n]), IsLow(series[n]));
  }

  /** The loop over the validation rows: a missing reading resets both counters, a reading outside
      0..10 aborts the whole pass. Each counter is the length of the matching run ending at its row. */
  method CalculateMinutesNoCoverage(series: seq<Fcd>) returns (r: Result<(seq<nat>, seq<nat>), real>)
    ensures r.Ok? <==> forall i :: 0 <= i < |series| ==> InRange(series[i])
    ensures r.Err? ==>
      exists i :: 0 <= i < |series| && series[i] == Some(r.error) && !InRange(series[i])
                  && forall j :: 0 <= j < i ==> InRange(series[j])
    ensures r.Ok? ==> |r.value.0| == |series| && |r.value.1| == |series|
    ensures r.Ok? ==> forall i :: 0 <= i < |series| ==> r.value.0[i] == ZeroRun(series, i + 1)
    ensures r.Ok? ==> forall i :: 0 <= i < |series| ==> r.value.1[i] == LowRun(series, i + 1)
  {
    var consecutiveZeros: seq<nat>, consecutiveLow: seq<nat> := [], [];
    var counterZeros: nat, counterLow: nat := 0, 0;
    assert ZeroRun(series, 0) == 0 && LowRun(series, 0) == 0;
    hide ZeroRun, LowRun;
    for i := 0 to |series|
      invariant forall j :: 0 <= j < i ==> InRange(series[j])
      invariant |consecutiveZeros| == i && |consecutiveLow| == i
      invariant counterZeros == ZeroRun(series, i) && counterLow == LowRun(series, i)
      invariant forall j :: 0 <= j < i ==> consecutiveZeros[j] == ZeroRun(series, j + 1)
      invariant forall j :: 0 <= j < i ==> consecutiveLow[j] == LowRun(series, j + 1)
    {
      RunsSnoc(series, i);
      if series[i].None? {
        counterZeros, counterLow := 0, 0;
      } else {
        var updated := UpdateNoCoverageCounters(series[i].value, counterZeros, counterLow);
        if updated.Err? {
          return Err(updated.error);
        }
        counterZeros, counterLow := updated.value.0, updated.value.1;
      }
      consecutiveZeros := consecutiveZeros + [counterZeros];
      consecutiveLow := consecutiveLow + [counterLow];
    }
    r := Ok((consecutiveZeros, consecutiveLow));
  }

  // ---------------------------------------------------------------- offline streaks

  function LeadingRun(s: seq<bool>, b: bool): (n: nat)
    ensures n <= |s|
    ensures forall j :: 0 <= j < n ==> s[j] == b
    ensures n < |s| ==> s[n] != b
  {
    if |s| == 0 || s[0] != b then 0 else 1 + LeadingRun(s[1..], b)
  }

  /** itertools.groupby without a key: the maximal runs, left to right. */
  function GroupBy(s: seq<bool>): seq<(bool, nat)>
    decreases |s|
  {
    if s == [] then [] else
      var n := LeadingRun(s, s[0]);
      assert n > 0;
      [(s[0], n)] + GroupBy(s[n..])
  }

  function LongestTrueGroup(groups: seq<(bool, nat)>): nat {
    if groups == [] then 0 else
      var here := if groups[0].0 then groups[0].1 else 0;
      var rest := LongestTrueGroup(groups[1..]);
      if here >= rest then here else rest
  }

  function MaxConsecutiveTrueStreak(s: seq<bool>): nat {
    if |s| > 0 then LongestTrueGroup(GroupBy(s)) else 0
  }

  function MaxConsecutiveZeros(series: seq<Fcd>): nat {
    MaxConsecutiveTrueStreak(ZeroFlags(series))
  }

  function MaxConsecutiveZerosOrOnes(series: seq<Fcd>): nat {
    MaxConsecutiveTrueStreak(LowFlags(series))
  }

  /** The grouped maximum is the length of the longest window of true flags. */
  lemma {:induction false} GroupedMaximumIsLongestStreak(s: seq<bool>)
    ensures exists i :: Streak(s, i, MaxConsecutiveTrueStreak(s))
    ensures forall i, n: nat :: Streak(s, i, n) ==> n <= MaxConsecutiveTrueStreak(s)
    decreases |s|
  {
    if s == [] {
      assert Streak(s, 0, 0) && MaxConsecutiveTrueStreak(s) == 0;
      return;
    }
    var n := LeadingRun(s, s[0]);
    var rest := s[n..];
    GroupedMaximumIsLongestStreak(rest);
    assert GroupBy(s) == [(s[0], n)] + GroupBy(rest);
    assert GroupBy(s)[1..] == GroupBy(rest);
    assert rest == [] ==> GroupBy(rest) == [];
    var here := if s[0] then n else 0;
    assert MaxConsecutiveTrueStreak(s) == if here >= MaxConsecutiveTrueStreak(rest) then here
        else MaxConsecutiveTrueStreak(rest);
    var i :| Streak(rest, i, MaxConsecutiveTrueStreak(rest));
    assert Streak(s, n + i, MaxConsecutiveTrueStreak(rest));
    assert Streak(s, 0, here);
    forall i, m: nat | Streak(s, i, m)
      ensures m <= MaxConsecutiveTrueStreak(s)
    {
      if i >= n {
        assert Streak(rest, i - n, m);
      } else if m > 0 {
        assert s[i] && s[0];
        assert i + m <= n;
      }
    }
  }

  /** Greatest value that the online counter reaches over the series. */
  function MaxTrail(s: seq<bool>): nat {
    if s == [] then 0 else
      var before := MaxTrail(s[..|s| - 1]);
      if Trail(s) >= before then Trail(s) else before
  }

  lemma {:induction false} MaxTrailIsLongestStreak(s: seq<bool>)
    ensures exists i :: Streak(s, i, MaxTrail(s))
    ensures forall i, n: nat :: Streak(s, i, n) ==> n <= MaxTrail(s)
  {
    if s == [] {
      assert Streak(s, 0, 0) && MaxTrail(s) == 0;
      return;
    }
    var front := s[..|s| - 1];
    MaxTrailIsLongestStreak(front);
    var i :| Streak(front, i, MaxTrail(front));
    assert Streak(s, i, MaxTrail(front));
    TrailIsMaximal(s, Trail(s));
    forall i, n: nat | Streak(s, i, n)
      ensures n <= MaxTrail(s)
    {
      if i + n == |s| {
        TrailIsMaximal(s, n);
      } else {
        assert Streak(front, i, n);
      }
    }
  }

  /** The online counters and the offline grouping agree: the largest counter over a series is the
      grouped maximum, for both kinds of low reading and with missing readings included. */
  lemma OnlineCountersAgreeWithGroupedStreaks(series: seq<Fcd>)
    ensures MaxTrail(ZeroFlags(series)) == MaxConsecutiveZeros(series)
    ensures MaxTrail(LowFlags(series)) == MaxConsecutiveZerosOrOnes(series)
  {
    GroupedMaximumIsLongestStreak(ZeroFlags(series));
    GroupedMaximumIsLongestStreak(LowFlags(series));
    MaxTrailIsLongestStreak(ZeroFlags(series));
    MaxTrailIsLongestStreak(LowFlags(series));
  }

  /** Zero readings are low readings, so both forms of the streak are ordered, and neither exceeds
      the number of readings. */
  lemma ZeroStreaksNeverExceedLowStreaks(series: seq<Fcd>)
    ensures Trail(ZeroFlags(series)) <= Trail(LowFlags(series)) <= |series|
    ensures MaxConsecutiveZeros(series) <= MaxConsecutiveZerosOrOnes(series) <= |series|
  {
    var z, l := ZeroFlags(series), LowFlags(series);
    GroupedMaximumIsLongestStreak(z);
    GroupedMaximumIsLongestStreak(l);
    var i :| Streak(z, i, MaxConsecutiveTrueStreak(z));
    assert forall j :: 0 <= j < |series| && z[j] ==> l[j];
    assert Streak(l, i, MaxConsecutiveTrueStreak(z));
    TrailIsMaximal(z, Trail(z));
    assert Streak(l, |l| - Trail(z), Trail(z));
    TrailIsMaximal(l, Trail(z));
    var j :| Streak(l, j, MaxConsecutiveTrueStreak(l));
  }
}
