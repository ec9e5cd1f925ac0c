/**
 What the columns of a produced profile are, said by counting hours: quantiles and medians through the numbers
 of values below and above them, and when there is a profile at all.
 */
module ProfileByCounting {
  import opened Wrappers
  import opened IdeaConstants
  import opened Numbers
  import opened Sorting
  import opened CoverageCounters
  import opened RunningMeanProperties
  import opened Profile
  import V = Validation

  // ---------------------------------------------------------------- ranks of values

  function AtMost(s: seq<real>, x: real): nat {
    if s == [] then 0 else (if s[0] <= x then 1 else 0) + AtMost(s[1..], x)
  }

  function Below(s: seq<real>, x: real): nat {
    if s == [] then 0 else (if s[0] < x then 1 else 0) + Below(s[1..], x)
  }

  /** x is the value at position k, counted from 0, when the values are put in order. */
  predicate HasRank(s: seq<real>, k: nat, x: real) {
    Below(s, x) <= k < AtMost(s, x)
  }

  lemma {:induction false} InsertCounts(x: real, s: seq<real>, y: real)
    ensures AtMost(Insert(x, s), y) == (if x <= y then 1 else 0) + AtMost(s, y)
    ensures Below(Insert(x, s), y) == (if x < y then 1 else 0) + Below(s, y)
  {
    if s != [] && x > s[0] {
      InsertCounts(x, s[1..], y);
    }
  }

  lemma {:induction false} SortCounts(s: seq<real>, y: real)
    ensures AtMost(Sort(s), y) == AtMost(s, y) && Below(Sort(s), y) == Below(s, y)
  {
    if s != [] {
      SortCounts(s[1..], y);
      InsertCounts(s[0], Sort(s[1..]), y);
    }
  }

  lemma {:induction false} NoneBelow(s: seq<real>, x: real)
    requires forall i :: 0 <= i < |s| ==> x <= s[i]
    ensures Below(s, x) == 0
  {
    if s != [] {
      NoneBelow(s[1..], x);
    }
  }

  lemma {:induction false} SortedRank(s: seq<real>, k: nat)
    requires Sorted(s) && k < |s|
    ensures HasRank(s, k, s[k])
  {
    if k == 0 {
      NoneBelow(s, s[0]);
    } else {
      SortedRank(s[1..], k - 1);
    }
  }

  lemma {:induction false} CountsGrow(s: seq<real>, x: real, y: real)
    requires x < y
    ensures AtMost(s, x) <= Below(s, y)
  {
    if s != [] {
      CountsGrow(s[1..], x, y);
    }
  }

  lemma {:induction false} RankIsSortedValue(s: seq<real>, k: nat, x: real)
    requires k < |s|
    ensures HasRank(s, k, x) <==> x == Sort(s)[k]
  {
    var y := Sort(s)[k];
    SortSorts(s);
    SortedRank(Sort(s), k);
    SortCounts(s, y);
    if x < y {
      CountsGrow(s, x, y);
    } else if y < x {
      CountsGrow(s, y, x);
    }
  }

  // ---------------------------------------------------------------- the quantile

  /** The value between a and b that has come the fraction f of the way. */
  function Between(a: real, b: real, f: real): real { (1.0 - f) * a + f * b }

  /** The 95% quantile of n > 0 values: between the values at the two positions around 0.95 (n - 1), counted from
      0 in order, in the proportion of its fraction; and more than 0.95 (n - 1) of the values are at most it.
      Where 0.95 (n - 1) is whole, it is the value at that position. */
  lemma {:induction false} QuantileByCounting(values: seq<real>, k: nat, a: real, b: real)
    requires values != []
    requires var position := 0.95 * (|values| - 1) as real;
             k as real <= position < k as real + 1.0
             && HasRank(values, k, a) && HasRank(values, if k + 1 < |values| then k + 1 else k, b)
    ensures var position := 0.95 * (|values| - 1) as real;
            && Quantile95(values).Some?
            && var q := Quantile95(values).value;
               && q == Between(a, b, position - k as real) && a <= q <= b
               && (position == k as real ==> q == a)
               && AtMost(values, q) as real > position
  {
    var s, position := Sort(values), 0.95 * (|values| - 1) as real;
    RankIsSortedValue(values, k, a);
    RankIsSortedValue(values, if k + 1 < |values| then k + 1 else k, b);
    SortSorts(values);
    assert position.Floor == k;
    var q := Between(a, b, position - k as real);
    BetweenIs(a, b, position - k as real);
    hide Sort, HasRank, Between, Interpolate;
    assert Quantile95(values) == Some(q);
    AtMostGrows(values, a, q);
    RankCounts(values, k, a);
  }

  lemma {:induction false} RankCounts(values: seq<real>, k: nat, a: real)
    requires HasRank(values, k, a)
    ensures AtMost(values, a) > k
  {
  }

  lemma {:induction false} BetweenIs(a: real, b: real, f: real)
    requires a <= b && 0.0 <= f < 1.0
    ensures a <= Between(a, b, f) <= b && Interpolate(a, b, f) == Between(a, b, f)
    ensures f == 0.0 ==> Between(a, b, f) == a
    ensures a == b ==> Between(a, b, f) == a
  {
    WaysApart(a, b, f);
    ProductNonNegative(f, b - a);
    ProductNonNegative(1.0 - f, b - a);
    hide Between, Interpolate;
  }

  lemma {:induction false} WaysApart(a: real, b: real, f: real)
    ensures Between(a, b, f) - a == f * (b - a) && b - Between(a, b, f) == (1.0 - f) * (b - a)
    ensures Interpolate(a, b, f) == Between(a, b, f)
  {
  }

  lemma {:induction false} AtMostGrows(s: seq<real>, x: real, y: real)
    requires x <= y
    ensures AtMost(s, x) <= AtMost(s, y)
  {
    if s != [] {
      AtMostGrows(s[1..], x, y);
    }
  }

  lemma {:induction false} MedianByCounting(values: seq<real>, a: real, b: real)
    requires values != [] && HasRank(values, (|values| - 1) / 2, a) && HasRank(values, |values| / 2, b)
    ensures Median(values) == Some((a + b) / 2.0)
  {
    var n, h := |values|, |values| / 2;
    RankIsSortedValue(values, (n - 1) / 2, a);
    RankIsSortedValue(values, h, b);
    MiddleOf(n);
    hide Sort, HasRank;
  }

  lemma {:induction false} MiddleOf(n: nat)
    ensures n > 0 ==> (n - 1) / 2 == if n % 2 == 1 then n / 2 else n / 2 - 1
  {
  }

  // ---------------------------------------------------------------- counting hours

  datatype Column = Zeros | Low | Mean

  function ValueIn(h: Hour, column: Column): Option<real> {
    match column
    case Zeros => if h.maxZeros.Some? then Some(h.maxZeros.value as real) else None
    case Low => if h.maxLow.Some? then Some(h.maxLow.value as real) else None
    case Mean => Some(h.fcdMean)
  }

  /** The hours that fall into the hour of week. */
  function HoursIn(hours: seq<Hour>, slot: nat): nat {
    if hours == [] then 0 else (if hours[0].hour % 168 == slot then 1 else 0) + HoursIn(hours[1..], slot)
  }

  /** Those of them with a value in the column. */
  function Valued(hours: seq<Hour>, slot: nat, column: Column): nat {
    if hours == [] then 0 else
      (if hours[0].hour % 168 == slot && ValueIn(hours[0], column).Some? then 1 else 0)
      + Valued(hours[1..], slot, column)
  }

  /** Those with a value of at most x. */
  function ValuedAtMost(hours: seq<Hour>, slot: nat, column: Column, x: real): nat {
    if hours == [] then 0 else
      var v := ValueIn(hours[0], column);
      (if hours[0].hour % 168 == slot && v.Some? && v.value <= x then 1 else 0)
      + ValuedAtMost(hours[1..], slot, column, x)
  }

  /** Those with a value below x. */
  function ValuedBelow(hours: seq<Hour>, slot: nat, column: Column, x: real): nat {
    if hours == [] then 0 else
      var v := ValueIn(hours[0], column);
      (if hours[0].hour % 168 == slot && v.Some? && v.value < x then 1 else 0)
      + ValuedBelow(hours[1..], slot, column, x)
  }

  /** x is the column's value at position k in the hour of week. */
  predicate Ranks(hours: seq<Hour>, slot: nat, column: Column, k: nat, x: real) {
    ValuedBelow(hours, slot, column, x) <= k < ValuedAtMost(hours, slot, column, x)
  }

  /** q is the column's 95% quantile in the hour of week. */
  ghost predicate IsQuantile(hours: seq<Hour>, slot: nat, column: Column, q: real) {
    var n := Valued(hours, slot, column);
    n > 0 && exists k: nat, a: real, b: real :: IsProportional(hours, slot, column, n, k, a, b, q)
  }

  ghost predicate IsProportional(hours: seq<Hour>, slot: nat, column: Column, n: nat, k: nat, a: real, b: real,
                                 q: real)
  {
    var position := 0.95 * (n - 1) as real;
    && k as real <= position < k as real + 1.0
    && Ranks(hours, slot, column, k, a) && Ranks(hours, slot, column, if k + 1 < n then k + 1 else k, b)
    && q == Between(a, b, position - k as real)
  }

  /** m is the column's median in the hour of week. */
  ghost predicate IsMedian(hours: seq<Hour>, slot: nat, column: Column, m: real) {
    var n := Valued(hours, slot, column);
    n > 0 && exists a: real, b: real :: IsMiddle(hours, slot, column, n, a, b, m)
  }

  ghost predicate IsMiddle(hours: seq<Hour>, slot: nat, column: Column, n: nat, a: real, b: real, m: real)
    requires n > 0
  {
    Ranks(hours, slot, column, (n - 1) / 2, a) && Ranks(hours, slot, column, n / 2, b) && m == (a + b) / 2.0
  }

  /** The values of the column in the hour of week, in order of the hours. */
  function ValuesOf(hours: seq<Hour>, slot: nat, column: Column): seq<real> {
    var group := HoursAt(hours, slot);
    match column
    case Zeros => Known(ZerosColumn(group))
    case Low => Known(LowColumn(group))
    case Mean => MeanColumn(group)
  }

  lemma {:induction false} HoursAtUnfold(hours: seq<Hour>, slot: nat)
    requires hours != []
    ensures HoursAt(hours, slot)
            == if hours[0].hour % 168 == slot then [hours[0]] + HoursAt(hours[1..], slot) else HoursAt(hours[1..], slot)
  {
  }

  lemma {:induction false} ColumnsUnfold(h: Hour, rest: seq<Hour>)
    ensures var v := ValueIn(h, Zeros);
            Known(ZerosColumn([h] + rest)) == (if v.Some? then [v.value] else []) + Known(ZerosColumn(rest))
    ensures var v := ValueIn(h, Low);
            Known(LowColumn([h] + rest)) == (if v.Some? then [v.value] else []) + Known(LowColumn(rest))
    ensures MeanColumn([h] + rest) == [h.fcdMean] + MeanColumn(rest)
  {
    assert ZerosColumn([h] + rest)[1..] == ZerosColumn(rest);
    assert LowColumn([h] + rest)[1..] == LowColumn(rest);
  }

  lemma {:induction false} ValuesOfUnfold(hours: seq<Hour>, slot: nat, column: Column)
    ensures ValuesOf([], slot, column) == []
    ensures hours != [] ==>
              var v, rest := ValueIn(hours[0], column), ValuesOf(hours[1..], slot, column);
              ValuesOf(hours, slot, column)
              == if hours[0].hour % 168 == slot && v.Some? then [v.value] + rest else rest
  {
    if hours != [] {
      HoursAtUnfold(hours, slot);
      ColumnsUnfold(hours[0], HoursAt(hours[1..], slot));
      hide HoursAt, Known, ZerosColumn, LowColumn, MeanColumn;
    }
  }

  lemma {:induction false} ValuesAreCounted(hours: seq<Hour>, slot: nat, column: Column, x: real)
    ensures var values := ValuesOf(hours, slot, column);
            && |values| == Valued(hours, slot, column)
            && AtMost(values, x) == ValuedAtMost(hours, slot, column, x)
            && Below(values, x) == ValuedBelow(hours, slot, column, x)
    ensures |HoursAt(hours, slot)| == HoursIn(hours, slot)
  {
    ValuesOfUnfold(hours, slot, column);
    if hours != [] {
      ValuesAreCounted(hours[1..], slot, column, x);
      hide ValuesOf, ValueIn;
    }
  }

  lemma {:induction false} QuantileFromRanks(hours: seq<Hour>, slot: nat, column: Column, n: nat, k: nat, a: real,
                                             b: real, q: real)
    requires n == Valued(hours, slot, column) > 0 && IsProportional(hours, slot, column, n, k, a, b, q)
    ensures Quantile95(ValuesOf(hours, slot, column)) == Some(q)
  {
    var values := ValuesOf(hours, slot, column);
    ValuesAreCounted(hours, slot, column, q);
    hide ValuesOf, Quantile95, Between;
    var next := if k + 1 < n then k + 1 else k;
    PositionInside(n, k);
    ColumnRank(hours, slot, column, k, a);
    ColumnRank(hours, slot, column, next, b);
    hide HasRank, Ranks;
    QuantileByCounting(values, k, a, b);
  }

  lemma {:induction false} PositionInside(n: nat, k: nat)
    requires n > 0
    ensures k as real <= 0.95 * (n - 1) as real ==> k < n
    ensures 0 <= (0.95 * (n - 1) as real).Floor < n
  {
  }

  /** The quantile of the column's values is the quantile in the sense of the counts. */
  lemma {:induction false} QuantileOfColumn(hours: seq<Hour>, slot: nat, column: Column, q: real)
    ensures Quantile95(ValuesOf(hours, slot, column)) == Some(q) <==> IsQuantile(hours, slot, column, q)
  {
    var values, n := ValuesOf(hours, slot, column), Valued(hours, slot, column);
    ValuesAreCounted(hours, slot, column, q);
    NoQuantile(values);
    hide ValuesOf, Quantile95, Ranks, Between;
    if n > 0 {
      var position := 0.95 * (n - 1) as real;
      PositionInside(n, 0);
      var k: nat := position.Floor;
      var next := if k + 1 < n then k + 1 else k;
      var a, b := Sort(values)[k], Sort(values)[next];
      hide Sort;
      ColumnRank(hours, slot, column, k, a);
      ColumnRank(hours, slot, column, next, b);
      var q' := Between(a, b, position - k as real);
      assert IsProportional(hours, slot, column, n, k, a, b, q');
      hide IsProportional;
      QuantileFromRanks(hours, slot, column, n, k, a, b, q');
      if IsQuantile(hours, slot, column, q) {
        var k': nat, a': real, b': real :| IsProportional(hours, slot, column, n, k', a', b', q);
        QuantileFromRanks(hours, slot, column, n, k', a', b', q);
      }
    }
  }

  lemma {:induction false} NoQuantile(values: seq<real>)
    ensures Quantile95(values).None? <==> values == []
    ensures Median(values).None? <==> values == []
  {
    hide Sort;
  }

  lemma {:induction false} ColumnRank(hours: seq<Hour>, slot: nat, column: Column, k: nat, x: real)
    requires k < |ValuesOf(hours, slot, column)|
    ensures Ranks(hours, slot, column, k, x) <==> x == Sort(ValuesOf(hours, slot, column))[k]
    ensures Ranks(hours, slot, column, k, x) <==> HasRank(ValuesOf(hours, slot, column), k, x)
  {
    ValuesAreCounted(hours, slot, column, x);
    RankIsSortedValue(ValuesOf(hours, slot, column), k, x);
    hide ValuesOf;
  }

  lemma {:induction false} MedianOfColumn(hours: seq<Hour>, slot: nat, column: Column, m: real)
    ensures Median(ValuesOf(hours, slot, column)) == Some(m) <==> IsMedian(hours, slot, column, m)
  {
    var values, n := ValuesOf(hours, slot, column), Valued(hours, slot, column);
    ValuesAreCounted(hours, slot, column, m);
    hide ValuesOf, Median;
    if n > 0 {
      var a, b := Sort(values)[(n - 1) / 2], Sort(values)[n / 2];
      ColumnRank(hours, slot, column, (n - 1) / 2, a);
      ColumnRank(hours, slot, column, n / 2, b);
      MedianByCounting(values, a, b);
      assert IsMiddle(hours, slot, column, n, a, b, (a + b) / 2.0);
      if IsMedian(hours, slot, column, m) {
        var a': real, b': real :| IsMiddle(hours, slot, column, n, a', b', m);
        ColumnRank(hours, slot, column, (n - 1) / 2, a');
        ColumnRank(hours, slot, column, n / 2, b');
      }
    } else {
      NoQuantile(values);
    }
  }

  // ---------------------------------------------------------------- the profile

  /** The hour lies in a run of at least 5 hours without more than one vehicle in any of their 60 minutes. */
  ghost predicate InQuietRun(hours: seq<Hour>, i: nat) {
    exists start: nat, len: nat :: start <= i < start + len && len >= 5 && QuietFor(hours, start, len)
  }

  ghost predicate QuietFor(hours: seq<Hour>, start: nat, len: nat) {
    start + len <= |hours| && forall j :: start <= j < start + len ==> hours[j].maxLow == Some(60)
  }

  /** The hours without the streak statistics of the quiet runs. */
  ghost predicate IsMasked(hours: seq<Hour>, masked: seq<Hour>) {
    |masked| == |hours| && forall i :: 0 <= i < |hours| ==>
      masked[i] == if InQuietRun(hours, i) then hours[i].(maxZeros := None, maxLow := None) else hours[i]
  }

  lemma {:induction false} FilterMasks(hours: seq<Hour>)
    ensures IsMasked(hours, FilterMaxConsecutive60(hours))
  {
    forall i | 0 <= i < |hours|
      ensures LargeTrueGroups(QuietHours(hours), 5)[i] <==> InQuietRun(hours, i)
    {
      QuietRunIsLongStreak(hours, i);
    }
    hide LargeTrueGroups, InQuietRun;
  }

  lemma {:induction false} QuietRunIsLongStreak(hours: seq<Hour>, i: nat)
    requires i < |hours|
    ensures LargeTrueGroups(QuietHours(hours), 5)[i] <==> InQuietRun(hours, i)
  {
    var flags := QuietHours(hours);
    MaskIsLongStreaks(flags, 5, i);
    hide LargeTrueGroups;
    if InLongStreak(flags, i, 5) {
      var start: int, len: nat :| len >= 5 && StreakThrough(flags, i, start, len);
      assert forall j :: start <= j < start + len ==> flags[j] && (flags[j] ==> hours[j].maxLow == Some(60));
      assert QuietFor(hours, start, len);
    }
    if InQuietRun(hours, i) {
      var start: nat, len: nat :| start <= i < start + len && len >= 5 && QuietFor(hours, start, len);
      assert StreakThrough(flags, i, start, len);
    }
  }

  /** The hour of week has enough hours, and its quantile of zero streaks, rounded to one decimal, is below 35. */
  ghost predicate Acceptable(masked: seq<Hour>, minimumWeeks: nat, slot: nat) {
    HoursIn(masked, slot) >= minimumWeeks && exists q :: IsQuantile(masked, slot, Zeros, q) && q < 34.95
  }

  /** r is x rounded to one decimal. */
  ghost predicate IsTenth(r: real, x: real) {
    -0.05 <= r - x <= 0.05 && (10.0 * r).Floor as real == 10.0 * r
  }

  lemma {:induction false} RoundedBelow35(q: real)
    ensures Round1(q) < 35.0 <==> q < 34.95
    ensures IsTenth(Round1(q), q)
  {
    var t := RoundHalfEven(10.0 * q);
    assert Round1(q) == t as real / 10.0;
    hide RoundHalfEven, Round1;
  }

  lemma {:induction false} SlotOccurs(hours: seq<Hour>, slot: nat)
    ensures slot in Slots(hours) <==> exists i :: 0 <= i < |hours| && hours[i].hour % 168 == slot
    ensures slot in Slots(hours) <==> HoursIn(hours, slot) > 0
  {
    SlotCounted(hours, slot);
  }

  lemma {:induction false} SlotCounted(hours: seq<Hour>, slot: nat)
    ensures HoursIn(hours, slot) > 0 <==> exists i :: 0 <= i < |hours| && hours[i].hour % 168 == slot
  {
    if hours != [] {
      var rest := hours[1..];
      SlotCounted(rest, slot);
      if i :| 0 <= i < |hours| && hours[i].hour % 168 == slot && i > 0 {
        assert rest[i - 1].hour % 168 == slot;
      }
      if i :| 0 <= i < |rest| && rest[i].hour % 168 == slot {
        assert hours[i + 1].hour % 168 == slot;
      }
    }
  }

  lemma {:induction false} MaskedIsFiltered(hours: seq<Hour>, masked: seq<Hour>)
    requires IsMasked(hours, masked)
    ensures masked == FilterMaxConsecutive60(hours)
  {
    FilterMasks(hours);
    hide InQuietRun, FilterMaxConsecutive60;
  }

  /** The rounded quantile of a column, or nothing where no hour has a value. */
  lemma {:induction false} RoundedQuantile(masked: seq<Hour>, slot: nat, column: Column)
    ensures var r := RoundOption(Quantile95(ValuesOf(masked, slot, column)));
            && (r.Some? <==> Valued(masked, slot, column) > 0)
            && (r.Some? ==> exists q :: IsQuantile(masked, slot, column, q) && IsTenth(r.value, q))
            && (r.Some? && r.value < 35.0 <==> exists q :: IsQuantile(masked, slot, column, q) && q < 34.95)
  {
    var values := ValuesOf(masked, slot, column);
    var q := Quantile95(values);
    ValuesAreCounted(masked, slot, column, 0.0);
    NoQuantile(values);
    hide ValuesOf, Quantile95, IsQuantile, Round1, IsTenth;
    forall x: real
      ensures q == Some(x) <==> IsQuantile(masked, slot, column, x)
    {
      QuantileOfColumn(masked, slot, column, x);
    }
    if q.Some? {
      RoundedBelow35(q.value);
    }
  }

  lemma {:induction false} UnfilledRowIs(masked: seq<Hour>, minimumWeeks: nat, slot: nat)
    ensures UnfilledRow(masked, minimumWeeks, slot)
            == if HoursIn(masked, slot) < minimumWeeks then V.ProfileRow(None, None, None)
               else V.ProfileRow(RoundOption(Quantile95(ValuesOf(masked, slot, Zeros))),
                                 RoundOption(Quantile95(ValuesOf(masked, slot, Low))),
                                 RoundOption(Median(ValuesOf(masked, slot, Mean))))
  {
    ValuesAreCounted(masked, slot, Mean, 0.0);
    hide Quantile95, Median, RoundOption, Known, ZerosColumn, LowColumn, MeanColumn, HoursAt;
  }

  lemma {:induction false} UsefulIsAcceptable(masked: seq<Hour>, minimumWeeks: nat, slot: nat)
    ensures slot in UsefulSlots(masked, minimumWeeks) <==> slot < 168 && Acceptable(masked, minimumWeeks, slot)
  {
    SlotOccurs(masked, slot);
    UnfilledRowIs(masked, minimumWeeks, slot);
    RoundedQuantile(masked, slot, Zeros);
    ValuedOccurs(masked, slot, Zeros);
    hide UnfilledRow, RoundOption, Quantile95, ValuesOf, IsQuantile, Slots, HoursIn;
    if slot in UsefulSlots(masked, minimumWeeks) {
      SlotsAreHoursOfWeek(masked, slot);
    }
    if Acceptable(masked, minimumWeeks, slot) {
      var q :| IsQuantile(masked, slot, Zeros, q) && q < 34.95;
      QuantileOfSome(masked, slot, Zeros, q);
    }
  }

  lemma {:induction false} QuantileOfSome(masked: seq<Hour>, slot: nat, column: Column, q: real)
    requires IsQuantile(masked, slot, column, q)
    ensures Valued(masked, slot, column) > 0
  {
  }

  lemma {:induction false} SlotsAreHoursOfWeek(hours: seq<Hour>, slot: nat)
    requires slot in Slots(hours)
    ensures slot < 168
  {
  }

  lemma {:induction false} ValuedOccurs(hours: seq<Hour>, slot: nat, column: Column)
    ensures Valued(hours, slot, column) <= HoursIn(hours, slot)
    ensures Valued(hours, slot, Mean) == HoursIn(hours, slot)
  {
    if hours != [] {
      ValuedOccurs(hours[1..], slot, column);
    }
  }

  /** When there is a profile, exactly: at least 30 hours of week have enough hours and a quantile of zero streaks
      that is rounded to less than 35. */
  lemma {:induction false} ProfileIsProducedIff(hours: seq<Hour>, masked: seq<Hour>, minimumWeeks: nat)
    requires IsMasked(hours, masked)
    ensures CalculateProfileFromHourly(hours, minimumWeeks).Ok? <==>
            |set slot: nat | slot < 168 && Acceptable(masked, minimumWeeks, slot)| >= 30
  {
    MaskedIsFiltered(hours, masked);
    hide UsefulSlots, Acceptable, IsMasked;
    forall slot: nat
      ensures slot in UsefulSlots(masked, minimumWeeks) <==> slot < 168 && Acceptable(masked, minimumWeeks, slot)
    {
      UsefulIsAcceptable(masked, minimumWeeks, slot);
    }
    assert UsefulSlots(masked, minimumWeeks) == set slot: nat | slot < 168 && Acceptable(masked, minimumWeeks, slot);
  }

  /** The shown threshold is the column's quantile in the hour of week, rounded to one decimal, or 60 where the
      hour of week has too few hours or none with a value. */
  ghost predicate ShowsQuantile(masked: seq<Hour>, minimumWeeks: nat, slot: nat, column: Column, shown: Option<real>) {
    shown.Some? &&
    if HoursIn(masked, slot) < minimumWeeks || Valued(masked, slot, column) == 0 then shown.value == 60.0
    else exists q :: IsQuantile(masked, slot, column, q) && IsTenth(shown.value, q)
  }

  /** The shown median is that of the hourly means, rounded to one decimal, or 0 where there are too few hours. */
  ghost predicate ShowsMedian(masked: seq<Hour>, minimumWeeks: nat, slot: nat, shown: Option<real>) {
    shown.Some? &&
    if HoursIn(masked, slot) < minimumWeeks then shown.value == 0.0
    else exists m :: IsMedian(masked, slot, Mean, m) && IsTenth(shown.value, m)
  }

  lemma {:induction false} RoundedMedian(masked: seq<Hour>, slot: nat)
    requires HoursIn(masked, slot) > 0
    ensures var r := RoundOption(Median(ValuesOf(masked, slot, Mean)));
            r.Some? && exists m :: IsMedian(masked, slot, Mean, m) && IsTenth(r.value, m)
  {
    var values := ValuesOf(masked, slot, Mean);
    var m := Median(values);
    ValuesAreCounted(masked, slot, Mean, 0.0);
    ValuedOccurs(masked, slot, Mean);
    NoQuantile(values);
    hide ValuesOf, Median, IsMedian, Round1, IsTenth;
    MedianOfColumn(masked, slot, Mean, m.value);
    RoundedBelow35(m.value);
  }

  /** What a produced profile says of an hour of week: it has a row if and only if some hour falls into it, and
      each column of the row is that of the hours that do. */
  lemma {:induction false} ProducedRowShowsItsHours(hours: seq<Hour>, masked: seq<Hour>, minimumWeeks: nat, slot: nat)
    requires IsMasked(hours, masked) && CalculateProfileFromHourly(hours, minimumWeeks).Ok?
    ensures var profile := CalculateProfileFromHourly(hours, minimumWeeks).value;
            && (slot in profile <==> exists i :: 0 <= i < |masked| && masked[i].hour % 168 == slot)
            && (slot in profile ==>
                  && ShowsQuantile(masked, minimumWeeks, slot, Zeros, profile[slot].zerosQ95)
                  && ShowsQuantile(masked, minimumWeeks, slot, Low, profile[slot].lowQ95)
                  && ShowsMedian(masked, minimumWeeks, slot, profile[slot].fcdMeanMedian))
  {
    MaskedIsFiltered(hours, masked);
    SlotOccurs(masked, slot);
    UnfilledRowIs(masked, minimumWeeks, slot);
    RoundedQuantile(masked, slot, Zeros);
    RoundedQuantile(masked, slot, Low);
    if HoursIn(masked, slot) > 0 {
      RoundedMedian(masked, slot);
    }
    hide UnfilledRow, RoundOption, Quantile95, Median, ValuesOf, IsQuantile, IsMedian, IsMasked, IsTenth, UsefulSlots,
         HoursIn, Valued, Slots, FilterMaxConsecutive60;
  }
}
