/**
 The queue of date ranges of the backfill (threading/date_queue.py): chunking of the period, FIFO
 hand-out, completion counter, requeueing with a retry count, bounded dead-letter list.
 */
module DateRangeQueue {
  import opened Wrappers
  import opened EuclideanDivision
  import opened Numbers

  const DAY := 86_400_000_000 // microseconds
  const DEAD_LETTER_QUEUE_MAX_SIZE := 1000

  datatype DateRange = DateRange(start: int, end: int, retryCount: nat, lastError: Option<string>)

  /** The chunks of chunkDays days each; the last one is cut at the end of the period. */
  function Chunks(start: int, end: int, chunkDays: int): seq<DateRange>
    requires chunkDays >= 1
    decreases end - start
  {
    if start > end then [] else
      var chunkEnd := Smaller(start + (chunkDays - 1) * DAY, end);
      [DateRange(start, chunkEnd, 0, None)] + Chunks(chunkEnd + DAY, end, chunkDays)
  }

  /** A list that keeps its newest entries once it is full (a deque with a maximal length). */
  function BoundedAppend<T>(dead: seq<T>, x: T): seq<T> {
    var all := dead + [x];
    if |all| > DEAD_LETTER_QUEUE_MAX_SIZE then all[|all| - DEAD_LETTER_QUEUE_MAX_SIZE..] else all
  }

  class Queue {
    var waiting: seq<DateRange>
    var totalRanges: nat
    var completedRanges: nat
    var deadLetters: seq<DateRange>

    constructor ()
      ensures waiting == [] && totalRanges == 0 && completedRanges == 0 && deadLetters == []
    {
      waiting, totalRanges, completedRanges, deadLetters := [], 0, 0, [];
    }

    /** The source loops forever for chunkDays below 1. */
    method Populate(startDate: int, endDate: int, chunkDays: int)
      requires chunkDays >= 1
      modifies this
      ensures waiting == old(waiting) + Chunks(startDate, endDate, chunkDays)
      ensures totalRanges == |Chunks(startDate, endDate, chunkDays)|
      ensures completedRanges == old(completedRanges) && deadLetters == old(deadLetters)
    {
      var current := startDate;
      var rangeCount := 0;
      while current <= endDate
        invariant rangeCount + |Chunks(current, endDate, chunkDays)| == |Chunks(startDate, endDate, chunkDays)|
        invariant waiting + Chunks(current, endDate, chunkDays) == old(waiting) + Chunks(startDate, endDate, chunkDays)
        invariant totalRanges == old(totalRanges)
        invariant completedRanges == old(completedRanges) && deadLetters == old(deadLetters)
        decreases endDate - current
      {
        var chunkEnd := Smaller(current + (chunkDays - 1) * DAY, endDate);
        waiting := waiting + [DateRange(current, chunkEnd, 0, None)];
        current := chunkEnd + DAY;
        rangeCount := rangeCount + 1;
      }
      totalRanges := rangeCount;
    }

    method GetNextRange() returns (r: Option<DateRange>)
      modifies this`waiting
      ensures old(waiting) == [] ==> r == None && waiting == []
      ensures old(waiting) != [] ==> r == Some(old(waiting)[0]) && waiting == old(waiting)[1..]
    {
      if waiting == [] {
        r := None;
      } else {
        r, waiting := Some(waiting[0]), waiting[1..];
      }
    }

    method MarkCompleted()
      modifies this`completedRanges
      ensures completedRanges == old(completedRanges) + 1
    {
      completedRanges := completedRanges + 1;
    }

    method IsComplete() returns (b: bool)
      ensures b <==> completedRanges >= totalRanges
    {
      b := completedRanges >= totalRanges;
    }

    method IsEmpty() returns (b: bool)
      ensures b <==> waiting == []
    {
      b := waiting == [];
    }

    method RequeueFailed(range: DateRange, error: string)
      modifies this`waiting
      ensures waiting == old(waiting) + [range.(retryCount := range.retryCount + 1, lastError := Some(error))]
    {
      waiting := waiting + [range.(retryCount := range.retryCount + 1, lastError := Some(error))];
    }

    method MoveToDeadLetter(range: DateRange)
      modifies this`deadLetters
      ensures deadLetters == BoundedAppend(old(deadLetters), range)
    {
      deadLetters := BoundedAppend(deadLetters, range);
    }
  }

  // ---------------------------------------------------------------- the chunks tile the period

  ghost predicate Covers(c: DateRange, t: int) {
    c.start <= t <= c.end
  }

  lemma {:induction false} ChunksStayInside(start: int, end: int, chunkDays: int, i: nat)
    requires chunkDays >= 1 && i < |Chunks(start, end, chunkDays)|
    ensures var c := Chunks(start, end, chunkDays)[i];
            start <= c.start <= c.end <= end && (i > 0 ==> c.start > Chunks(start, end, chunkDays)[0].end)
    decreases i
  {
    assert (chunkDays - 1) * DAY >= 0;
    if i > 0 {
      var chunkEnd := Smaller(start + (chunkDays - 1) * DAY, end);
      ChunksStayInside(chunkEnd + DAY, end, chunkDays, i - 1);
    }
  }

  /** The chunks are ordered and pairwise disjoint, each nonempty and inside the period. */
  lemma {:induction false} ChunksAreOrdered(start: int, end: int, chunkDays: int, i: nat, j: nat)
    requires chunkDays >= 1 && i < j < |Chunks(start, end, chunkDays)|
    ensures var cs := Chunks(start, end, chunkDays);
            start <= cs[i].start <= cs[i].end < cs[j].start <= cs[j].end <= end
    decreases i
  {
    var chunkEnd := Smaller(start + (chunkDays - 1) * DAY, end);
    ChunksStayInside(start, end, chunkDays, i);
    ChunksStayInside(start, end, chunkDays, j);
    if i > 0 {
      ChunksAreOrdered(chunkEnd + DAY, end, chunkDays, i - 1, j - 1);
    }
  }

  ghost predicate Covered(start: int, end: int, chunkDays: int, t: int)
    requires chunkDays >= 1
  {
    exists i :: 0 <= i < |Chunks(start, end, chunkDays)| && Covers(Chunks(start, end, chunkDays)[i], t)
  }

  lemma CoveredUnfold(start: int, end: int, chunkDays: int, t: int)
    requires chunkDays >= 1 && start <= end
    ensures var chunkEnd := Smaller(start + (chunkDays - 1) * DAY, end);
            Covered(start, end, chunkDays, t)
            <==> start <= t <= chunkEnd || Covered(chunkEnd + DAY, end, chunkDays, t)
  {
    var chunkEnd := Smaller(start + (chunkDays - 1) * DAY, end);
    var cs, rest := Chunks(start, end, chunkDays), Chunks(chunkEnd + DAY, end, chunkDays);
    assert cs == [DateRange(start, chunkEnd, 0, None)] + rest;
    if start <= t <= chunkEnd {
      assert Covers(cs[0], t);
    }
    if i :| 0 <= i < |rest| && Covers(rest[i], t) {
      assert Covers(cs[i + 1], t);
    }
    if i :| 0 < i < |cs| && Covers(cs[i], t) {
      assert Covers(rest[i - 1], t);
    }
  }

  /** Which instants of the period the chunks contain, exactly: of every chunkDays days, all but the
      part of the last day after its first instant. */
  lemma {:induction false} CoverageIsExact(start: int, end: int, chunkDays: int, t: int)
    requires chunkDays >= 1 && start <= t <= end
    ensures Covered(start, end, chunkDays, t)
            <==> (t - start) % (chunkDays * 86_400_000_000) <= (chunkDays - 1) * 86_400_000_000
    decreases end - start
  {
    var w := chunkDays * DAY;
    assert w == (chunkDays - 1) * DAY + DAY && (chunkDays - 1) * DAY >= 0;
    var chunkEnd := Smaller(start + (chunkDays - 1) * DAY, end);
    CoveredUnfold(start, end, chunkDays, t);
    if t - start < w {
      EuclideanUnique(t - start, w, 0, t - start);
      if Covered(chunkEnd + DAY, end, chunkDays, t) {
        var rest := Chunks(chunkEnd + DAY, end, chunkDays);
        var i :| 0 <= i < |rest| && Covers(rest[i], t);
        ChunksStayInside(chunkEnd + DAY, end, chunkDays, i);
      }
    } else {
      CoverageIsExact(start + w, end, chunkDays, t);
      DivisionOfShift(t - start, w, 1);
      assert t - (start + w) == t - start - w;
    }
  }

  ghost predicate OnlyCoveredBy(cs: seq<DateRange>, t: int, i: int) {
    && 0 <= i < |cs| && Covers(cs[i], t)
    && forall j :: 0 <= j < |cs| && Covers(cs[j], t) ==> j == i
  }

  /** Every whole-day step of the period lies in exactly one chunk. */
  lemma EveryDayInExactlyOneChunk(start: int, end: int, chunkDays: int, k: nat) returns (i: int)
    requires chunkDays >= 1 && start + k * 86_400_000_000 <= end
    ensures OnlyCoveredBy(Chunks(start, end, chunkDays), start + k * 86_400_000_000, i)
  {
    var cs, t := Chunks(start, end, chunkDays), start + k * DAY;
    DayStepsAreCovered(k, chunkDays);
    CoverageIsExact(start, end, chunkDays, t);
    i :| 0 <= i < |cs| && Covers(cs[i], t);
    forall j | 0 <= j < |cs| && Covers(cs[j], t)
      ensures j == i
    {
      if j < i { ChunksAreOrdered(start, end, chunkDays, j, i); }
      if i < j { ChunksAreOrdered(start, end, chunkDays, i, j); }
    }
  }

  lemma DayStepsAreCovered(k: nat, chunkDays: int)
    requires chunkDays >= 1
    ensures (k * DAY) % (chunkDays * DAY) <= (chunkDays - 1) * DAY
  {
    var q, r := k / chunkDays, k % chunkDays;
    assert k == chunkDays * q + r;
    assert k * DAY == (chunkDays * DAY) * q + r * DAY;
    assert r * DAY <= (chunkDays - 1) * DAY;
    EuclideanUnique(k * DAY, chunkDays * DAY, q, r * DAY);
  }

  function DaySteps(start: int, end: int): int {
    if start > end then 0 else (end - start) / DAY + 1
  }

  function Ceiling(x: int, n: int): int
    requires n >= 1
  {
    (x + n - 1) / n
  }

  lemma CeilingOfShift(x: int, n: int)
    requires n >= 1
    ensures Ceiling(x, n) == Ceiling(x - n, n) + 1
  {
    DivisionOfShift(x + n - 1, n, 1);
  }

  lemma CeilingOfOne(x: int, n: int)
    requires 1 <= x <= n
    ensures Ceiling(x, n) == 1
  {
    EuclideanUnique(x + n - 1, n, 1, x - 1);
  }

  lemma DayStepsOfShortPeriod(start: int, end: int, chunkDays: int)
    requires chunkDays >= 1 && start <= end < start + chunkDays * DAY
    ensures 1 <= DaySteps(start, end) <= chunkDays
  {
    var x := end - start;
    assert x == DAY * (x / DAY) + x % DAY;
  }

  /** The number of chunks is the number of whole-day steps divided by chunkDays, rounded up. */
  lemma {:induction false} ChunkCount(start: int, end: int, chunkDays: int)
    requires chunkDays >= 1
    ensures |Chunks(start, end, chunkDays)| == Ceiling(DaySteps(start, end), chunkDays)
    decreases end - start
  {
    if start > end {
      EuclideanUnique(chunkDays - 1, chunkDays, 0, chunkDays - 1);
    } else {
      var chunkEnd := Smaller(start + (chunkDays - 1) * DAY, end);
      var rest := Chunks(chunkEnd + DAY, end, chunkDays);
      assert |Chunks(start, end, chunkDays)| == 1 + |rest|;
      if end < start + chunkDays * DAY {
        assert chunkEnd + DAY > end;
        DayStepsOfShortPeriod(start, end, chunkDays);
        CeilingOfOne(DaySteps(start, end), chunkDays);
      } else {
        ChunkCount(start + chunkDays * DAY, end, chunkDays);
        DivisionOfShift(end - start, DAY, chunkDays);
        CeilingOfShift(DaySteps(start, end), chunkDays);
      }
    }
  }
}
