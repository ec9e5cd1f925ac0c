/**
 From blobs to the aggregated observations of a date range (lib/TomTomFcdAggregator.py and the
 fcd-manager's fcd_processing.py): one blob's transformation, the merge in which the first value of a
 segment and date wins, sorting by date, and streaming in batches.
 */
module Aggregation {
  import opened Numbers
  import opened Wrappers

  type Id = string
  type Date = string
  datatype Coordinate = Coordinate(longitude: real, latitude: real)
  datatype Properties = Properties(fcdCoverage: Option<int>, confidenceLevel: Option<real>, averageSpeed: Option<real>,
                                   typicalSpeed: Option<real>, currentSpeed: Option<real>)
  datatype Entry = Entry(date: Date, properties: Properties)

  /** dates: a dictionary in insertion order. */
  datatype Segment = Segment(geometry: seq<Coordinate>, dates: seq<Entry>)

  /** Empty is the dictionary without the key segmentId, which differs from one without segments. */
  datatype Aggregate = Empty | Segments(segments: map<Id, Segment>)

  /** shape: None when it is not a list; None in it for a malformed point. */
  datatype RawSegment =
    | NotADictionary
    | RawSegment(segmentIdStr: Option<Id>, segmentId: Option<Id>, shape: Option<seq<Option<Coordinate>>>,
                 confidence: Option<real>, averageSpeed: Option<real>, typicalSpeed: Option<real>,
                     currentSpeed: Option<real>)

  /** Skipped: no timestamp in its name, no content, or not parsable; NoList: detailedSegments is no list. */
  datatype Blob = Skipped | NoList | Blob(timestamp: Date, detailedSegments: seq<RawSegment>)

  datatype AggregationError = KeyError | ValueError

  // ---------------------------------------------------------------- confidence to coverage

  function ConvertConfidence(confidence: Option<real>): Option<int> {
    if confidence.None? then None
    else if confidence.value <= 70.0 then Some(0)
    else
      var scaled := RoundHalfEven((confidence.value - 70.0) / (100.0 - 70.0) * 10.0);
      Some(if scaled < 10 then scaled else 10)
  }

  /** The coverage is a number from 0 to 10 within one half of the scaled confidence. It is 0 exactly up to
      a confidence of 71.5, at most 1 exactly below 74.5 and 10 exactly from 98.5 on. */
  lemma CoverageOfConfidence(confidence: real)
    ensures var fcd := ConvertConfidence(Some(confidence)).value;
            && 0 <= fcd <= 10
            && (70.0 < confidence <= 100.0 ==> -0.5 <= fcd as real - (confidence - 70.0) / 3.0 <= 0.5)
            && (fcd == 0 <==> confidence <= 71.5)
            && (fcd <= 1 <==> confidence < 74.5)
            && (fcd == 10 <==> confidence >= 98.5)
  {
    var x := (confidence - 70.0) / 3.0;
    assert (confidence - 70.0) / (100.0 - 70.0) * 10.0 == x;
  }

  lemma CoverageIsMonotone(a: real, b: real)
    requires a <= b
    ensures ConvertConfidence(Some(a)).value <= ConvertConfidence(Some(b)).value
  {
    RoundHalfEvenIsMonotone((a - 70.0) / (100.0 - 70.0) * 10.0, (b - 70.0) / (100.0 - 70.0) * 10.0);
    CoverageOfConfidence(a);
    CoverageOfConfidence(b);
  }

  // ---------------------------------------------------------------- one blob

  function SegmentKey(raw: RawSegment): Option<Id> {
    if raw.NotADictionary? then None
    else if raw.segmentIdStr.Some? then raw.segmentIdStr
    else raw.segmentId
  }

  function ShapeCoordinates(shape: seq<Option<Coordinate>>): seq<Coordinate> {
    if shape == [] then []
    else ShapeCoordinates(shape[..|shape| - 1])
         + (if shape[|shape| - 1].Some? then [shape[|shape| - 1].value] else [])
  }

  function Observation(timestamp: Date, raw: RawSegment): Segment
    requires raw.RawSegment?
  {
    Segment(if raw.shape.Some? then ShapeCoordinates(raw.shape.value) else [],
            [Entry(timestamp, Properties(ConvertConfidence(raw.confidence), raw.confidence, raw.averageSpeed,
                                         raw.typicalSpeed, raw.currentSpeed))])
  }

  /** A segment listed twice in one blob keeps its last observation. */
  function Observations(timestamp: Date, raws: seq<RawSegment>): map<Id, Segment> {
    if raws == [] then map[]
    else
      var before, raw := Observations(timestamp, raws[..|raws| - 1]), raws[|raws| - 1];
      if SegmentKey(raw).None? then before else before[SegmentKey(raw).value := Observation(timestamp, raw)]
  }

  function Transform(blob: Blob): Aggregate
    requires !blob.Skipped?
  {
    if blob.NoList? then Empty else Segments(Observations(blob.timestamp, blob.detailedSegments))
  }

  // ---------------------------------------------------------------- the merge

  predicate HasDate(dates: seq<Entry>, date: Date) {
    exists i :: 0 <= i < |dates| && dates[i].date == date
  }

  /** Adds the entries whose date is not there yet, in order. */
  function MergeDates(dates: seq<Entry>, more: seq<Entry>): seq<Entry>
    decreases |more|
  {
    if more == [] then dates
    else MergeDates(if HasDate(dates, more[0].date) then dates else dates + [more[0]], more[1..])
  }

  function MergeSegment(id: Id, segments: map<Id, Segment>, more: Segment): Segment {
    if id in segments then Segment(segments[id].geometry, MergeDates(segments[id].dates, more.dates))
    else Segment(more.geometry, MergeDates([], more.dates))
  }

  function MergeSegments(segments: map<Id, Segment>, more: map<Id, Segment>): map<Id, Segment> {
    map id | id in segments.Keys + more.Keys ::
      if id in more then MergeSegment(id, segments, more[id]) else segments[id]
  }

  /** The first file becomes the aggregate as it is. A file without segmentId cannot be merged later. */
  function Merge(more: Aggregate, aggregate: Aggregate): Result<Aggregate, AggregationError> {
    if aggregate.Empty? then Ok(more)
    else if more.Empty? then Err(KeyError)
    else Ok(Segments(MergeSegments(aggregate.segments, more.segments)))
  }

  method MergeDatesInPlace(dates: seq<Entry>, more: seq<Entry>) returns (r: seq<Entry>)
    ensures r == MergeDates(dates, more)
  {
    r := dates;
    for i := 0 to |more|
      invariant MergeDates(r, more[i..]) == MergeDates(dates, more)
    {
      if !HasDate(r, more[i].date) {
        r := r + [more[i]];
      }
      assert more[i..][1..] == more[i + 1..];
    }
  }

  method UpdateAggregate(more: Aggregate, aggregate: Aggregate) returns (r: Result<Aggregate, AggregationError>)
    ensures r == Merge(more, aggregate)
  {
    if aggregate == Empty {
      return Ok(more);
    }
    if more == Empty {
      return Err(KeyError);
    }
    var segments, todo := aggregate.segments, more.segments.Keys;
    while todo != {}
      invariant todo <= more.segments.Keys
      invariant forall id :: id in segments <==> id in aggregate.segments || (id in more.segments && id !in todo)
      invariant forall id :: id in segments ==>
                  segments[id] == if id in more.segments && id !in todo
                                  then MergeSegment(id, aggregate.segments, more.segments[id])
                                  else aggregate.segments[id]
      decreases todo
    {
      var id :| id in todo;
      var added := more.segments[id];
      var target := if id in segments then segments[id] else Segment(added.geometry, []);
      var dates := MergeDatesInPlace(target.dates, added.dates);
      segments := segments[id := Segment(target.geometry, dates)];
      todo := todo - {id};
    }
    assert segments == MergeSegments(aggregate.segments, more.segments);
    r := Ok(Segments(segments));
  }

  // ---------------------------------------------------------------- sorting by date

  /** parse: None for a date that is not in the expected format. */
  predicate Parsable(parse: Date -> Option<int>, dates: seq<Entry>) {
    forall e :: e in dates ==> parse(e.date).Some?
  }

  predicate NotLater(parse: Date -> Option<int>, a: Entry, b: Entry) {
    parse(a.date).Some? && parse(b.date).Some? && parse(a.date).value <= parse(b.date).value
  }

  function InsertLast(parse: Date -> Option<int>, sorted: seq<Entry>, e: Entry): seq<Entry> {
    if sorted == [] || NotLater(parse, sorted[|sorted| - 1], e) then sorted + [e]
    else InsertLast(parse, sorted[..|sorted| - 1], e) + [sorted[|sorted| - 1]]
  }

  function SortEntries(parse: Date -> Option<int>, dates: seq<Entry>): seq<Entry> {
    if dates == [] then [] else InsertLast(parse, SortEntries(parse, dates[..|dates| - 1]), dates[|dates| - 1])
  }

  /** One date that cannot be parsed leaves the dates of its segment as they are. */
  function SortDates(parse: Date -> Option<int>, dates: seq<Entry>): seq<Entry> {
    if Parsable(parse, dates) then SortEntries(parse, dates) else dates
  }

  function SortByDate(parse: Date -> Option<int>, aggregate: Aggregate): Aggregate {
    if aggregate.Empty? then Empty
    else Segments(map id | id in aggregate.segments ::
                    aggregate.segments[id].(dates := SortDates(parse, aggregate.segments[id].dates)))
  }

  ghost predicate InDateOrder(parse: Date -> Option<int>, dates: seq<Entry>) {
    forall i, j :: 0 <= i < j < |dates| ==> NotLater(parse, dates[i], dates[j])
  }

  lemma AppendKeepsOrder(parse: Date -> Option<int>, sorted: seq<Entry>, e: Entry)
    requires InDateOrder(parse, sorted)
    requires sorted == [] || NotLater(parse, sorted[|sorted| - 1], e)
    ensures InDateOrder(parse, sorted + [e])
  {
    forall i, j | 0 <= i < j < |sorted + [e]|
      ensures NotLater(parse, (sorted + [e])[i], (sorted + [e])[j])
    {
      if j == |sorted| && i < |sorted| - 1 {
        assert NotLater(parse, sorted[i], sorted[|sorted| - 1]);
      }
    }
  }

  lemma {:induction false} InsertLastKeepsEntries(parse: Date -> Option<int>, sorted: seq<Entry>, e: Entry)
    ensures multiset(InsertLast(parse, sorted, e)) == multiset(sorted) + multiset{e}
    decreases |sorted|
  {
    if sorted != [] && !NotLater(parse, sorted[|sorted| - 1], e) {
      InsertLastKeepsEntries(parse, sorted[..|sorted| - 1], e);
      assert sorted == sorted[..|sorted| - 1] + [sorted[|sorted| - 1]];
    }
  }

  lemma {:induction false} InsertLastSorts(parse: Date -> Option<int>, sorted: seq<Entry>, e: Entry)
    requires InDateOrder(parse, sorted) && Parsable(parse, sorted) && parse(e.date).Some?
    ensures InDateOrder(parse, InsertLast(parse, sorted, e))
    decreases |sorted|
  {
    if sorted == [] || NotLater(parse, sorted[|sorted| - 1], e) {
      AppendKeepsOrder(parse, sorted, e);
    } else {
      var front, last := sorted[..|sorted| - 1], sorted[|sorted| - 1];
      InsertLastSorts(parse, front, e);
      var inserted := InsertLast(parse, front, e);
      InsertLastKeepsEntries(parse, front, e);
      if inserted != [] {
        assert inserted[|inserted| - 1] in multiset(front) + multiset{e};
        assert NotLater(parse, inserted[|inserted| - 1], last);
      }
      AppendKeepsOrder(parse, inserted, last);
    }
  }

  /** Sorting keeps every entry; when all dates can be parsed, the result is in date order. */
  lemma {:induction false} SortEntriesSorts(parse: Date -> Option<int>, dates: seq<Entry>)
    requires Parsable(parse, dates)
    ensures InDateOrder(parse, SortEntries(parse, dates))
    ensures multiset(SortEntries(parse, dates)) == multiset(dates)
    decreases |dates|
  {
    if dates != [] {
      var front, last := dates[..|dates| - 1], dates[|dates| - 1];
      assert dates == front + [last];
      assert last in dates && forall e :: e in front ==> e in dates;
      SortEntriesSorts(parse, front);
      forall e | e in SortEntries(parse, front)
        ensures parse(e.date).Some?
      {
        assert e in multiset(front);
      }
      InsertLastSorts(parse, SortEntries(parse, front), last);
      InsertLastKeepsEntries(parse, SortEntries(parse, front), last);
    }
  }

  /** Date order, in terms of the instants. */
  lemma SortedByInstant(parse: Date -> Option<int>, dates: seq<Entry>, i: nat, j: nat)
    requires Parsable(parse, dates) && i < j < |dates|
    ensures var sorted := SortEntries(parse, dates);
            && |sorted| == |dates|
            && parse(sorted[i].date).Some? && parse(sorted[j].date).Some?
            && parse(sorted[i].date).value <= parse(sorted[j].date).value
  {
    SortEntriesSorts(parse, dates);
    var sorted := SortEntries(parse, dates);
    assert |multiset(sorted)| == |multiset(dates)|;
    assert NotLater(parse, sorted[i], sorted[j]);
  }

  // ---------------------------------------------------------------- what an aggregate says

  /** A dictionary has one entry a date. */
  ghost predicate Distinct(dates: seq<Entry>) {
    forall i, j :: 0 <= i < j < |dates| ==> dates[i].date != dates[j].date
  }

  ghost predicate WellFormed(aggregate: Aggregate) {
    aggregate.Segments? ==> forall id :: id in aggregate.segments ==> Distinct(aggregate.segments[id].dates)
  }

  function Lookup(dates: seq<Entry>): map<Date, Properties> {
    if dates == [] then map[] else Lookup(dates[1..])[dates[0].date := dates[0].properties]
  }

  datatype SegmentView = SegmentView(geometry: seq<Coordinate>, dates: map<Date, Properties>)

  /** The segment and timestamp map, order aside. */
  function View(aggregate: Aggregate): map<Id, SegmentView> {
    if aggregate.Empty? then map[]
    else map id | id in aggregate.segments ::
           SegmentView(aggregate.segments[id].geometry, Lookup(aggregate.segments[id].dates))
  }

  /** The union in which the first wins, for each segment's geometry and each of its dates. */
  function FirstWins(a: map<Id, SegmentView>, b: map<Id, SegmentView>): map<Id, SegmentView> {
    map id | id in a.Keys + b.Keys ::
      if id !in b then a[id] else if id !in a then b[id] else SegmentView(a[id].geometry, b[id].dates + a[id].dates)
  }

  lemma UnionIsAssociative(a: map<Date, Properties>, b: map<Date, Properties>, c: map<Date, Properties>)
    ensures (a + b) + c == a + (b + c)
  {
  }

  lemma FirstWinsAt(a: map<Id, SegmentView>, b: map<Id, SegmentView>, id: Id)
    ensures id in FirstWins(a, b) <==> id in a || id in b
    ensures id in a && id !in b ==> FirstWins(a, b)[id] == a[id]
    ensures id !in a && id in b ==> FirstWins(a, b)[id] == b[id]
    ensures id in a && id in b ==> FirstWins(a, b)[id] == SegmentView(a[id].geometry, b[id].dates + a[id].dates)
  {
  }

  lemma FirstWinsIsAssociative(a: map<Id, SegmentView>, b: map<Id, SegmentView>, c: map<Id, SegmentView>)
    ensures FirstWins(FirstWins(a, b), c) == FirstWins(a, FirstWins(b, c))
  {
    var l, r := FirstWins(FirstWins(a, b), c), FirstWins(a, FirstWins(b, c));
    hide FirstWins;
    forall id
      ensures id in l <==> id in r
      ensures id in l ==> l[id] == r[id]
    {
      FirstWinsAt(a, b, id);
      FirstWinsAt(b, c, id);
      FirstWinsAt(FirstWins(a, b), c, id);
      FirstWinsAt(a, FirstWins(b, c), id);
      if id in a && id in b && id in c {
        UnionIsAssociative(c[id].dates, b[id].dates, a[id].dates);
      }
    }
  }

  lemma {:induction false} LookupAt(dates: seq<Entry>, i: nat)
    requires Distinct(dates) && i < |dates|
    ensures dates[i].date in Lookup(dates) && Lookup(dates)[dates[i].date] == dates[i].properties
  {
    if i > 0 {
      LookupAt(dates[1..], i - 1);
    }
  }

  lemma {:induction false} LookupDomain(dates: seq<Entry>, date: Date)
    ensures date in Lookup(dates) <==> HasDate(dates, date)
  {
    if dates != [] {
      LookupDomain(dates[1..], date);
      if i :| 0 <= i < |dates| && dates[i].date == date {
        if i > 0 { assert dates[1..][i - 1].date == date; }
      }
      if i :| 0 <= i < |dates[1..]| && dates[1..][i].date == date {
        assert dates[i + 1].date == date;
      }
    }
  }

  lemma {:induction false} LookupSnoc(dates: seq<Entry>, e: Entry)
    ensures Lookup(dates + [e]) == map[e.date := e.properties] + Lookup(dates)
  {
    if dates != [] {
      LookupSnoc(dates[1..], e);
      assert (dates + [e])[1..] == dates[1..] + [e];
    }
  }

  lemma NextLookup(dates: seq<Entry>, e: Entry)
    requires Distinct(dates)
    ensures var next := if HasDate(dates, e.date) then dates else dates + [e];
            Distinct(next) && Lookup(next) == map[e.date := e.properties] + Lookup(dates)
  {
    LookupDomain(dates, e.date);
    LookupSnoc(dates, e);
  }

  lemma {:induction false} MergeDatesLooksUp(dates: seq<Entry>, more: seq<Entry>)
    requires Distinct(dates)
    ensures Lookup(MergeDates(dates, more)) == Lookup(more) + Lookup(dates)
    ensures Distinct(MergeDates(dates, more))
    decreases |more|
  {
    if more != [] {
      var e := more[0];
      var next := if HasDate(dates, e.date) then dates else dates + [e];
      MergeDatesLooksUp(next, more[1..]);
      var added := map[e.date := e.properties];
      NextLookup(dates, e);
      assert Lookup(more) == Lookup(more[1..]) + added;
      UnionIsAssociative(Lookup(more[1..]), added, Lookup(dates));
      hide Lookup, HasDate;
    }
  }

  lemma MergeSegmentIsFirstWins(id: Id, a: map<Id, Segment>, b: map<Id, Segment>)
    requires WellFormed(Segments(a)) && WellFormed(Segments(b)) && id in b
    ensures var r := MergeSegment(id, a, b[id]);
            && Distinct(r.dates)
            && SegmentView(r.geometry, Lookup(r.dates)) == FirstWins(View(Segments(a)), View(Segments(b)))[id]
  {
    var dates := if id in a then a[id].dates else [];
    MergeDatesLooksUp(dates, b[id].dates);
    hide MergeDates, Lookup;
    assert Lookup(b[id].dates) + map[] == Lookup(b[id].dates);
  }

  /** The merge is the union in which the aggregate built so far wins. */
  lemma MergeIsFirstWins(more: Aggregate, aggregate: Aggregate)
    requires WellFormed(aggregate) && WellFormed(more) && Merge(more, aggregate).Ok?
    ensures View(Merge(more, aggregate).value) == FirstWins(View(aggregate), View(more))
    ensures WellFormed(Merge(more, aggregate).value)
  {
    if aggregate.Segments? {
      var a, b, r := aggregate.segments, more.segments, MergeSegments(aggregate.segments, more.segments);
      forall id | id in r
        ensures Distinct(r[id].dates)
        ensures View(Segments(r))[id] == FirstWins(View(aggregate), View(more))[id]
      {
        if id in b {
          MergeSegmentIsFirstWins(id, a, b);
        }
        hide MergeSegment, Lookup;
      }
      assert View(Segments(r)).Keys == FirstWins(View(aggregate), View(more)).Keys;
      hide MergeSegment, Lookup, MergeSegments, FirstWins, View;
    } else {
      assert FirstWins(map[], View(more)) == View(more);
    }
  }

  lemma SortedLookup(parse: Date -> Option<int>, dates: seq<Entry>)
    requires Distinct(dates)
    ensures Lookup(SortDates(parse, dates)) == Lookup(dates) && Distinct(SortDates(parse, dates))
  {
    if Parsable(parse, dates) {
      SortEntriesSorts(parse, dates);
      SameEntries(dates, SortEntries(parse, dates));
    }
  }

  lemma PermutationIsDistinct(a: seq<Entry>, b: seq<Entry>)
    requires Distinct(a) && multiset(a) == multiset(b)
    ensures Distinct(b)
  {
    forall i, j | 0 <= i < j < |b|
      ensures b[i].date != b[j].date
    {
      assert b[i] in multiset(a) && b[j] in multiset(a);
      if b[i] == b[j] {
        TwiceInMultiset(b, i, j);
        OnceInMultiset(a, b[i]);
      }
    }
  }

  lemma TwiceInMultiset(b: seq<Entry>, i: nat, j: nat)
    requires i < j < |b| && b[i] == b[j]
    ensures multiset(b)[b[i]] >= 2
  {
    assert b == b[..j] + b[j..];
    assert b[..j][i] == b[i] && b[j..][0] == b[i];
  }

  lemma {:induction false} OnceInMultiset(a: seq<Entry>, e: Entry)
    requires Distinct(a)
    ensures multiset(a)[e] <= 1
    decreases |a|
  {
    if a != [] {
      var front, last := a[..|a| - 1], a[|a| - 1];
      OnceInMultiset(front, e);
      assert a == front + [last];
      if last == e { assert e !in front; }
    }
  }

  lemma SameEntries(a: seq<Entry>, b: seq<Entry>)
    requires Distinct(a) && multiset(a) == multiset(b)
    ensures Lookup(a) == Lookup(b) && Distinct(b)
  {
    PermutationIsDistinct(a, b);
    LookupIncluded(a, b);
    LookupIncluded(b, a);
  }

  lemma LookupIncluded(a: seq<Entry>, b: seq<Entry>)
    requires Distinct(a) && Distinct(b) && multiset(a) == multiset(b)
    ensures forall d :: d in Lookup(a) ==> d in Lookup(b) && Lookup(b)[d] == Lookup(a)[d]
  {
    forall d | d in Lookup(a)
      ensures d in Lookup(b) && Lookup(b)[d] == Lookup(a)[d]
    {
      LookupDomain(a, d);
      var i :| 0 <= i < |a| && a[i].date == d;
      LookupAt(a, i);
      assert a[i] in multiset(b);
      var j :| 0 <= j < |b| && b[j] == a[i];
      LookupAt(b, j);
    }
  }

  /** Sorting keeps the segment and timestamp map. Every segment whose dates can all be parsed comes out in
      date order; the others keep their order. */
  lemma SortKeepsTheMap(parse: Date -> Option<int>, aggregate: Aggregate)
    requires WellFormed(aggregate)
    ensures View(SortByDate(parse, aggregate)) == View(aggregate) && WellFormed(SortByDate(parse, aggregate))
    ensures SortByDate(parse, aggregate).Empty? == aggregate.Empty?
    ensures aggregate.Segments? ==> forall id :: id in aggregate.segments ==>
              if Parsable(parse, aggregate.segments[id].dates)
              then InDateOrder(parse, SortByDate(parse, aggregate).segments[id].dates)
              else SortByDate(parse, aggregate).segments[id].dates == aggregate.segments[id].dates
  {
    if aggregate.Segments? {
      forall id | id in aggregate.segments
        ensures Lookup(SortDates(parse, aggregate.segments[id].dates)) == Lookup(aggregate.segments[id].dates)
        ensures Distinct(SortDates(parse, aggregate.segments[id].dates))
        ensures Parsable(parse, aggregate.segments[id].dates) ==>
                  InDateOrder(parse, SortDates(parse, aggregate.segments[id].dates))
      {
        SortedLookup(parse, aggregate.segments[id].dates);
        if Parsable(parse, aggregate.segments[id].dates) {
          SortEntriesSorts(parse, aggregate.segments[id].dates);
        }
      }
    }
  }

  lemma {:induction false} ObservationsAreWellFormed(timestamp: Date, raws: seq<RawSegment>)
    ensures WellFormed(Segments(Observations(timestamp, raws)))
  {
    if raws != [] {
      ObservationsAreWellFormed(timestamp, raws[..|raws| - 1]);
    }
  }
}
