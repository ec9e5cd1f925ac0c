/**
 The points that an aggregated batch is written as (write_fcd_model in classes/FCDInfluxDBManager.py), and
 what the batch size of the streaming means for the store that the backfill leaves.
 */
module FcdPoints {
  import opened Wrappers
  import opened Aggregation
  import opened FcdProcessing
  import opened SegmentStore
  import opened Backfill
  import opened BackfillProperties
  import opened Numbers

  const FIELDS := {"fcd_coverage", "confidence_level", "averageSpeed", "typicalSpeed", "currentSpeed"}

  function Numeric(x: Option<real>): Option<Value> {
    if x.None? then None else Some(Number(x.value))
  }

  /** A missing property is no number and writes no field. */
  function FieldValue(p: Properties, field: string): Option<Value> {
    if field == "fcd_coverage" then
      if p.fcdCoverage.None? then None else Some(Number(p.fcdCoverage.value as real))
    else if field == "confidence_level" then Numeric(p.confidenceLevel)
    else if field == "averageSpeed" then Numeric(p.averageSpeed)
    else if field == "typicalSpeed" then Numeric(p.typicalSpeed)
    else if field == "currentSpeed" then Numeric(p.currentSpeed)
    else None
  }

  /** time: None for a timestamp that the writer cannot parse, whose observation it skips. */
  function EntryPoints(time: Date -> Option<int>, id: Id, e: Entry): Store {
    if time(e.date).None? then map[]
    else map f | f in FIELDS && FieldValue(e.properties, f).Some? ::
           Key(id, Point(time(e.date).value, f)) := FieldValue(e.properties, f).value
  }

  function SegmentPoints(time: Date -> Option<int>, id: Id, dates: seq<Entry>): Store {
    if dates == [] then map[]
    else SegmentPoints(time, id, dates[..|dates| - 1]) + EntryPoints(time, id, dates[|dates| - 1])
  }

  /** Segments write different keys, so their order does not matter. */
  ghost function PointsOfIds(time: Date -> Option<int>, segments: map<Id, Segment>, ids: set<Id>): Store
    requires ids <= segments.Keys
  {
    if ids == {} then map[] else
      var id :| id in ids;
      PointsOfIds(time, segments, ids - {id}) + SegmentPoints(time, id, segments[id].dates)
  }

  ghost function AggregatePoints(time: Date -> Option<int>, aggregate: Aggregate): Store {
    if aggregate.Empty? then map[] else PointsOfIds(time, aggregate.segments, aggregate.segments.Keys)
  }

  ghost function Batches(time: Date -> Option<int>, yielded: seq<Aggregate>): (b: seq<Store>)
    ensures |b| == |yielded|
  {
    seq(|yielded|, i requires 0 <= i < |yielded| => AggregatePoints(time, yielded[i]))
  }

  // ---------------------------------------------------------------- what an aggregate writes

  ghost predicate PointOf(time: Date -> Option<int>, date: Date, p: Properties, k: Key, v: Value) {
    time(date) == Some(k.point.time) && FieldValue(p, k.point.field) == Some(v)
  }

  ghost predicate HasPoint(time: Date -> Option<int>, view: map<Id, SegmentView>, k: Key, v: Value) {
    exists date :: Observed(view, k.segment, date) && PointOf(time, date, view[k.segment].dates[date], k, v)
  }

  lemma EntryPointsAt(time: Date -> Option<int>, id: Id, e: Entry, k: Key)
    ensures k in EntryPoints(time, id, e) <==>
              k.segment == id && time(e.date) == Some(k.point.time) && FieldValue(e.properties, k.point.field).Some?
    ensures k in EntryPoints(time, id, e) ==>
              PointOf(time, e.date, e.properties, k, EntryPoints(time, id, e)[k])
  {
    if time(e.date).Some? && FieldValue(e.properties, k.point.field).Some? {
      assert k.point.field in FIELDS;
      assert k == Key(k.segment, Point(k.point.time, k.point.field));
    }
  }

  lemma {:induction false} SegmentPointsAt(time: Date -> Option<int>, id: Id, dates: seq<Entry>, k: Key)
    ensures k in SegmentPoints(time, id, dates) ==>
              exists e :: e in dates && k in EntryPoints(time, id, e)
                          && SegmentPoints(time, id, dates)[k] == EntryPoints(time, id, e)[k]
    ensures forall e :: e in dates && k in EntryPoints(time, id, e) ==> k in SegmentPoints(time, id, dates)
    decreases |dates|
  {
    if dates != [] {
      var front, last := dates[..|dates| - 1], dates[|dates| - 1];
      SegmentPointsAt(time, id, front, k);
      hide EntryPoints;
      assert forall e :: e in dates <==> e in front || e == last;
      assert SegmentPoints(time, id, dates) == SegmentPoints(time, id, front) + EntryPoints(time, id, last);
      if k in EntryPoints(time, id, last) {
        assert last in dates;
      }
    }
  }

  lemma SegmentPointsStayInSegment(time: Date -> Option<int>, id: Id, dates: seq<Entry>, k: Key)
    requires k in SegmentPoints(time, id, dates)
    ensures k.segment == id
  {
    SegmentPointsAt(time, id, dates, k);
    var e :| e in dates && k in EntryPoints(time, id, e);
    EntryPointsAt(time, id, e, k);
  }

  lemma {:induction false} PointsOfIdsAt(time: Date -> Option<int>, segments: map<Id, Segment>, ids: set<Id>, k: Key)
    requires ids <= segments.Keys
    ensures k in PointsOfIds(time, segments, ids) <==>
              k.segment in ids && k in SegmentPoints(time, k.segment, segments[k.segment].dates)
    ensures k in PointsOfIds(time, segments, ids) ==>
              PointsOfIds(time, segments, ids)[k] == SegmentPoints(time, k.segment, segments[k.segment].dates)[k]
    decreases |ids|
  {
    if ids != {} {
      var id :| id in ids && PointsOfIds(time, segments, ids)
                             == PointsOfIds(time, segments, ids - {id}) + SegmentPoints(time, id, segments[id].dates);
      PointsOfIdsAt(time, segments, ids - {id}, k);
      hide SegmentPoints, PointsOfIds;
      if k in SegmentPoints(time, id, segments[id].dates) {
        SegmentPointsStayInSegment(time, id, segments[id].dates, k);
      }
    }
  }

  /** The points written are those of the segment and timestamp map. */
  lemma AggregateWritesItsView(time: Date -> Option<int>, aggregate: Aggregate, k: Key)
    requires WellFormed(aggregate)
    ensures k in AggregatePoints(time, aggregate) ==>
              HasPoint(time, View(aggregate), k, AggregatePoints(time, aggregate)[k])
    ensures forall v :: HasPoint(time, View(aggregate), k, v) ==> k in AggregatePoints(time, aggregate)
  {
    if aggregate.Segments? {
      var view := View(aggregate);
      PointsOfIdsAt(time, aggregate.segments, aggregate.segments.Keys, k);
      if k.segment in aggregate.segments {
        var dates := aggregate.segments[k.segment].dates;
        assert view[k.segment].dates == Lookup(dates);
        SegmentPointsAt(time, k.segment, dates, k);
        hide SegmentPoints, PointsOfIds, EntryPoints;
        if k in SegmentPoints(time, k.segment, dates) {
          var e :| e in dates && k in EntryPoints(time, k.segment, e)
                   && SegmentPoints(time, k.segment, dates)[k] == EntryPoints(time, k.segment, e)[k];
          EntryPointsAt(time, k.segment, e, k);
          var i :| 0 <= i < |dates| && dates[i] == e;
          LookupAt(dates, i);
          assert Observed(view, k.segment, e.date);
        }
        forall v | HasPoint(time, view, k, v)
          ensures k in SegmentPoints(time, k.segment, dates)
        {
          var date :| Observed(view, k.segment, date) && PointOf(time, date, view[k.segment].dates[date], k, v);
          LookupDomain(dates, date);
          var i :| 0 <= i < |dates| && dates[i].date == date;
          LookupAt(dates, i);
          EntryPointsAt(time, k.segment, dates[i], k);
        }
      }
    }
  }

  // ---------------------------------------------------------------- agreeing blobs

  ghost predicate SameAtSameTime(time: Date -> Option<int>, x: map<Id, SegmentView>, y: map<Id, SegmentView>) {
    forall id, d, e :: Observed(x, id, d) && Observed(y, id, e) && time(d).Some? && time(d) == time(e) ==>
      x[id].dates[d] == y[id].dates[e]
  }

  /** No segment is observed twice at one time with different properties. */
  ghost predicate Agree(time: Date -> Option<int>, blobs: seq<Blob>) {
    forall i, j :: 0 <= i < |blobs| && 0 <= j < |blobs| ==> SameAtSameTime(time, BlobView(blobs[i]), BlobView(blobs[j]))
  }

  /** Some blob has the point. */
  ghost predicate Says(time: Date -> Option<int>, blobs: seq<Blob>, k: Key, v: Value) {
    exists i :: 0 <= i < |blobs| && HasPoint(time, BlobView(blobs[i]), k, v)
  }

  lemma SameViewsSayOneThing(time: Date -> Option<int>, x: map<Id, SegmentView>, y: map<Id, SegmentView>,
                             k: Key, v: Value, u: Value)
    requires SameAtSameTime(time, x, y) && HasPoint(time, x, k, v) && HasPoint(time, y, k, u)
    ensures u == v
  {
    hide FieldValue;
    var d :| Observed(x, k.segment, d) && PointOf(time, d, x[k.segment].dates[d], k, v);
    var e :| Observed(y, k.segment, e) && PointOf(time, e, y[k.segment].dates[e], k, u);
  }

  lemma AgreeingBlobsSayOneThing(time: Date -> Option<int>, blobs: seq<Blob>, k: Key, v: Value, u: Value)
    requires Agree(time, blobs) && Says(time, blobs, k, v) && Says(time, blobs, k, u)
    ensures u == v
  {
    hide BlobView, HasPoint, SameAtSameTime;
    var i :| 0 <= i < |blobs| && HasPoint(time, BlobView(blobs[i]), k, v);
    var j :| 0 <= j < |blobs| && HasPoint(time, BlobView(blobs[j]), k, u);
    SameViewsSayOneThing(time, BlobView(blobs[i]), BlobView(blobs[j]), k, v, u);
  }

  lemma {:induction false} MeaningComesFromABlob(blobs: seq<Blob>, id: Id, date: Date) returns (i: nat)
    requires Observed(Meaning(blobs), id, date)
    ensures i < |blobs| && Observed(BlobView(blobs[i]), id, date)
    ensures BlobView(blobs[i])[id].dates[date] == Meaning(blobs)[id].dates[date]
  {
    var front, last := blobs[..|blobs| - 1], blobs[|blobs| - 1];
    FirstWinsAt(Meaning(front), BlobView(last), id);
    hide FirstWins, BlobView;
    if Observed(Meaning(front), id, date) {
      i := MeaningComesFromABlob(front, id, date);
    } else {
      i := |blobs| - 1;
    }
  }

  /** Agreeing blobs mean what they say: the first-wins union drops no point. */
  lemma MeaningSays(time: Date -> Option<int>, blobs: seq<Blob>, k: Key, v: Value)
    requires Agree(time, blobs)
    ensures HasPoint(time, Meaning(blobs), k, v) <==> Says(time, blobs, k, v)
  {
    var m := Meaning(blobs);
    hide Meaning, BlobView, FieldValue;
    if HasPoint(time, m, k, v) {
      var d :| Observed(m, k.segment, d) && PointOf(time, d, m[k.segment].dates[d], k, v);
      var i := MeaningComesFromABlob(blobs, k.segment, d);
      assert HasPoint(time, BlobView(blobs[i]), k, v);
    }
    if Says(time, blobs, k, v) {
      var i :| 0 <= i < |blobs| && HasPoint(time, BlobView(blobs[i]), k, v);
      var d :| Observed(BlobView(blobs[i]), k.segment, d)
          && PointOf(time, d, BlobView(blobs[i])[k.segment].dates[d], k, v);
      ObservedIsMeant(blobs, k.segment, d, i);
      var j := MeaningComesFromABlob(blobs, k.segment, d);
      assert SameAtSameTime(time, BlobView(blobs[i]), BlobView(blobs[j]));
      assert PointOf(time, d, m[k.segment].dates[d], k, v);
    }
  }

  lemma {:induction false} ObservedIsMeant(blobs: seq<Blob>, id: Id, date: Date, i: nat)
    requires i < |blobs| && Observed(BlobView(blobs[i]), id, date)
    ensures Observed(Meaning(blobs), id, date)
    decreases |blobs|
  {
    var front, last := blobs[..|blobs| - 1], blobs[|blobs| - 1];
    FirstWinsAt(Meaning(front), BlobView(last), id);
    hide FirstWins, BlobView;
    if i < |front| {
      ObservedIsMeant(front, id, date, i);
    }
  }

  // ---------------------------------------------------------------- batches of a stream

  lemma AgreeParts(time: Date -> Option<int>, a: seq<Blob>, b: seq<Blob>)
    requires Agree(time, a + b)
    ensures Agree(time, a) && Agree(time, b)
  {
    hide BlobView, SameAtSameTime;
    assert forall i :: 0 <= i < |a| ==> (a + b)[i] == a[i];
    assert forall i :: 0 <= i < |b| ==> (a + b)[|a| + i] == b[i];
  }

  lemma SaysParts(time: Date -> Option<int>, a: seq<Blob>, b: seq<Blob>, k: Key, v: Value)
    ensures Says(time, a + b, k, v) <==> Says(time, a, k, v) || Says(time, b, k, v)
  {
    hide BlobView, HasPoint;
    assert forall i :: 0 <= i < |a| ==> (a + b)[i] == a[i];
    assert forall i :: 0 <= i < |b| ==> (a + b)[|a| + i] == b[i];
    if i :| 0 <= i < |a + b| && HasPoint(time, BlobView((a + b)[i]), k, v) {
      if i >= |a| { assert (a + b)[i] == b[i - |a|]; }
    }
  }

  /** The key's points in a list of batches are exactly what the blobs say about it. */
  ghost predicate WriteExactly(time: Date -> Option<int>, batches: seq<Store>, blobs: seq<Blob>, k: Key) {
    && (forall b :: b in batches && k in b ==> Says(time, blobs, k, b[k]))
    && (forall v :: Says(time, blobs, k, v) ==> exists b :: b in batches && k in b)
  }

  lemma WriteExactlyConcat(time: Date -> Option<int>, a: seq<Store>, b: seq<Store>, x: seq<Blob>, y: seq<Blob>, k: Key)
    requires WriteExactly(time, a, x, k) && WriteExactly(time, b, y, k)
    ensures WriteExactly(time, a + b, x + y, k)
  {
    forall v: Value
      ensures Says(time, x + y, k, v) <==> Says(time, x, k, v) || Says(time, y, k, v)
    {
      SaysParts(time, x, y, k, v);
    }
    hide Says;
    assert forall s :: s in a + b <==> s in a || s in b;
  }

  lemma BatchWritesExactly(time: Date -> Option<int>, parse: Date -> Option<int>, blobs: seq<Blob>, k: Key)
    requires Agree(time, blobs) && ProcessBatch(parse, blobs).Ok?
    ensures WriteExactly(time, Batches(time, Nonempty(ProcessBatch(parse, blobs).value)), blobs, k)
  {
    var a := ProcessBatch(parse, blobs).value;
    BatchMeans(parse, blobs);
    AggregateWritesItsView(time, a, k);
    forall v: Value
      ensures HasPoint(time, View(a), k, v) <==> Says(time, blobs, k, v)
    {
      MeaningSays(time, blobs, k, v);
    }
    hide ProcessBatch, Meaning, Says, WellFormed;
    if a.Empty? {
      ViewOfEmpty();
      assert Batches(time, Nonempty(a)) == [];
    } else {
      hide HasPoint, AggregatePoints;
      assert Batches(time, Nonempty(a)) == [AggregatePoints(time, a)];
    }
  }

  /** Whatever the batch size, the batches of a stream write exactly what its blobs say. */
  lemma {:induction false} StreamWritesExactly(time: Date -> Option<int>, parse: Date -> Option<int>, blobs: seq<Blob>,
                                               batchSize: nat, k: Key)
    requires batchSize >= 1 && Agree(time, blobs) && Streamed(parse, blobs, batchSize).error.None?
    ensures WriteExactly(time, Batches(time, Streamed(parse, blobs, batchSize).yielded), blobs, k)
    decreases |blobs|
  {
    if blobs == [] {
      assert Streamed(parse, blobs, batchSize).yielded == [];
    } else {
      var n := if batchSize < |blobs| then batchSize else |blobs|;
      var batch, rest := blobs[..n], blobs[n..];
      assert blobs == batch + rest;
      StreamedUnfold(parse, blobs, batchSize, n);
      hide Streamed, ProcessBatch, WriteExactly, Agree, Batches, Nonempty;
      AgreeParts(time, batch, rest);
      StreamWritesExactly(time, parse, rest, batchSize, k);
      BatchWritesExactly(time, parse, batch, k);
      var a, yielded := Nonempty(ProcessBatch(parse, batch).value), Streamed(parse, rest, batchSize).yielded;
      BatchesConcat(time, a, yielded);
      WriteExactlyConcat(time, Batches(time, a), Batches(time, yielded), batch, rest, k);
    }
  }

  lemma BatchesConcat(time: Date -> Option<int>, a: seq<Aggregate>, b: seq<Aggregate>)
    ensures Batches(time, a + b) == Batches(time, a) + Batches(time, b)
  {
  }

  // ---------------------------------------------------------------- the plan of a backfill

  /** What processing each range yields, as points; `ranges` are the blobs of each range. */
  ghost function Plan(time: Date -> Option<int>, parse: Date -> Option<int>, ranges: seq<seq<Blob>>, batchSize: nat)
    : (p: seq<seq<Store>>)
    requires batchSize >= 1
    ensures |p| == |ranges|
  {
    seq(|ranges|, r requires 0 <= r < |ranges| => Batches(time, Streamed(parse, ranges[r], batchSize).yielded))
  }

  function AllBlobs(ranges: seq<seq<Blob>>): seq<Blob> {
    if ranges == [] then [] else ranges[0] + AllBlobs(ranges[1..])
  }

  ghost predicate NothingRaises(parse: Date -> Option<int>, ranges: seq<seq<Blob>>, batchSize: nat)
    requires batchSize >= 1
  {
    forall r :: 0 <= r < |ranges| ==> Streamed(parse, ranges[r], batchSize).error.None?
  }

  lemma {:induction false} PlanWritesExactly(time: Date -> Option<int>, parse: Date -> Option<int>,
                                             ranges: seq<seq<Blob>>, batchSize: nat, k: Key)
    requires batchSize >= 1 && Agree(time, AllBlobs(ranges)) && NothingRaises(parse, ranges, batchSize)
    ensures WriteExactly(time, Flatten(Plan(time, parse, ranges, batchSize)), AllBlobs(ranges), k)
  {
    var plan := Plan(time, parse, ranges, batchSize);
    if ranges != [] {
      var tail := ranges[1..];
      AgreeParts(time, ranges[0], AllBlobs(tail));
      hide Agree, WriteExactly, Streamed;
      assert plan[1..] == Plan(time, parse, tail, batchSize);
      StreamWritesExactly(time, parse, ranges[0], batchSize, k);
      PlanWritesExactly(time, parse, tail, batchSize, k);
      WriteExactlyConcat(time, plan[0], Flatten(plan[1..]), ranges[0], AllBlobs(tail), k);
    }
  }

  /** Agreeing blobs make agreeing batches, which is what the refinement of the backfill asks for. */
  lemma {:induction false} AgreeingBlobsAreCompatible(time: Date -> Option<int>, parse: Date -> Option<int>,
                                                      ranges: seq<seq<Blob>>, batchSize: nat, c: Config)
    requires batchSize >= 1 && Agree(time, AllBlobs(ranges)) && NothingRaises(parse, ranges, batchSize)
    requires c.batches == Plan(time, parse, ranges, batchSize)
    ensures Compatible(c)
  {
    hide Agree, Plan, Says, NothingRaises;
    forall b, d, k | b in Flatten(c.batches) && d in Flatten(c.batches) && k in b && k in d
      ensures b[k] == d[k]
    {
      PlanWritesExactly(time, parse, ranges, batchSize, k);
      AgreeingBlobsSayOneThing(time, AllBlobs(ranges), k, b[k], d[k]);
    }
  }

  lemma SequentialAt(time: Date -> Option<int>, parse: Date -> Option<int>, ranges: seq<seq<Blob>>, batchSize: nat,
                     c: Config, db: Store, k: Key, v: Value)
    requires batchSize >= 1 && Agree(time, AllBlobs(ranges)) && NothingRaises(parse, ranges, batchSize)
    requires c.batches == Plan(time, parse, ranges, batchSize)
    requires (exists u :: Says(time, AllBlobs(ranges), k, u)) ==> Says(time, AllBlobs(ranges), k, v)
    ensures var r := Sequential(c, db);
            if Says(time, AllBlobs(ranges), k, v) then k in r && r[k] == v
            else (k in r <==> k in db) && (k in db ==> r[k] == db[k])
  {
    hide Agree, Plan, Says, NothingRaises;
    PlanWritesExactly(time, parse, ranges, batchSize, k);
    forall b | b in Flatten(c.batches) && k in b
      ensures b[k] == v
    {
      AgreeingBlobsSayOneThing(time, AllBlobs(ranges), k, v, b[k]);
    }
    ApplyAt(db, Flatten(c.batches), k, v);
  }

  /** The batch size does not change the store that the sequential backfill leaves, as long as no segment is
      observed twice at one time with different properties. */
  lemma SequentialIgnoresBatchSize(time: Date -> Option<int>, parse: Date -> Option<int>, ranges: seq<seq<Blob>>,
                                   m: nat, n: nat, c: Config, d: Config, db: Store)
    requires m >= 1 && n >= 1 && Agree(time, AllBlobs(ranges))
    requires NothingRaises(parse, ranges, m) && NothingRaises(parse, ranges, n)
    requires c.batches == Plan(time, parse, ranges, m) && d.batches == Plan(time, parse, ranges, n)
    ensures Sequential(c, db) == Sequential(d, db)
  {
    hide Agree, Plan, Says, NothingRaises, Sequential;
    var x, y := Sequential(c, db), Sequential(d, db);
    forall k: Key
      ensures (k in x <==> k in y) && (k in x ==> x[k] == y[k])
    {
      var v: Value :| (exists u :: Says(time, AllBlobs(ranges), k, u)) ==> Says(time, AllBlobs(ranges), k, v);
      SequentialAt(time, parse, ranges, m, c, db, k, v);
      SequentialAt(time, parse, ranges, n, d, db, k, v);
    }
  }

  /** Two concurrent backfills of the same ranges with different batch sizes, workers, retries and
      interleavings leave the same store, once both have completed, without failed writes, and drained. */
  lemma BackfillIgnoresBatchSize(time: Date -> Option<int>, parse: Date -> Option<int>, ranges: seq<seq<Blob>>,
                                 m: nat, n: nat, c: Config, d: Config,
                                 states: seq<State>, steps: seq<Step>, i: nat,
                                 states': seq<State>, steps': seq<Step>, j: nat)
    requires m >= 1 && n >= 1 && Agree(time, AllBlobs(ranges))
    requires NothingRaises(parse, ranges, m) && NothingRaises(parse, ranges, n)
    requires c.batches == Plan(time, parse, ranges, m) && d.batches == Plan(time, parse, ranges, n)
    requires IsRun(c, states, steps) && i < |states| && c.clientReady
    requires IsRun(d, states', steps') && j < |states'| && d.clientReady
    requires states[0].store == states'[0].store
    requires states[i].completedRanges >= Total(c) && states[i].failedWrites == 0
    requires states[i].requests == [] && !states[i].writer.Writing?
    requires states'[j].completedRanges >= Total(d) && states'[j].failedWrites == 0
    requires states'[j].requests == [] && !states'[j].writer.Writing?
    ensures states[i].store == states'[j].store
  {
    hide *;
    AgreeingBlobsAreCompatible(time, parse, ranges, m, c);
    AgreeingBlobsAreCompatible(time, parse, ranges, n, d);
    CompletedBackfillIsSequential(c, states, steps, i);
    CompletedBackfillIsSequential(d, states', steps', j);
    SequentialIgnoresBatchSize(time, parse, ranges, m, n, c, d, states[0].store);
  }

  // ---------------------------------------------------------------- disagreeing blobs

  lemma {:induction false} ObservationsHaveOneDate(timestamp: Date, raws: seq<RawSegment>, id: Id, date: Date)
    requires Observed(View(Segments(Observations(timestamp, raws))), id, date)
    ensures date == timestamp
  {
    var front, raw := raws[..|raws| - 1], raws[|raws| - 1];
    if SegmentKey(raw) == Some(id) {
      var dates := Observation(timestamp, raw).dates;
      LookupDomain(dates, date);
    } else {
      ObservationsHaveOneDate(timestamp, front, id, date);
    }
  }

  lemma BlobsBatch(parse: Date -> Option<int>, blobs: seq<Blob>)
    requires blobs != [] && forall i :: 0 <= i < |blobs| ==> blobs[i].Blob?
    ensures ProcessBatch(parse, blobs).Ok? && ProcessBatch(parse, blobs).value.Segments?
    ensures WellFormed(ProcessBatch(parse, blobs).value) && View(ProcessBatch(parse, blobs).value) == Meaning(blobs)
  {
    FoldRaisesIff(blobs);
    assert blobs[0].Blob?;
    BatchMeans(parse, blobs);
    hide Fold, Meaning, View;
  }

  /** A batch of blobs of one date writes, at that date, the properties of the first that observes the segment. */
  lemma BatchWritesTheFirst(time: Date -> Option<int>, parse: Date -> Option<int>, blobs: seq<Blob>, k: Key, x: Value)
    requires blobs != [] && blobs[0].Blob?
    requires forall i :: 0 <= i < |blobs| ==> blobs[i].Blob? && blobs[i].timestamp == blobs[0].timestamp
    requires var date := blobs[0].timestamp;
             Observed(BlobView(blobs[0]), k.segment, date)
             && PointOf(time, date, BlobView(blobs[0])[k.segment].dates[date], k, x)
    ensures ProcessBatch(parse, blobs).Ok? && ProcessBatch(parse, blobs).value.Segments?
    ensures var written := AggregatePoints(time, ProcessBatch(parse, blobs).value);
            k in written && written[k] == x
  {
    var date, m := blobs[0].timestamp, Meaning(blobs);
    BlobsBatch(parse, blobs);
    var a := ProcessBatch(parse, blobs).value;
    AggregateWritesItsView(time, a, k);
    FirstObservationWins(blobs, k.segment, date, 0);
    hide ProcessBatch, Meaning, View, AggregatePoints, FieldValue, WellFormed, BlobView;
    assert HasPoint(time, m, k, x);
    var v := AggregatePoints(time, a)[k];
    var d :| Observed(m, k.segment, d) && PointOf(time, d, m[k.segment].dates[d], k, v);
    var i := MeaningComesFromABlob(blobs, k.segment, d);
    BlobHasOneDate(blobs[i], k.segment, d);
  }

  lemma BlobHasOneDate(blob: Blob, id: Id, date: Date)
    requires Observed(BlobView(blob), id, date)
    ensures blob.Blob? && date == blob.timestamp
  {
    if blob.Blob? {
      ObservationsHaveOneDate(blob.timestamp, blob.detailedSegments, id, date);
    }
  }

  lemma LastWins(db: Store, a: Store, b: Store, k: Key)
    ensures k in a ==> k in Apply(db, [a]) && Apply(db, [a])[k] == a[k]
    ensures k in b ==> k in Apply(db, [a, b]) && Apply(db, [a, b])[k] == b[k]
  {
    assert [a, b][..1] == [a] && [a][..0] == [];
  }

  lemma StreamOfTwo(parse: Date -> Option<int>, p: Blob, q: Blob)
    requires p.Blob? && q.Blob?
    ensures ProcessBatch(parse, [p]).Ok? && ProcessBatch(parse, [q]).Ok? && ProcessBatch(parse, [p, q]).Ok?
    ensures Streamed(parse, [p, q], 1).yielded == [ProcessBatch(parse, [p]).value, ProcessBatch(parse, [q]).value]
    ensures Streamed(parse, [p, q], 2).yielded == [ProcessBatch(parse, [p, q]).value]
  {
    BlobsBatch(parse, [p]);
    BlobsBatch(parse, [q]);
    BlobsBatch(parse, [p, q]);
    StreamedUnfold(parse, [p, q], 1, 1);
    StreamedUnfold(parse, [q], 1, 1);
    StreamedUnfold(parse, [p, q], 2, 2);
    assert [p, q][..1] == [p] && [p, q][1..] == [q] && [q][..1] == [q] && [q][1..] == [];
    assert [p, q][..2] == [p, q] && [p, q][2..] == [];
    assert Streamed(parse, [], 1).yielded == [] && Streamed(parse, [], 2).yielded == [];
    hide Streamed, ProcessBatch, View, Meaning, WellFormed;
  }

  // ---------------------------------------------------------------- what each batch size leaves

  /** The blob observes the point's segment at the point's time. */
  predicate ObservesAt(time: Date -> Option<int>, blob: Blob, k: Key) {
    && blob.Blob? && Observed(BlobView(blob), k.segment, blob.timestamp)
    && time(blob.timestamp) == Some(k.point.time)
  }

  /** The value that the blob gives the point, if any. */
  function BlobGives(time: Date -> Option<int>, blob: Blob, k: Key): Option<Value> {
    if ObservesAt(time, blob, k) then FieldValue(BlobView(blob)[k.segment].dates[blob.timestamp], k.point.field)
    else None
  }

  /** What the first blob that observes the point's segment and time gives, be it nothing. */
  function FirstGiven(time: Date -> Option<int>, blobs: seq<Blob>, k: Key): Option<Value> {
    if blobs == [] then None
    else if ObservesAt(time, blobs[0], k) then BlobGives(time, blobs[0], k)
    else FirstGiven(time, blobs[1..], k)
  }

  /** What the last blob that gives the point a value gives. */
  function LastGiven(time: Date -> Option<int>, blobs: seq<Blob>, k: Key): Option<Value> {
    if blobs == [] then None else
      var later := LastGiven(time, blobs[1..], k);
      if later.Some? then later else BlobGives(time, blobs[0], k)
  }

  /** Of the batches of a stream, what the last one gives whose first observation gives the point a value. */
  function BatchGiven(time: Date -> Option<int>, blobs: seq<Blob>, batchSize: nat, k: Key): Option<Value>
    requires batchSize >= 1
    decreases |blobs|
  {
    if blobs == [] then None else
      var n := Smaller(batchSize, |blobs|);
      var later := BatchGiven(time, blobs[n..], batchSize, k);
      if later.Some? then later else FirstGiven(time, blobs[..n], k)
  }

  lemma {:induction false} FirstGivenIs(time: Date -> Option<int>, blobs: seq<Blob>, k: Key, i: nat)
    requires i < |blobs| && ObservesAt(time, blobs[i], k)
    requires forall j :: 0 <= j < i ==> !ObservesAt(time, blobs[j], k)
    ensures FirstGiven(time, blobs, k) == BlobGives(time, blobs[i], k)
  {
    hide BlobGives, ObservesAt;
    if i > 0 {
      FirstGivenIs(time, blobs[1..], k, i - 1);
    }
  }

  lemma {:induction false} LastGivenIs(time: Date -> Option<int>, blobs: seq<Blob>, k: Key, i: nat)
    requires i < |blobs| && BlobGives(time, blobs[i], k).Some?
    requires forall j :: i < j < |blobs| ==> BlobGives(time, blobs[j], k).None?
    ensures LastGiven(time, blobs, k) == BlobGives(time, blobs[i], k)
  {
    hide BlobGives;
    if i > 0 {
      LastGivenIs(time, blobs[1..], k, i - 1);
    } else {
      NothingGiven(time, blobs[1..], k);
    }
  }

  lemma {:induction false} NothingGiven(time: Date -> Option<int>, blobs: seq<Blob>, k: Key)
    requires forall j :: 0 <= j < |blobs| ==> BlobGives(time, blobs[j], k).None?
    ensures LastGiven(time, blobs, k).None?
  {
    hide BlobGives;
    if blobs != [] {
      NothingGiven(time, blobs[1..], k);
    }
  }

  /** Batches of one: the last blob that gives a value. */
  lemma {:induction false} BatchesOfOneGiveTheLast(time: Date -> Option<int>, blobs: seq<Blob>, k: Key)
    ensures BatchGiven(time, blobs, 1, k) == LastGiven(time, blobs, k)
    decreases |blobs|
  {
    if blobs != [] {
      BatchesOfOneGiveTheLast(time, blobs[1..], k);
      var batch := blobs[..1];
      assert batch[0] == blobs[0] && batch[1..] == [];
      assert FirstGiven(time, [], k) == None;
      assert FirstGiven(time, batch, k) == BlobGives(time, blobs[0], k);
      hide Observed, FieldValue, BlobView;
    }
  }

  /** One single batch: the first blob that observes. */
  lemma OneBatchGivesTheFirst(time: Date -> Option<int>, blobs: seq<Blob>, batchSize: nat, k: Key)
    requires batchSize >= 1 && batchSize >= |blobs|
    ensures BatchGiven(time, blobs, batchSize, k) == FirstGiven(time, blobs, k)
  {
    if blobs != [] {
      var n := Smaller(batchSize, |blobs|);
      assert n == |blobs| && blobs[..n] == blobs && blobs[n..] == [];
      assert BatchGiven(time, [], batchSize, k) == None;
      hide FirstGiven;
    }
  }

  /** One time is written in one way, as the timestamps taken from blob names are. */
  ghost predicate Canonical(time: Date -> Option<int>, blobs: seq<Blob>) {
    forall i, j :: 0 <= i < |blobs| && 0 <= j < |blobs| && blobs[i].Blob? && blobs[j].Blob?
                   && time(blobs[i].timestamp).Some? && time(blobs[i].timestamp) == time(blobs[j].timestamp) ==>
      blobs[i].timestamp == blobs[j].timestamp
  }

  lemma BlobHasWhatItGives(time: Date -> Option<int>, blob: Blob, k: Key, v: Value)
    ensures HasPoint(time, BlobView(blob), k, v) <==> BlobGives(time, blob, k) == Some(v)
  {
    hide BlobView, FieldValue;
    if HasPoint(time, BlobView(blob), k, v) {
      var d :| Observed(BlobView(blob), k.segment, d) && PointOf(time, d, BlobView(blob)[k.segment].dates[d], k, v);
      BlobHasOneDate(blob, k.segment, d);
    }
    if BlobGives(time, blob, k) == Some(v) {
      assert PointOf(time, blob.timestamp, BlobView(blob)[k.segment].dates[blob.timestamp], k, v);
    }
  }

  lemma MeaningCons(blobs: seq<Blob>)
    requires blobs != []
    ensures Meaning(blobs) == FirstWins(BlobView(blobs[0]), Meaning(blobs[1..]))
  {
    var first := [blobs[0]];
    assert blobs == first + blobs[1..];
    MeaningConcat(first, blobs[1..]);
    var none: seq<Blob> := first[..0];
    assert none == [];
    assert Meaning(first) == FirstWins(Meaning(none), BlobView(blobs[0]));
    NothingWins(BlobView(blobs[0]));
    hide FirstWins, BlobView;
  }

  lemma MeaningDate(time: Date -> Option<int>, blobs: seq<Blob>, id: Id, date: Date) returns (i: nat)
    requires Observed(Meaning(blobs), id, date)
    ensures i < |blobs| && blobs[i].Blob? && date == blobs[i].timestamp
  {
    i := MeaningComesFromABlob(blobs, id, date);
    BlobHasOneDate(blobs[i], id, date);
  }

  /** Where the first blob observes the segment at the time, it alone decides the point. */
  lemma FirstBlobDecides(time: Date -> Option<int>, blobs: seq<Blob>, k: Key, v: Value)
    requires blobs != [] && Canonical(time, blobs) && ObservesAt(time, blobs[0], k)
    ensures HasPoint(time, Meaning(blobs), k, v) <==> BlobGives(time, blobs[0], k) == Some(v)
  {
    var m, date := Meaning(blobs), blobs[0].timestamp;
    FirstObservationWins(blobs, k.segment, date, 0);
    hide Meaning, BlobView, FieldValue;
    if HasPoint(time, m, k, v) {
      var d :| Observed(m, k.segment, d) && PointOf(time, d, m[k.segment].dates[d], k, v);
      var i := MeaningDate(time, blobs, k.segment, d);
      assert d == date;
    }
    if BlobGives(time, blobs[0], k) == Some(v) {
      assert PointOf(time, date, m[k.segment].dates[date], k, v);
    }
  }

  /** Where it does not, the others decide. */
  lemma OthersDecide(time: Date -> Option<int>, blobs: seq<Blob>, k: Key, v: Value)
    requires blobs != [] && !ObservesAt(time, blobs[0], k)
    ensures HasPoint(time, Meaning(blobs), k, v) <==> HasPoint(time, Meaning(blobs[1..]), k, v)
  {
    var m, rest, view := Meaning(blobs), Meaning(blobs[1..]), BlobView(blobs[0]);
    MeaningCons(blobs);
    FirstWinsAt(view, rest, k.segment);
    forall d | time(d) == Some(k.point.time)
      ensures !Observed(view, k.segment, d)
    {
      if Observed(view, k.segment, d) {
        BlobHasOneDate(blobs[0], k.segment, d);
      }
    }
    hide Meaning, BlobView, FieldValue, FirstWins;
    forall d | time(d) == Some(k.point.time)
      ensures Observed(m, k.segment, d) <==> Observed(rest, k.segment, d)
      ensures Observed(m, k.segment, d) ==> m[k.segment].dates[d] == rest[k.segment].dates[d]
    {
    }
  }

  lemma {:induction false} MeaningHasTheFirst(time: Date -> Option<int>, blobs: seq<Blob>, k: Key, v: Value)
    requires Canonical(time, blobs)
    ensures HasPoint(time, Meaning(blobs), k, v) <==> FirstGiven(time, blobs, k) == Some(v)
    decreases |blobs|
  {
    if blobs == [] {
      assert Meaning(blobs) == map[];
    } else {
      var rest := blobs[1..];
      assert forall i :: 0 <= i < |rest| ==> rest[i] == blobs[i + 1];
      assert Canonical(time, rest);
      hide Meaning, BlobGives, ObservesAt, HasPoint, Canonical;
      MeaningHasTheFirst(time, rest, k, v);
      if ObservesAt(time, blobs[0], k) {
        FirstBlobDecides(time, blobs, k, v);
      } else {
        OthersDecide(time, blobs, k, v);
      }
    }
  }

  /** The store has the value, or is as it was at the key. */
  ghost predicate LeavesAt(db: Store, after: Store, k: Key, given: Option<Value>) {
    if given.Some? then k in after && after[k] == given.value
    else (k in after <==> k in db) && (k in db ==> after[k] == db[k])
  }

  lemma {:induction false} ApplyConcat(db: Store, a: seq<Store>, b: seq<Store>)
    ensures Apply(db, a + b) == Apply(Apply(db, a), b)
    decreases |b|
  {
    if b == [] {
      assert a + b == a;
    } else {
      var front := b[..|b| - 1];
      assert (a + b)[..|a + b| - 1] == a + front;
      ApplyConcat(db, a, front);
    }
  }

  lemma ApplyOne(db: Store, a: Store)
    ensures Apply(db, [a]) == db + a
  {
    var none: seq<Store> := [a][..0];
    assert none == [];
    assert Apply(db, [a]) == Apply(db, none) + a;
  }

  lemma BatchLeaves(time: Date -> Option<int>, parse: Date -> Option<int>, blobs: seq<Blob>, db: Store, k: Key)
    requires Canonical(time, blobs) && ProcessBatch(parse, blobs).Ok?
    ensures var a := ProcessBatch(parse, blobs).value;
            LeavesAt(db, Apply(db, Batches(time, Nonempty(a))), k, FirstGiven(time, blobs, k))
  {
    var a := ProcessBatch(parse, blobs).value;
    BatchMeans(parse, blobs);
    AggregateWritesItsView(time, a, k);
    forall v: Value
      ensures HasPoint(time, View(a), k, v) <==> FirstGiven(time, blobs, k) == Some(v)
    {
      MeaningHasTheFirst(time, blobs, k, v);
    }
    if a.Empty? {
      ViewOfEmpty();
      assert Batches(time, Nonempty(a)) == [];
      assert forall v :: !HasPoint(time, map[], k, v);
      assert FirstGiven(time, blobs, k).None? by {
        if FirstGiven(time, blobs, k).Some? {
          assert false;
        }
      }
    } else {
      BatchesOfFew(time, a, a);
      var points := AggregatePoints(time, a);
      ApplyOne(db, points);
      hide AggregatePoints, Meaning, FirstGiven, HasPoint, View, ProcessBatch, Batches;
      if k in points {
        assert HasPoint(time, View(a), k, points[k]);
      }
    }
  }

  lemma CanonicalParts(time: Date -> Option<int>, a: seq<Blob>, b: seq<Blob>)
    requires Canonical(time, a + b)
    ensures Canonical(time, a) && Canonical(time, b)
  {
    assert forall i :: 0 <= i < |a| ==> (a + b)[i] == a[i];
    assert forall i :: 0 <= i < |b| ==> (a + b)[|a| + i] == b[i];
  }

  /** What the batches of a stream leave at a key. */
  lemma {:induction false} StreamLeaves(time: Date -> Option<int>, parse: Date -> Option<int>, blobs: seq<Blob>,
                                        batchSize: nat, db: Store, k: Key)
    requires batchSize >= 1 && Canonical(time, blobs) && Streamed(parse, blobs, batchSize).error.None?
    ensures LeavesAt(db, Apply(db, Batches(time, Streamed(parse, blobs, batchSize).yielded)), k,
                     BatchGiven(time, blobs, batchSize, k))
    decreases |blobs|
  {
    if blobs == [] {
      assert Batches(time, Streamed(parse, blobs, batchSize).yielded) == [];
    } else {
      var n := Smaller(batchSize, |blobs|);
      var batch, rest := blobs[..n], blobs[n..];
      assert blobs == batch + rest;
      StreamedUnfold(parse, blobs, batchSize, n);
      CanonicalParts(time, batch, rest);
      var a, yielded := Nonempty(ProcessBatch(parse, batch).value), Streamed(parse, rest, batchSize).yielded;
      var mid := Apply(db, Batches(time, a));
      hide Streamed, ProcessBatch, Canonical, Batches, Nonempty, Apply, FirstGiven;
      BatchLeaves(time, parse, batch, db, k);
      StreamLeaves(time, parse, rest, batchSize, mid, k);
      BatchesConcat(time, a, yielded);
      ApplyConcat(db, Batches(time, a), Batches(time, yielded));
    }
  }

  /** The store that a stream leaves. */
  ghost function StreamStore(time: Date -> Option<int>, parse: Date -> Option<int>, blobs: seq<Blob>, batchSize: nat,
                             db: Store): Store
    requires batchSize >= 1
  {
    Apply(db, Batches(time, Streamed(parse, blobs, batchSize).yielded))
  }

  /** The two batch sizes leave the same store, whatever it held before. */
  ghost predicate SameStore(time: Date -> Option<int>, parse: Date -> Option<int>, blobs: seq<Blob>, m: nat, n: nat)
    requires m >= 1 && n >= 1
  {
    forall db: Store :: StreamStore(time, parse, blobs, m, db) == StreamStore(time, parse, blobs, n, db)
  }

  /** For every point, the last batches of both sizes that give it a value give the same. */
  ghost predicate SameGiven(time: Date -> Option<int>, blobs: seq<Blob>, m: nat, n: nat)
    requires m >= 1 && n >= 1
  {
    forall k: Key :: BatchGiven(time, blobs, m, k) == BatchGiven(time, blobs, n, k)
  }

  /** For every point, the first blob that observes its segment and time gives what the last blob that gives
      the point gives. */
  ghost predicate FirstIsLast(time: Date -> Option<int>, blobs: seq<Blob>) {
    forall k: Key :: FirstGiven(time, blobs, k) == LastGiven(time, blobs, k)
  }

  lemma SameGivenSameStore(time: Date -> Option<int>, parse: Date -> Option<int>, blobs: seq<Blob>, m: nat, n: nat)
    requires m >= 1 && n >= 1 && Canonical(time, blobs) && SameGiven(time, blobs, m, n)
    requires Streamed(parse, blobs, m).error.None? && Streamed(parse, blobs, n).error.None?
    ensures SameStore(time, parse, blobs, m, n)
  {
    hide Streamed, Canonical, Apply, BatchGiven;
    forall db: Store
      ensures StreamStore(time, parse, blobs, m, db) == StreamStore(time, parse, blobs, n, db)
    {
      var x, y := StreamStore(time, parse, blobs, m, db), StreamStore(time, parse, blobs, n, db);
      forall k: Key
        ensures (k in x <==> k in y) && (k in x ==> x[k] == y[k])
      {
        StreamLeaves(time, parse, blobs, m, db, k);
        StreamLeaves(time, parse, blobs, n, db, k);
      }
    }
  }

  lemma SameStoreSameGiven(time: Date -> Option<int>, parse: Date -> Option<int>, blobs: seq<Blob>, m: nat, n: nat)
    requires m >= 1 && n >= 1 && Canonical(time, blobs) && SameStore(time, parse, blobs, m, n)
    requires Streamed(parse, blobs, m).error.None? && Streamed(parse, blobs, n).error.None?
    ensures SameGiven(time, blobs, m, n)
  {
    hide Streamed, Canonical, Apply, BatchGiven;
    var empty: Store := map[];
    assert StreamStore(time, parse, blobs, m, empty) == StreamStore(time, parse, blobs, n, empty);
    forall k: Key
      ensures BatchGiven(time, blobs, m, k) == BatchGiven(time, blobs, n, k)
    {
      StreamLeaves(time, parse, blobs, m, empty, k);
      StreamLeaves(time, parse, blobs, n, empty, k);
    }
  }

  /** Exactly when two batch sizes leave the same store. */
  lemma BatchSizesAgreeIff(time: Date -> Option<int>, parse: Date -> Option<int>, blobs: seq<Blob>, m: nat, n: nat)
    requires m >= 1 && n >= 1 && Canonical(time, blobs)
    requires Streamed(parse, blobs, m).error.None? && Streamed(parse, blobs, n).error.None?
    ensures SameStore(time, parse, blobs, m, n) <==> SameGiven(time, blobs, m, n)
  {
    hide *;
    if SameGiven(time, blobs, m, n) {
      SameGivenSameStore(time, parse, blobs, m, n);
    } else if SameStore(time, parse, blobs, m, n) {
      SameStoreSameGiven(time, parse, blobs, m, n);
    }
  }

  /** One blob a batch against one single batch. */
  lemma BatchingChangesNothingIff(time: Date -> Option<int>, parse: Date -> Option<int>, blobs: seq<Blob>, n: nat)
    requires n >= 1 && n >= |blobs| && Canonical(time, blobs)
    requires Streamed(parse, blobs, 1).error.None? && Streamed(parse, blobs, n).error.None?
    ensures SameStore(time, parse, blobs, 1, n) <==> FirstIsLast(time, blobs)
  {
    BatchSizesAgreeIff(time, parse, blobs, 1, n);
    hide Streamed, BatchGiven, Canonical, SameStore, FirstGiven, LastGiven;
    forall k: Key
      ensures BatchGiven(time, blobs, 1, k) == LastGiven(time, blobs, k)
      ensures BatchGiven(time, blobs, n, k) == FirstGiven(time, blobs, k)
    {
      BatchesOfOneGiveTheLast(time, blobs, k);
      OneBatchGivesTheFirst(time, blobs, n, k);
    }
  }

  /** One way to differ: where two blobs give a field of a segment at one time different values, batches
      of one leave the second value in the store and a batch of two the first. */
  lemma {:induction false} DisagreementShowsInTheStore(time: Date -> Option<int>, parse: Date -> Option<int>, p: Blob,
                                                       q: Blob, k: Key, x: Value, y: Value, db: Store)
    requires p.Blob? && q.Blob? && p.timestamp == q.timestamp && x != y
    requires Observed(BlobView(p), k.segment, p.timestamp) && Observed(BlobView(q), k.segment, p.timestamp)
    requires PointOf(time, p.timestamp, BlobView(p)[k.segment].dates[p.timestamp], k, x)
    requires PointOf(time, p.timestamp, BlobView(q)[k.segment].dates[p.timestamp], k, y)
    ensures var single := Apply(db, Batches(time, Streamed(parse, [p, q], 1).yielded));
            var double := Apply(db, Batches(time, Streamed(parse, [p, q], 2).yielded));
            k in single && single[k] == y && k in double && double[k] == x
  {
    StreamOfTwo(parse, p, q);
    BatchWritesTheFirst(time, parse, [q], k, y);
    BatchWritesTheFirst(time, parse, [p, q], k, x);
    var a, b, c := ProcessBatch(parse, [p]).value, ProcessBatch(parse, [q]).value, ProcessBatch(parse, [p, q]).value;
    hide *;
    BatchesOfFew(time, a, b);
    BatchesOfFew(time, c, c);
    LastWins(db, AggregatePoints(time, a), AggregatePoints(time, b), k);
    LastWins(db, AggregatePoints(time, c), AggregatePoints(time, c), k);
  }

  lemma BatchesOfFew(time: Date -> Option<int>, a: Aggregate, b: Aggregate)
    ensures Batches(time, [a]) == [AggregatePoints(time, a)]
    ensures Batches(time, [a, b]) == [AggregatePoints(time, a), AggregatePoints(time, b)]
  {
    hide AggregatePoints;
  }

  /** Another: where the first blob lacks a field that the second has, batches of one write it and a batch of
      two drops it. */
  lemma {:induction false} MissingFieldShowsInTheStore(time: Date -> Option<int>, parse: Date -> Option<int>, p: Blob,
                                                       q: Blob, k: Key, y: Value, db: Store)
    requires p.Blob? && q.Blob? && p.timestamp == q.timestamp && k !in db
    requires ObservesAt(time, p, k) && BlobGives(time, p, k).None? && BlobGives(time, q, k) == Some(y)
    ensures var single, double := StreamStore(time, parse, [p, q], 1, db), StreamStore(time, parse, [p, q], 2, db);
            k in single && single[k] == y && k !in double
  {
    var blobs := [p, q];
    StreamRaisesIff(parse, blobs, 1);
    StreamRaisesIff(parse, blobs, 2);
    FirstGivenIs(time, blobs, k, 0);
    LastGivenIs(time, blobs, k, 1);
    hide Streamed, BlobGives, ObservesAt, Apply, FirstGiven, LastGiven;
    BatchesOfOneGiveTheLast(time, blobs, k);
    OneBatchGivesTheFirst(time, blobs, 2, k);
    StreamLeaves(time, parse, blobs, 1, db, k);
    StreamLeaves(time, parse, blobs, 2, db, k);
  }
}
