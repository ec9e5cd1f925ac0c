/**
 From the raw listings of the blobs to the store that the backfill leaves: which listing of a segment decides a
 point, and which of its properties goes into which field.
 */
module RawToStore {
  import opened Wrappers
  import opened Aggregation
  import opened FcdProcessing
  import opened SegmentStore
  import opened Backfill
  import opened BackfillProperties
  import opened FcdPoints

  // ---------------------------------------------------------------- what a blob lists

  /** The listing is of the segment: segmentIdStr is its id, or that is missing and segmentId is. */
  predicate IsListing(raw: RawSegment, id: Id) {
    raw.RawSegment? && (raw.segmentIdStr == Some(id) || (raw.segmentIdStr == None && raw.segmentId == Some(id)))
  }

  ghost predicate LastListing(raws: seq<RawSegment>, id: Id, l: nat) {
    l < |raws| && IsListing(raws[l], id) && forall m :: l < m < |raws| ==> !IsListing(raws[m], id)
  }

  ghost predicate ListsSegment(blob: Blob, id: Id) {
    blob.Blob? && exists l :: 0 <= l < |blob.detailedSegments| && IsListing(blob.detailedSegments[l], id)
  }

  /** The number that the listing gives the field. */
  function RawField(raw: RawSegment, field: string): Option<real>
    requires raw.RawSegment?
  {
    match field
    case "averageSpeed" => raw.averageSpeed
    case "typicalSpeed" => raw.typicalSpeed
    case "currentSpeed" => raw.currentSpeed
    case "confidence_level" => raw.confidence
    case "fcd_coverage" =>
      if raw.confidence == None then None else Some(ConvertConfidence(raw.confidence).value as real)
    case _ => None
  }

  function AsValue(x: Option<real>): Option<Value> {
    if x.None? then None else Some(Number(x.value))
  }

  lemma {:induction false} ListingIsKeyed(raw: RawSegment, id: Id)
    ensures SegmentKey(raw) == Some(id) <==> IsListing(raw, id)
  {
  }

  /** A blob's observation of a segment is that of its last listing. */
  lemma {:induction false} ObservationOfLast(timestamp: Date, raws: seq<RawSegment>, id: Id, l: nat)
    requires LastListing(raws, id, l)
    ensures id in Observations(timestamp, raws) && Observations(timestamp, raws)[id] == Observation(timestamp, raws[l])
    decreases |raws|
  {
    var front, n := raws[..|raws| - 1], |raws| - 1;
    ListingIsKeyed(raws[n], id);
    hide SegmentKey, Observation, IsListing;
    if l < n {
      assert LastListing(front, id, l);
      ObservationOfLast(timestamp, front, id, l);
    }
  }

  lemma {:induction false} UnlistedIsUnobserved(timestamp: Date, raws: seq<RawSegment>, id: Id)
    requires forall l :: 0 <= l < |raws| ==> !IsListing(raws[l], id)
    ensures id !in Observations(timestamp, raws)
  {
    if raws != [] {
      ListingIsKeyed(raws[|raws| - 1], id);
      hide SegmentKey, Observation, IsListing;
      UnlistedIsUnobserved(timestamp, raws[..|raws| - 1], id);
    }
  }

  lemma {:induction false} LastListingExists(raws: seq<RawSegment>, id: Id) returns (l: nat)
    requires exists m :: 0 <= m < |raws| && IsListing(raws[m], id)
    ensures LastListing(raws, id, l)
  {
    var n := |raws| - 1;
    if IsListing(raws[n], id) {
      l := n;
    } else {
      var front := raws[..n];
      var m :| 0 <= m < |raws| && IsListing(raws[m], id);
      assert IsListing(front[m], id);
      l := LastListingExists(front, id);
    }
  }

  function ListedProperties(raw: RawSegment): Properties
    requires raw.RawSegment?
  {
    Properties(ConvertConfidence(raw.confidence), raw.confidence, raw.averageSpeed, raw.typicalSpeed, raw.currentSpeed)
  }

  lemma {:induction false} ListedIsObserved(blob: Blob, id: Id, l: nat)
    requires blob.Blob? && LastListing(blob.detailedSegments, id, l)
    ensures Observed(BlobView(blob), id, blob.timestamp)
    ensures blob.detailedSegments[l].RawSegment?
    ensures BlobView(blob)[id].dates == map[blob.timestamp := ListedProperties(blob.detailedSegments[l])]
  {
    ObservationOfLast(blob.timestamp, blob.detailedSegments, id, l);
    var dates := Observation(blob.timestamp, blob.detailedSegments[l]).dates;
    hide Observations, ConvertConfidence, ShapeCoordinates;
    assert dates[1..] == [];
    assert Lookup(dates) == map[dates[0].date := dates[0].properties];
  }

  lemma {:induction false} ObservedMeansListed(blob: Blob, id: Id, date: Date)
    ensures Observed(BlobView(blob), id, date) <==> ListsSegment(blob, id) && date == blob.timestamp
  {
    if blob.Blob? {
      if ListsSegment(blob, id) {
        var l := LastListingExists(blob.detailedSegments, id);
        ListedIsObserved(blob, id, l);
      } else {
        UnlistedIsUnobserved(blob.timestamp, blob.detailedSegments, id);
      }
      hide ListedProperties, Observations, IsListing;
    }
  }

  lemma {:induction false} FieldOfListing(raw: RawSegment, field: string)
    requires raw.RawSegment?
    ensures FieldValue(ListedProperties(raw), field) == AsValue(RawField(raw, field))
  {
  }

  /** What a blob gives a point: the field of its last listing of the segment, if the point has the blob's time. */
  lemma {:induction false} BlobGivesItsLastListing(time: Date -> Option<int>, blob: Blob, k: Key)
    ensures ObservesAt(time, blob, k) <==> ListsSegment(blob, k.segment) && time(blob.timestamp) == Some(k.point.time)
    ensures !ObservesAt(time, blob, k) ==> BlobGives(time, blob, k) == None
    ensures ObservesAt(time, blob, k) ==> forall l: nat :: LastListing(blob.detailedSegments, k.segment, l) ==>
              BlobGives(time, blob, k) == AsValue(RawField(blob.detailedSegments[l], k.point.field))
  {
    ObservedMeansListed(blob, k.segment, if blob.Blob? then blob.timestamp else "");
    hide FieldValue, RawField, AsValue, ListedProperties, BlobView, IsListing;
    if ObservesAt(time, blob, k) {
      forall l: nat | LastListing(blob.detailedSegments, k.segment, l)
        ensures BlobGives(time, blob, k) == AsValue(RawField(blob.detailedSegments[l], k.point.field))
      {
        ListedIsObserved(blob, k.segment, l);
        FieldOfListing(blob.detailedSegments[l], k.point.field);
      }
    }
  }

  // ---------------------------------------------------------------- the geometry

  /** The coordinates are those of the valid points of the shape, in order: the j-th is the point at at[j]. */
  ghost predicate Picks(shape: seq<Option<Coordinate>>, coordinates: seq<Coordinate>, at: seq<int>) {
    && |at| == |coordinates|
    && (forall j :: 0 <= j < |at| ==> 0 <= at[j] < |shape| && shape[at[j]] == Some(coordinates[j]))
    && (forall i, j :: 0 <= i < j < |at| ==> at[i] < at[j])
    && (forall p :: 0 <= p < |shape| && shape[p].Some? ==> p in at)
  }

  /** The geometry of a listing: nothing where it has no shape. */
  ghost predicate IsGeometryOf(raw: RawSegment, coordinates: seq<Coordinate>)
    requires raw.RawSegment?
  {
    var shape := if raw.shape.Some? then raw.shape.value else [];
    exists at :: Picks(shape, coordinates, at)
  }

  lemma {:induction false} ValidPointsPicked(shape: seq<Option<Coordinate>>) returns (at: seq<int>)
    ensures Picks(shape, ShapeCoordinates(shape), at)
    decreases |shape|
  {
    at := [];
    if shape != [] {
      var n := |shape| - 1;
      at := ValidPointsPicked(shape[..n]);
      ShapeUnfold(shape);
      hide Picks, ShapeCoordinates;
      if shape[n].Some? {
        PickLast(shape, ShapeCoordinates(shape[..n]), at);
        at := at + [n];
      } else {
        PickNoLast(shape, ShapeCoordinates(shape[..n]), at);
      }
    }
  }

  lemma {:induction false} ShapeUnfold(shape: seq<Option<Coordinate>>)
    requires shape != []
    ensures var n := |shape| - 1;
            ShapeCoordinates(shape)
            == ShapeCoordinates(shape[..n]) + (if shape[n].Some? then [shape[n].value] else [])
  {
  }

  lemma {:induction false} PickNoLast(shape: seq<Option<Coordinate>>, coordinates: seq<Coordinate>, at: seq<int>)
    requires shape != [] && shape[|shape| - 1].None? && Picks(shape[..|shape| - 1], coordinates, at)
    ensures Picks(shape, coordinates + [], at)
  {
    var n := |shape| - 1;
    assert coordinates + [] == coordinates;
    forall p | 0 <= p < |shape| && shape[p].Some?
      ensures p in at
    {
      assert shape[..n][p].Some?;
    }
  }

  lemma {:induction false} PickLast(shape: seq<Option<Coordinate>>, coordinates: seq<Coordinate>, at: seq<int>)
    requires shape != [] && shape[|shape| - 1].Some? && Picks(shape[..|shape| - 1], coordinates, at)
    ensures Picks(shape, coordinates + [shape[|shape| - 1].value], at + [|shape| - 1])
  {
    var n := |shape| - 1;
    forall p | 0 <= p < |shape| && shape[p].Some?
      ensures p in at + [n]
    {
      if p < n { assert shape[..n][p].Some?; }
    }
  }

  /** What a batch says of a segment's geometry: it knows the segment if and only if some blob lists it, and the
      geometry is that of the last listing in the first such blob, its valid points in order. */
  lemma {:induction false} GeometryIsOfTheFirstListing(blobs: seq<Blob>, id: Id)
    ensures id in Meaning(blobs) <==> exists b :: 0 <= b < |blobs| && ListsSegment(blobs[b], id)
    ensures forall b, l: nat ::
              0 <= b < |blobs| && ListsSegment(blobs[b], id) && LastListing(blobs[b].detailedSegments, id, l)
              && (forall i :: 0 <= i < b ==> !ListsSegment(blobs[i], id)) ==>
                id in Meaning(blobs)
                && IsGeometryOf(blobs[b].detailedSegments[l], Meaning(blobs)[id].geometry)
  {
    forall b | 0 <= b < |blobs|
      ensures ListsSegment(blobs[b], id) <==> id in BlobView(blobs[b])
    {
      ListedIsViewed(blobs[b], id);
    }
    hide BlobView, Meaning, IsGeometryOf;
    if b :| 0 <= b < |blobs| && ListsSegment(blobs[b], id) {
      var first := FirstLister(blobs, id, b);
      FirstListingWins(blobs, id, first);
    } else {
      NothingObservedNothingMeant(blobs, id, "");
    }
    forall b, l: nat |
      0 <= b < |blobs| && ListsSegment(blobs[b], id) && LastListing(blobs[b].detailedSegments, id, l)
      && forall i :: 0 <= i < b ==> !ListsSegment(blobs[i], id)
      ensures id in Meaning(blobs)
      ensures IsGeometryOf(blobs[b].detailedSegments[l], Meaning(blobs)[id].geometry)
    {
      FirstListingWins(blobs, id, b);
      GeometryOfListing(blobs[b], id, l);
    }
  }

  lemma {:induction false} FirstLister(blobs: seq<Blob>, id: Id, b: nat) returns (first: nat)
    requires b < |blobs| && ListsSegment(blobs[b], id)
    ensures first < |blobs| && ListsSegment(blobs[first], id)
    ensures forall i :: 0 <= i < first ==> !ListsSegment(blobs[i], id)
  {
    first := b;
    if i :| 0 <= i < b && ListsSegment(blobs[i], id) {
      first := FirstLister(blobs, id, i);
    }
  }

  lemma {:induction false} ListedIsViewed(blob: Blob, id: Id)
    ensures ListsSegment(blob, id) <==> id in BlobView(blob)
  {
    if blob.Blob? {
      if ListsSegment(blob, id) {
        var l := LastListingExists(blob.detailedSegments, id);
        ObservationOfLast(blob.timestamp, blob.detailedSegments, id, l);
      } else {
        UnlistedIsUnobserved(blob.timestamp, blob.detailedSegments, id);
      }
      hide Observations, IsListing;
    }
  }

  lemma {:induction false} GeometryOfListing(blob: Blob, id: Id, l: nat)
    requires blob.Blob? && LastListing(blob.detailedSegments, id, l)
    ensures id in BlobView(blob)
    ensures IsGeometryOf(blob.detailedSegments[l], BlobView(blob)[id].geometry)
  {
    var raw := blob.detailedSegments[l];
    ObservationOfLast(blob.timestamp, blob.detailedSegments, id, l);
    var shape := if raw.shape.Some? then raw.shape.value else [];
    var at := ValidPointsPicked(shape);
    assert Picks(shape, BlobView(blob)[id].geometry, at);
    hide Observations, ConvertConfidence, Picks;
  }

  // ---------------------------------------------------------------- the store

  /** Two listings with the same numbers. */
  predicate SameNumbers(a: RawSegment, b: RawSegment)
    requires a.RawSegment? && b.RawSegment?
  {
    && a.confidence == b.confidence && a.averageSpeed == b.averageSpeed && a.typicalSpeed == b.typicalSpeed
    && a.currentSpeed == b.currentSpeed
  }

  /** No segment is listed last in two blobs of one time with different numbers. */
  ghost predicate ListingsAgree(time: Date -> Option<int>, blobs: seq<Blob>) {
    forall i, j, id, l: nat, m: nat :: ListedTwice(time, blobs, i, j, id, l, m) ==>
      SameNumbers(blobs[i].detailedSegments[l], blobs[j].detailedSegments[m])
  }

  ghost predicate ListedTwice(time: Date -> Option<int>, blobs: seq<Blob>, i: int, j: int, id: Id, l: nat, m: nat) {
    && 0 <= i < |blobs| && 0 <= j < |blobs| && blobs[i].Blob? && blobs[j].Blob?
    && time(blobs[i].timestamp).Some? && time(blobs[i].timestamp) == time(blobs[j].timestamp)
    && LastListing(blobs[i].detailedSegments, id, l) && LastListing(blobs[j].detailedSegments, id, m)
  }

  lemma {:induction false} AgreeingListingsAgree(time: Date -> Option<int>, blobs: seq<Blob>)
    requires ListingsAgree(time, blobs)
    ensures Agree(time, blobs)
  {
    hide BlobView;
    forall i, j, id, d, e |
      && 0 <= i < |blobs| && 0 <= j < |blobs| && Observed(BlobView(blobs[i]), id, d)
      && Observed(BlobView(blobs[j]), id, e) && time(d).Some? && time(d) == time(e)
      ensures BlobView(blobs[i])[id].dates[d] == BlobView(blobs[j])[id].dates[e]
    {
      ObservedMeansListed(blobs[i], id, d);
      ObservedMeansListed(blobs[j], id, e);
      var l := LastListingExists(blobs[i].detailedSegments, id);
      var m := LastListingExists(blobs[j].detailedSegments, id);
      ListedIsObserved(blobs[i], id, l);
      ListedIsObserved(blobs[j], id, m);
      assert ListedTwice(time, blobs, i, j, id, l, m);
    }
  }

  /** The l-th listing of blob b is the last one there, and b is the first blob of the time that lists the segment. */
  ghost predicate Decides(time: Date -> Option<int>, blobs: seq<Blob>, id: Id, at: int, b: nat, l: nat) {
    && b < |blobs| && ListsAt(time, blobs[b], id, at) && LastListing(blobs[b].detailedSegments, id, l)
    && forall i :: 0 <= i < b ==> !ListsAt(time, blobs[i], id, at)
  }

  ghost predicate ListsAt(time: Date -> Option<int>, blob: Blob, id: Id, at: int) {
    ListsSegment(blob, id) && time(blob.timestamp) == Some(at)
  }

  lemma {:induction false} SaysIsGiven(time: Date -> Option<int>, blobs: seq<Blob>, k: Key, v: Value)
    ensures Says(time, blobs, k, v) <==> exists i :: 0 <= i < |blobs| && BlobGives(time, blobs[i], k) == Some(v)
  {
    hide BlobView, BlobGives, HasPoint;
    forall i | 0 <= i < |blobs|
      ensures HasPoint(time, BlobView(blobs[i]), k, v) <==> BlobGives(time, blobs[i], k) == Some(v)
    {
      BlobHasWhatItGives(time, blobs[i], k, v);
    }
  }

  /** Agreeing blobs say about a point what the deciding listing says, and nothing where it has no number. */
  lemma {:induction false} DecidingListingSays(time: Date -> Option<int>, blobs: seq<Blob>, k: Key, b: nat, l: nat,
                                               v: Value)
    requires ListingsAgree(time, blobs) && Decides(time, blobs, k.segment, k.point.time, b, l)
    ensures Says(time, blobs, k, v) <==> AsValue(RawField(blobs[b].detailedSegments[l], k.point.field)) == Some(v)
  {
    SaysIsGiven(time, blobs, k, v);
    BlobGivesItsLastListing(time, blobs[b], k);
    hide Says, BlobGives, ObservesAt, RawField, AsValue, IsListing, LastListing;
    if i :| 0 <= i < |blobs| && BlobGives(time, blobs[i], k) == Some(v) {
      BlobGivesItsLastListing(time, blobs[i], k);
      var m := LastListingExists(blobs[i].detailedSegments, k.segment);
      assert ListedTwice(time, blobs, i, b, k.segment, m, l);
      SameNumbersSameField(blobs[i].detailedSegments[m], blobs[b].detailedSegments[l], k.point.field);
    }
  }

  lemma {:induction false} SameNumbersSameField(a: RawSegment, b: RawSegment, field: string)
    requires a.RawSegment? && b.RawSegment? && SameNumbers(a, b)
    ensures RawField(a, field) == RawField(b, field)
  {
  }

  lemma {:induction false} NothingListedNothingSaid(time: Date -> Option<int>, blobs: seq<Blob>, k: Key, v: Value)
    requires forall i :: 0 <= i < |blobs| ==> !ListsAt(time, blobs[i], k.segment, k.point.time)
    ensures !Says(time, blobs, k, v)
  {
    SaysIsGiven(time, blobs, k, v);
    hide Says, BlobGives, ObservesAt;
    if i :| 0 <= i < |blobs| && BlobGives(time, blobs[i], k) == Some(v) {
      BlobGivesItsLastListing(time, blobs[i], k);
    }
  }

  /** The store holds the value at the key, or what it held before. */
  predicate Holds(start: Store, after: Store, k: Key, given: Option<Value>) {
    if given.Some? then k in after && after[k] == given.value
    else (k in after <==> k in start) && (k in start ==> after[k] == start[k])
  }

  /** The value that the l-th listing of blob b gives the field. */
  function ListedValue(blobs: seq<Blob>, b: nat, l: nat, field: string): Option<Value> {
    if b < |blobs| && blobs[b].Blob? && l < |blobs[b].detailedSegments| && blobs[b].detailedSegments[l].RawSegment?
    then AsValue(RawField(blobs[b].detailedSegments[l], field))
    else None
  }

  /** End to end: what the store holds once a backfill of agreeing blobs has completed and drained without a failed
      write, for every batch size, number of workers and interleaving. At a segment, time and field it is the number
      that the last listing of the segment in the first blob of that time gives the field: each speed and the
      confidence as listed, the coverage by conversion of the confidence. What no blob lists stays as it was. */
  lemma {:induction false} BackfillStoresTheListings(time: Date -> Option<int>, parse: Date -> Option<int>,
                                                     ranges: seq<seq<Blob>>, batchSize: nat, c: Config,
                                                     states: seq<State>, steps: seq<Step>, i: nat, k: Key)
    requires batchSize >= 1 && NothingRaises(parse, ranges, batchSize) && ListingsAgree(time, AllBlobs(ranges))
    requires c.batches == Plan(time, parse, ranges, batchSize) && c.clientReady
    requires IsRun(c, states, steps) && i < |states|
    requires states[i].completedRanges >= Total(c) && states[i].failedWrites == 0
    requires states[i].requests == [] && !states[i].writer.Writing?
    ensures forall b: nat, l: nat :: Decides(time, AllBlobs(ranges), k.segment, k.point.time, b, l) ==>
              Holds(states[0].store, states[i].store, k, ListedValue(AllBlobs(ranges), b, l, k.point.field))
    ensures (forall b :: 0 <= b < |AllBlobs(ranges)| ==>
               !ListsAt(time, AllBlobs(ranges)[b], k.segment, k.point.time)) ==>
              Holds(states[0].store, states[i].store, k, None)
  {
    var blobs := AllBlobs(ranges);
    hide *;
    AgreeingListingsAgree(time, blobs);
    AgreeingBlobsAreCompatible(time, parse, ranges, batchSize, c);
    CompletedBackfillIsSequential(c, states, steps, i);
    forall b: nat, l: nat | Decides(time, blobs, k.segment, k.point.time, b, l)
      ensures Holds(states[0].store, states[i].store, k, ListedValue(blobs, b, l, k.point.field))
    {
      ListingDecides(time, parse, ranges, batchSize, c, states[0].store, k, b, l);
    }
    if forall b :: 0 <= b < |blobs| ==> !ListsAt(time, blobs[b], k.segment, k.point.time) {
      NothingDecides(time, parse, ranges, batchSize, c, states[0].store, k);
    }
  }

  lemma {:induction false} ListingDecides(time: Date -> Option<int>, parse: Date -> Option<int>,
                                          ranges: seq<seq<Blob>>, batchSize: nat, c: Config, db: Store, k: Key,
                                          b: nat, l: nat)
    requires batchSize >= 1 && NothingRaises(parse, ranges, batchSize) && ListingsAgree(time, AllBlobs(ranges))
    requires Agree(time, AllBlobs(ranges)) && c.batches == Plan(time, parse, ranges, batchSize)
    requires Decides(time, AllBlobs(ranges), k.segment, k.point.time, b, l)
    ensures Holds(db, Sequential(c, db), k, ListedValue(AllBlobs(ranges), b, l, k.point.field))
  {
    var blobs := AllBlobs(ranges);
    var given := ListedValue(blobs, b, l, k.point.field);
    assert given == AsValue(RawField(blobs[b].detailedSegments[l], k.point.field));
    var v := if given.Some? then given.value else Number(0.0);
    hide RawField, AsValue, Says, NothingRaises, ListingsAgree, Agree, Plan, Decides, Sequential, AllBlobs;
    forall u: Value
      ensures Says(time, blobs, k, u) <==> given == Some(u)
    {
      DecidingListingSays(time, blobs, k, b, l, u);
    }
    SequentialAt(time, parse, ranges, batchSize, c, db, k, v);
  }

  lemma {:induction false} NothingDecides(time: Date -> Option<int>, parse: Date -> Option<int>,
                                          ranges: seq<seq<Blob>>, batchSize: nat, c: Config, db: Store, k: Key)
    requires batchSize >= 1 && NothingRaises(parse, ranges, batchSize)
    requires Agree(time, AllBlobs(ranges)) && c.batches == Plan(time, parse, ranges, batchSize)
    requires forall b :: 0 <= b < |AllBlobs(ranges)| ==>
               !ListsAt(time, AllBlobs(ranges)[b], k.segment, k.point.time)
    ensures Holds(db, Sequential(c, db), k, None)
  {
    hide Says, NothingRaises, Agree, Plan, Sequential, AllBlobs, ListsAt;
    forall u: Value
      ensures !Says(time, AllBlobs(ranges), k, u)
    {
      NothingListedNothingSaid(time, AllBlobs(ranges), k, u);
    }
    SequentialAt(time, parse, ranges, batchSize, c, db, k, Number(0.0));
  }
}
