/**
 Streaming the blobs of a date range in batches (services/fcd-manager/src/fcd_processing.py). The
 theorems say what the batch size can change: not the segment and timestamp map that the batches add
 up to, only whether a blob without a segment list raises.
 */
module FcdProcessing {
  import opened Wrappers
  import opened Aggregation
  import opened EuclideanDivision
  import opened Numbers

  // ---------------------------------------------------------------- one batch

  function AddBlob(aggregate: Aggregate, blob: Blob): Result<Aggregate, AggregationError> {
    if blob.Skipped? then Ok(aggregate) else Merge(Transform(blob), aggregate)
  }

  function Fold(blobs: seq<Blob>): Result<Aggregate, AggregationError> {
    if blobs == [] then Ok(Empty)
    else
      var before := Fold(blobs[..|blobs| - 1]);
      if before.Err? then before else AddBlob(before.value, blobs[|blobs| - 1])
  }

  function ProcessBatch(parse: Date -> Option<int>, blobs: seq<Blob>): Result<Aggregate, AggregationError> {
    var r := Fold(blobs);
    if r.Err? then r else Ok(SortByDate(parse, r.value))
  }

  /** ProcessBatch as the loop that reassigns the aggregate. */
  method ProcessBlobBatch(parse: Date -> Option<int>, blobs: seq<Blob>) returns (r: Result<Aggregate, AggregationError>)
    ensures r == ProcessBatch(parse, blobs)
  {
    var aggregate := Empty;
    for i := 0 to |blobs|
      invariant Fold(blobs[..i]) == Ok(aggregate)
    {
      assert blobs[..i + 1][..i] == blobs[..i];
      if !blobs[i].Skipped? {
        r := UpdateAggregate(Transform(blobs[i]), aggregate);
        if r.Err? {
          FoldStopsAtError(blobs, i + 1);
          return;
        }
        aggregate := r.value;
      }
    }
    assert blobs[..|blobs|] == blobs;
    if aggregate != Empty {
      return Ok(SortByDate(parse, aggregate));
    }
    r := Ok(Empty);
  }

  lemma {:induction false} FoldStopsAtError(blobs: seq<Blob>, i: nat)
    requires i <= |blobs| && Fold(blobs[..i]).Err?
    ensures Fold(blobs) == Fold(blobs[..i])
    decreases |blobs|
  {
    if i == |blobs| {
      assert blobs[..i] == blobs;
    } else {
      var front := blobs[..|blobs| - 1];
      assert front[..i] == blobs[..i];
      FoldStopsAtError(front, i);
    }
  }

  // ---------------------------------------------------------------- streaming

  /** What the generator yields before it ends, and the exception that ended it. */
  datatype Stream = Stream(yielded: seq<Aggregate>, error: Option<AggregationError>)

  /** Only a batch with data is yielded. */
  function Nonempty(a: Aggregate): seq<Aggregate> { if a.Empty? then [] else [a] }

  function Prepend(yielded: seq<Aggregate>, rest: Stream): Stream {
    rest.(yielded := yielded + rest.yielded)
  }

  function Streamed(parse: Date -> Option<int>, blobs: seq<Blob>, batchSize: nat): Stream
    requires batchSize >= 1
    decreases |blobs|
  {
    if blobs == [] then Stream([], None)
    else
      var n := Smaller(batchSize, |blobs|);
      match ProcessBatch(parse, blobs[..n])
      case Err(e) => Stream([], Some(e))
      case Ok(a) =>
        Prepend(Nonempty(a), Streamed(parse, blobs[n..], batchSize))
  }

  lemma StreamedUnfold(parse: Date -> Option<int>, blobs: seq<Blob>, batchSize: nat, n: nat)
    requires batchSize >= 1 && blobs != [] && n == Smaller(batchSize, |blobs|)
    ensures Streamed(parse, blobs, batchSize) ==
            match ProcessBatch(parse, blobs[..n])
            case Err(e) => Stream([], Some(e))
            case Ok(a) => Prepend(Nonempty(a), Streamed(parse, blobs[n..], batchSize))
  {
    hide ProcessBatch, Prepend, Nonempty, Smaller;
  }

  lemma StreamedFrom(parse: Date -> Option<int>, blobs: seq<Blob>, start: nat, end: nat, batchSize: nat)
    requires batchSize >= 1 && start < |blobs| && end == Smaller(start + batchSize, |blobs|)
    ensures Streamed(parse, blobs[start..], batchSize) ==
            match ProcessBatch(parse, blobs[start..end])
            case Err(e) => Stream([], Some(e))
            case Ok(a) =>
              Prepend(Nonempty(a), Streamed(parse, blobs[end..], batchSize))
  {
    var rest, n := blobs[start..], end - start;
    assert n == Smaller(batchSize, |rest|);
    assert rest[..n] == blobs[start..end] && rest[n..] == blobs[end..];
    StreamedUnfold(parse, rest, batchSize, n);
    hide *;
  }

  lemma PrependTwice(done: seq<Aggregate>, next: seq<Aggregate>, rest: Stream)
    ensures Prepend(done, Prepend(next, rest)) == Prepend(done + next, rest)
  {
    assert done + (next + rest.yielded) == (done + next) + rest.yielded;
  }

  /** What has been yielded and what the rest yields make up the stream of all blobs. */
  ghost predicate StreamSplit(parse: Date -> Option<int>, blobs: seq<Blob>, batchSize: nat, start: int,
                              yielded: seq<Aggregate>)
    requires batchSize >= 1 && 0 <= start <= |blobs|
  {
    Streamed(parse, blobs, batchSize) == Prepend(yielded, Streamed(parse, blobs[start..], batchSize))
  }

  lemma BatchAdvances(parse: Date -> Option<int>, blobs: seq<Blob>, batchSize: nat, start: nat, end: nat,
                      yielded: seq<Aggregate>)
    requires batchSize >= 1 && start < |blobs| && end == Smaller(start + batchSize, |blobs|)
    requires StreamSplit(parse, blobs, batchSize, start, yielded)
    ensures match ProcessBatch(parse, blobs[start..end])
            case Err(e) => Streamed(parse, blobs, batchSize) == Stream(yielded, Some(e))
            case Ok(a) => StreamSplit(parse, blobs, batchSize, end, if a.Empty? then yielded else yielded + [a])
  {
    StreamedFrom(parse, blobs, start, end, batchSize);
    hide Streamed, ProcessBatch;
    var batch := ProcessBatch(parse, blobs[start..end]);
    if batch.Ok? {
      PrependTwice(yielded, Nonempty(batch.value), Streamed(parse, blobs[end..], batchSize));
      assert yielded + [] == yielded;
    }
  }

  lemma StreamEnds(parse: Date -> Option<int>, blobs: seq<Blob>, batchSize: nat, yielded: seq<Aggregate>)
    requires batchSize >= 1
    ensures StreamSplit(parse, blobs, batchSize, 0, [])
    ensures StreamSplit(parse, blobs, batchSize, |blobs|, yielded) ==>
              Streamed(parse, blobs, batchSize) == Stream(yielded, None)
  {
    assert blobs[0..] == blobs;
    var all := Streamed(parse, blobs, batchSize);
    hide ProcessBatch;
    assert Streamed(parse, blobs[|blobs|..], batchSize) == Stream([], None);
    assert [] + all.yielded == all.yielded && yielded + [] == yielded;
    hide Streamed;
  }

  method StreamBatches(parse: Date -> Option<int>, blobs: seq<Blob>, batchSize: nat) returns (r: Stream)
    requires batchSize >= 1
    ensures r == Streamed(parse, blobs, batchSize)
  {
    hide *;
    var yielded: seq<Aggregate> := [];
    var start := 0;
    StreamEnds(parse, blobs, batchSize, []);
    while start < |blobs|
      invariant 0 <= start <= |blobs| && StreamSplit(parse, blobs, batchSize, start, yielded)
      decreases |blobs| - start
    {
      var end := Smaller(start + batchSize, |blobs|);
      BatchAdvances(parse, blobs, batchSize, start, end, yielded);
      var batch := ProcessBlobBatch(parse, blobs[start..end]);
      if batch.Err? {
        return Stream(yielded, Some(batch.error));
      }
      if batch.value != Empty {
        yielded := yielded + [batch.value];
      }
      start := end;
    }
    StreamEnds(parse, blobs, batchSize, yielded);
    r := Stream(yielded, None);
  }

  /** A step of zero raises; a negative one leaves nothing to iterate over. */
  method ProcessDateRangeStreaming(parse: Date -> Option<int>, blobs: seq<Blob>, batchSize: int) returns (r: Stream)
    ensures batchSize >= 1 ==> r == Streamed(parse, blobs, batchSize)
    ensures batchSize == 0 ==> r == Stream([], if blobs == [] then None else Some(ValueError))
    ensures batchSize < 0 ==> r == Stream([], None)
  {
    if blobs == [] || batchSize < 0 {
      return Stream([], None);
    }
    if batchSize == 0 {
      return Stream([], Some(ValueError));
    }
    r := StreamBatches(parse, blobs, batchSize);
  }

  // ---------------------------------------------------------------- what a batch means

  /** The blobs' observations, the first of a segment and date winning; blobs that say nothing left out. */
  function Meaning(blobs: seq<Blob>): map<Id, SegmentView> {
    if blobs == [] then map[] else FirstWins(Meaning(blobs[..|blobs| - 1]), BlobView(blobs[|blobs| - 1]))
  }

  function BlobView(blob: Blob): map<Id, SegmentView> {
    if blob.Blob? then View(Transform(blob)) else map[]
  }

  lemma NothingWins(a: map<Id, SegmentView>)
    ensures FirstWins(a, map[]) == a && FirstWins(map[], a) == a
  {
  }

  lemma TransformIsWellFormed(blob: Blob)
    requires !blob.Skipped?
    ensures WellFormed(Transform(blob))
  {
    if blob.Blob? {
      ObservationsAreWellFormed(blob.timestamp, blob.detailedSegments);
    }
  }

  lemma AddBlobMeans(aggregate: Aggregate, blob: Blob)
    requires WellFormed(aggregate) && AddBlob(aggregate, blob).Ok?
    ensures View(AddBlob(aggregate, blob).value) == FirstWins(View(aggregate), BlobView(blob))
    ensures WellFormed(AddBlob(aggregate, blob).value)
  {
    NothingWins(View(aggregate));
    if !blob.Skipped? {
      TransformIsWellFormed(blob);
      MergeIsFirstWins(Transform(blob), aggregate);
      hide FirstWins, WellFormed, Merge, Transform;
      assert View(Empty) == map[];
    }
  }

  lemma {:induction false} FoldMeans(blobs: seq<Blob>)
    requires Fold(blobs).Ok?
    ensures View(Fold(blobs).value) == Meaning(blobs) && WellFormed(Fold(blobs).value)
  {
    if blobs != [] {
      FoldMeans(blobs[..|blobs| - 1]);
      AddBlobMeans(Fold(blobs[..|blobs| - 1]).value, blobs[|blobs| - 1]);
    }
  }

  /** A batch that does not raise comes out as the first-wins union of its blobs, sorted. */
  lemma {:induction false} BatchMeans(parse: Date -> Option<int>, blobs: seq<Blob>)
    requires ProcessBatch(parse, blobs).Ok?
    ensures View(ProcessBatch(parse, blobs).value) == Meaning(blobs)
    ensures WellFormed(ProcessBatch(parse, blobs).value)
  {
    FoldMeans(blobs);
    SortKeepsTheMap(parse, Fold(blobs).value);
  }

  lemma {:induction false} MeaningConcat(a: seq<Blob>, b: seq<Blob>)
    ensures Meaning(a + b) == FirstWins(Meaning(a), Meaning(b))
    decreases |b|
  {
    if b == [] {
      assert a + b == a;
      NothingWins(Meaning(a));
    } else {
      var front, last := b[..|b| - 1], b[|b| - 1];
      assert (a + b)[..|a + b| - 1] == a + front;
      MeaningConcat(a, front);
      FirstWinsIsAssociative(Meaning(a), Meaning(front), BlobView(last));
    }
  }

  /** Merging what was yielded, in order, with the merge of the aggregation itself. */
  function MergeAll(aggregate: Aggregate, yielded: seq<Aggregate>): Result<Aggregate, AggregationError>
    decreases |yielded|
  {
    if yielded == [] then Ok(aggregate)
    else
      match Merge(yielded[0], aggregate)
      case Err(e) => Err(e)
      case Ok(a) => MergeAll(a, yielded[1..])
  }

  lemma {:induction false} StreamAddsUp(parse: Date -> Option<int>, blobs: seq<Blob>, batchSize: nat,
                                        aggregate: Aggregate)
    requires batchSize >= 1 && Streamed(parse, blobs, batchSize).error.None? && WellFormed(aggregate)
    ensures var r := MergeAll(aggregate, Streamed(parse, blobs, batchSize).yielded);
            r.Ok? && View(r.value) == FirstWins(View(aggregate), Meaning(blobs))
    decreases |blobs|
  {
    if blobs == [] {
      NothingWins(View(aggregate));
    } else {
      var n := Smaller(batchSize, |blobs|);
      var batch, rest := blobs[..n], blobs[n..];
      assert blobs == batch + rest;
      MeaningConcat(batch, rest);
      FirstWinsIsAssociative(View(aggregate), Meaning(batch), Meaning(rest));
      BatchMeans(parse, batch);
      var a := ProcessBatch(parse, batch).value;
      var yielded := Streamed(parse, rest, batchSize).yielded;
      hide FirstWins, Meaning, ProcessBatch, View, WellFormed;
      if a.Empty? {
        ViewOfEmpty();
        NothingWins(View(aggregate));
        assert Nonempty(a) + yielded == yielded;
        StreamAddsUp(parse, rest, batchSize, aggregate);
      } else {
        assert (Nonempty(a) + yielded)[0] == a && (Nonempty(a) + yielded)[1..] == yielded;
        MergeIsFirstWins(a, aggregate);
        StreamAddsUp(parse, rest, batchSize, Merge(a, aggregate).value);
      }
    }
  }

  lemma ViewOfEmpty()
    ensures View(Empty) == map[]
  {
  }

  /** The batch size does not matter: whatever it is, a stream that does not raise adds up, merged in order,
      to the map that the blobs mean, and so does one single batch. */
  lemma {:induction false} BatchSizeDoesNotMatter(parse: Date -> Option<int>, blobs: seq<Blob>, batchSize: nat)
    requires batchSize >= 1 && Streamed(parse, blobs, batchSize).error.None?
    ensures var r := MergeAll(Empty, Streamed(parse, blobs, batchSize).yielded);
            && r.Ok? && View(r.value) == Meaning(blobs)
            && (ProcessBatch(parse, blobs).Ok? ==> View(r.value) == View(ProcessBatch(parse, blobs).value))
  {
    StreamAddsUp(parse, blobs, batchSize, Empty);
    ViewOfEmpty();
    NothingWins(Meaning(blobs));
    if ProcessBatch(parse, blobs).Ok? {
      BatchMeans(parse, blobs);
    }
  }

  // ---------------------------------------------------------------- which observation wins

  predicate Observed(view: map<Id, SegmentView>, id: Id, date: Date) {
    id in view && date in view[id].dates
  }

  lemma {:induction false} NothingObservedNothingMeant(blobs: seq<Blob>, id: Id, date: Date)
    ensures (forall j :: 0 <= j < |blobs| ==> id !in BlobView(blobs[j])) ==> id !in Meaning(blobs)
    ensures (forall j :: 0 <= j < |blobs| ==> !Observed(BlobView(blobs[j]), id, date)) ==>
              !Observed(Meaning(blobs), id, date)
  {
    if blobs != [] {
      var front, last := blobs[..|blobs| - 1], blobs[|blobs| - 1];
      NothingObservedNothingMeant(front, id, date);
      FirstWinsAt(Meaning(front), BlobView(last), id);
      hide FirstWins, BlobView;
    }
  }

  /** The geometry of a segment comes from the first blob that lists it. */
  lemma {:induction false} FirstListingWins(blobs: seq<Blob>, id: Id, i: nat)
    requires i < |blobs| && id in BlobView(blobs[i]) && forall j :: 0 <= j < i ==> id !in BlobView(blobs[j])
    ensures id in Meaning(blobs) && Meaning(blobs)[id].geometry == BlobView(blobs[i])[id].geometry
    decreases |blobs|
  {
    var front, last := blobs[..|blobs| - 1], blobs[|blobs| - 1];
    FirstWinsAt(Meaning(front), BlobView(last), id);
    hide FirstWins, BlobView;
    if i < |front| {
      FirstListingWins(front, id, i);
    } else {
      NothingObservedNothingMeant(front, id, "");
    }
  }

  /** The properties of a segment at a date come from the first blob that observes them. */
  lemma {:induction false} FirstObservationWins(blobs: seq<Blob>, id: Id, date: Date, i: nat)
    requires i < |blobs| && Observed(BlobView(blobs[i]), id, date)
    requires forall j :: 0 <= j < i ==> !Observed(BlobView(blobs[j]), id, date)
    ensures Observed(Meaning(blobs), id, date)
    ensures Meaning(blobs)[id].dates[date] == BlobView(blobs[i])[id].dates[date]
    decreases |blobs|
  {
    var front, last := blobs[..|blobs| - 1], blobs[|blobs| - 1];
    FirstWinsAt(Meaning(front), BlobView(last), id);
    hide FirstWins, BlobView;
    if i < |front| {
      FirstObservationWins(front, id, date, i);
    } else {
      NothingObservedNothingMeant(front, id, date);
    }
  }

  // ---------------------------------------------------------------- when streaming raises

  /** A blob without a segment list comes after one with a list. */
  ghost predicate Clash(blobs: seq<Blob>, i: int, j: int) {
    0 <= i < j < |blobs| && blobs[i].Blob? && blobs[j].NoList?
  }

  lemma {:induction false} FoldRaisesIff(blobs: seq<Blob>)
    ensures Fold(blobs).Err? <==> exists i, j :: Clash(blobs, i, j)
    ensures Fold(blobs).Ok? ==> (Fold(blobs).value.Segments? <==> exists i :: 0 <= i < |blobs| && blobs[i].Blob?)
  {
    if blobs != [] {
      var n := |blobs| - 1;
      var front, last := blobs[..n], blobs[n];
      FoldRaisesIff(front);
      if i, j :| Clash(front, i, j) {
        assert Clash(blobs, i, j);
      }
      if i, j :| Clash(blobs, i, j) {
        if j < n { assert Clash(front, i, j); } else { assert front[i].Blob?; }
      }
      if last.NoList? {
        if i :| 0 <= i < n && front[i].Blob? { assert Clash(blobs, i, n); }
      }
    }
  }

  lemma ShiftedBatch(i: int, size: int)
    requires size >= 1
    ensures (i + size) / size == i / size + 1
  {
    DivisionOfShift(i + size, size, 1);
  }

  lemma SameFirstBatch(i: nat, j: nat, size: nat)
    requires size >= 1 && i < size
    ensures i / size == 0 && (j / size == 0 <==> j < size)
  {
    if j >= size {
      ShiftedBatch(j - size, size);
      assert (j - size) / size >= 0;
    }
  }

  /** A blob without a segment list comes after one with a list in the same batch. */
  ghost predicate ClashInBatch(blobs: seq<Blob>, batchSize: nat, i: int, j: int)
    requires batchSize >= 1
  {
    Clash(blobs, i, j) && i / batchSize == j / batchSize
  }

  lemma ClashShifts(blobs: seq<Blob>, size: nat, i: int, j: int)
    requires 1 <= size < |blobs| && i >= 0
    ensures ClashInBatch(blobs[size..], size, i, j) <==> ClashInBatch(blobs, size, i + size, j + size)
  {
    ShiftedBatch(i, size);
    ShiftedBatch(j, size);
  }

  /** A clash within a batch is one in the first batch or one within a batch of the rest. */
  lemma ClashesSplit(blobs: seq<Blob>, batchSize: nat, n: nat)
    requires batchSize >= 1 && blobs != [] && n == Smaller(batchSize, |blobs|)
    ensures (exists i, j :: ClashInBatch(blobs, batchSize, i, j))
            <==> (exists i, j :: Clash(blobs[..n], i, j)) || (exists i, j :: ClashInBatch(blobs[n..], batchSize, i, j))
  {
    var batch, rest := blobs[..n], blobs[n..];
    if i, j :| Clash(batch, i, j) {
      SameFirstBatch(i, j, batchSize);
      assert ClashInBatch(blobs, batchSize, i, j);
    }
    if i, j :| ClashInBatch(rest, batchSize, i, j) {
      ClashShifts(blobs, batchSize, i, j);
      assert ClashInBatch(blobs, batchSize, i + batchSize, j + batchSize);
    }
    if i, j :| ClashInBatch(blobs, batchSize, i, j) {
      if i < n {
        SameFirstBatch(i, j, batchSize);
        assert Clash(batch, i, j);
      } else {
        ClashShifts(blobs, batchSize, i - batchSize, j - batchSize);
        assert ClashInBatch(rest, batchSize, i - batchSize, j - batchSize);
      }
    }
  }

  /** Streaming raises exactly when some batch holds a blob without a segment list after one with a list. */
  lemma {:induction false} StreamRaisesIff(parse: Date -> Option<int>, blobs: seq<Blob>, batchSize: nat)
    requires batchSize >= 1
    ensures Streamed(parse, blobs, batchSize).error.Some? <==> exists i, j :: ClashInBatch(blobs, batchSize, i, j)
    decreases |blobs|
  {
    if blobs != [] {
      var n := Smaller(batchSize, |blobs|);
      FoldRaisesIff(blobs[..n]);
      StreamRaisesIff(parse, blobs[n..], batchSize);
      StreamedOnce(parse, blobs, batchSize);
      ClashesSplit(blobs, batchSize, n);
      hide *;
    }
  }

  lemma StreamedOnce(parse: Date -> Option<int>, blobs: seq<Blob>, batchSize: nat)
    requires batchSize >= 1 && blobs != []
    ensures var n := Smaller(batchSize, |blobs|);
            Streamed(parse, blobs, batchSize).error.Some?
            <==> Fold(blobs[..n]).Err? || Streamed(parse, blobs[n..], batchSize).error.Some?
  {
    StreamedUnfold(parse, blobs, batchSize, Smaller(batchSize, |blobs|));
    hide Streamed, Fold, Smaller;
  }

  /** No batch size raises exactly when one single batch does not: no blob without a segment list comes
      after one with a list. */
  lemma NoBatchSizeRaisesIff(parse: Date -> Option<int>, blobs: seq<Blob>)
    ensures ProcessBatch(parse, blobs).Ok?
            <==> forall batchSize: nat :: batchSize >= 1 ==> Streamed(parse, blobs, batchSize).error.None?
  {
    FoldRaisesIff(blobs);
    if ProcessBatch(parse, blobs).Ok? {
      forall batchSize: nat | batchSize >= 1
        ensures Streamed(parse, blobs, batchSize).error.None?
      {
        StreamRaisesIff(parse, blobs, batchSize);
      }
    } else {
      var n := |blobs|;
      assert blobs[..n] == blobs;
      StreamedOnce(parse, blobs, n);
      assert Streamed(parse, blobs, n).error.Some?;
    }
  }
}
