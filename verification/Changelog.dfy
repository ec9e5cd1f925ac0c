/**
 The segment changelog (lib/FcdUtils.py): one cycle compares the fresh mapping with the changelog,
 archives removed segments, records modified ones, and lets new segments inherit the history of
 removed or recently archived segments at the same place.
 */
module Changelog {
  import opened Wrappers

  type Id = string
  type Hash = string

  datatype Geometry = LineString(coordinates: seq<(real, real)>)

  /** An ISO date string: a point in time (seconds) or text that does not parse. */
  datatype Stamp = Instant(at: int) | Unparseable(text: string)

  datatype HistoryEntry = HistoryEntry(dateArchived: Stamp, geometry: Geometry)

  datatype Record = Record(currentGeometry: Geometry, currentHash: Hash, dateAdded: Stamp,
                           history: seq<HistoryEntry>, dateArchived: Option<Stamp>,
                           geoInheritedFrom: Option<Id>, timeseriesMigratedAt: Option<Stamp>)

  type Book = map<Id, Record>
  type Mapping = map<Id, Geometry>

  datatype Books = Books(changelog: Book, archive: Book)

  /**
   hash: SHA-256 of the canonical geometry text. score: the two-sided overlap of a new and an old
   geometry, None where the source skips the pair. listing: the order in which a dictionary or set
   is iterated. lookback: the window in seconds, None for same-cycle inheritance only.
   */
  datatype Config = Config(hash: Geometry -> Hash, score: (Geometry, Geometry) -> Option<real>,
                           listing: set<Id> -> seq<Id>, lookback: Option<int>)

  ghost predicate Lists(order: seq<Id>, ids: set<Id>) {
    (forall i :: 0 <= i < |order| ==> order[i] in ids) && (forall id :: id in ids ==> id in order)
  }

  ghost predicate ValidConfig(cfg: Config) {
    forall ids :: Lists(cfg.listing(ids), ids)
  }

  const MATCH_THRESHOLD := 0.7

  // ---------------------------------------------------------------- detection

  function RemovedIds(changelog: Book, mapping: Mapping): set<Id> {
    changelog.Keys - mapping.Keys
  }

  function AddedIds(changelog: Book, mapping: Mapping): set<Id> {
    mapping.Keys - changelog.Keys
  }

  function ModifiedIds(cfg: Config, changelog: Book, mapping: Mapping): set<Id> {
    set id | id in changelog && id in mapping && changelog[id].currentHash != cfg.hash(mapping[id])
  }

  function Archived(r: Record, now: int): Record {
    r.(dateArchived := Some(Instant(now)))
  }

  function NewRecord(cfg: Config, geometry: Geometry, now: int): Record {
    Record(geometry, cfg.hash(geometry), Instant(now), [], None, None, None)
  }

  function Modified(cfg: Config, r: Record, geometry: Geometry, now: int): Record {
    r.(history := r.history + [HistoryEntry(Instant(now), r.currentGeometry)],
       currentGeometry := geometry, currentHash := cfg.hash(geometry))
  }

  /** The entry of a fresh segment after detection. */
  function Detected(cfg: Config, changelog: Book, id: Id, geometry: Geometry, now: int): Record {
    if id !in changelog then NewRecord(cfg, geometry, now)
    else if changelog[id].currentHash != cfg.hash(geometry) then Modified(cfg, changelog[id], geometry, now)
    else changelog[id]
  }

  function DetectedChangelog(cfg: Config, changelog: Book, mapping: Mapping, now: int): Book {
    map id | id in mapping :: Detected(cfg, changelog, id, mapping[id], now)
  }

  function DetectedArchive(changelog: Book, archive: Book, mapping: Mapping, now: int): Book {
    map id | id in archive.Keys + RemovedIds(changelog, mapping) ::
      if id in RemovedIds(changelog, mapping) then Archived(changelog[id], now) else archive[id]
  }

  // ---------------------------------------------------------------- matching

  function ScoreOf(cfg: Config, geometry: Geometry, archive: Book, id: Id): real
    requires id in archive
  {
    var s := cfg.score(geometry, archive[id].currentGeometry);
    if s.None? then 0.0 else s.value
  }

  /** The first candidate with the highest positive score, with that score. */
  function BestCandidate(cfg: Config, geometry: Geometry, archive: Book, order: seq<Id>): (Option<Id>, real)
    requires forall i :: 0 <= i < |order| ==> order[i] in archive
  {
    if order == [] then (None, 0.0) else
      var (best, bestScore) := BestCandidate(cfg, geometry, archive, order[..|order| - 1]);
      var id := order[|order| - 1];
      var score := ScoreOf(cfg, geometry, archive, id);
      if score > bestScore then (Some(id), score) else (best, bestScore)
  }

  function BestMatch(cfg: Config, geometry: Geometry, archive: Book, order: seq<Id>): Option<Id>
    requires forall i :: 0 <= i < |order| ==> order[i] in archive
  {
    var (best, bestScore) := BestCandidate(cfg, geometry, archive, order);
    if bestScore >= MATCH_THRESHOLD then best else None
  }

  /** What the match means: a candidate reaches the threshold, none scores higher, and every earlier
      one scores lower; no match means that no candidate reaches the threshold. */
  lemma {:induction false} BestCandidateIsFirstMaximum(cfg: Config, geometry: Geometry, archive: Book, order: seq<Id>)
    requires forall i :: 0 <= i < |order| ==> order[i] in archive
    ensures var (best, bestScore) := BestCandidate(cfg, geometry, archive, order);
            && bestScore >= 0.0
            && (forall i :: 0 <= i < |order| ==> ScoreOf(cfg, geometry, archive, order[i]) <= bestScore)
            && (best.None? ==> bestScore == 0.0)
            && (best.Some? ==> exists i :: 0 <= i < |order| && order[i] == best.value
                                           && ScoreOf(cfg, geometry, archive, order[i]) == bestScore
                                           && forall j :: 0 <= j < i ==>
                                                ScoreOf(cfg, geometry, archive, order[j]) < bestScore)
  {
    if order != [] {
      var front := order[..|order| - 1];
      BestCandidateIsFirstMaximum(cfg, geometry, archive, front);
      var (best, bestScore) := BestCandidate(cfg, geometry, archive, front);
      var (best', bestScore') := BestCandidate(cfg, geometry, archive, order);
      if best' == Some(order[|order| - 1]) && bestScore' > bestScore {
        assert forall j :: 0 <= j < |order| - 1 ==> ScoreOf(cfg, geometry, archive, front[j]) < bestScore';
      } else if best.Some? {
        var i :| 0 <= i < |front| && front[i] == best.value && ScoreOf(cfg, geometry, archive, front[i]) == bestScore
                 && forall j :: 0 <= j < i ==> ScoreOf(cfg, geometry, archive, front[j]) < bestScore;
        assert order[i] == best.value;
        assert forall j :: 0 <= j < i ==> order[j] == front[j];
      }
    }
  }

  lemma MatchIffThresholdReached(cfg: Config, geometry: Geometry, archive: Book, order: seq<Id>)
    requires forall i :: 0 <= i < |order| ==> order[i] in archive
    ensures var m := BestMatch(cfg, geometry, archive, order);
            && (m.Some? <==>
                exists i :: 0 <= i < |order| && ScoreOf(cfg, geometry, archive, order[i]) >= 0.7)
            && (m.Some? ==> m.value in order && ScoreOf(cfg, geometry, archive, m.value) >= 0.7)
  {
    BestCandidateIsFirstMaximum(cfg, geometry, archive, order);
  }

  /** The best-score loop over the candidates. */
  method FindMatch(cfg: Config, geometry: Geometry, archive: Book, order: seq<Id>) returns (m: Option<Id>)
    requires forall i :: 0 <= i < |order| ==> order[i] in archive
    ensures m == BestMatch(cfg, geometry, archive, order)
  {
    var bestScore := 0.0;
    var bestOldId: Option<Id> := None;
    for i := 0 to |order|
      invariant bestScore >= 0.0
      invariant (bestOldId, bestScore) == BestCandidate(cfg, geometry, archive, order[..i])
    {
      assert order[..i + 1][..i] == order[..i];
      var score := cfg.score(geometry, archive[order[i]].currentGeometry);
      if score.Some? && score.value > bestScore {
        bestScore, bestOldId := score.value, Some(order[i]);
      }
    }
    assert order[..|order|] == order;
    m := if bestScore >= MATCH_THRESHOLD then bestOldId else None;
  }

  // ---------------------------------------------------------------- inheritance

  function AlreadyInherited(changelog: Book): set<Id> {
    set id | id in changelog && changelog[id].geoInheritedFrom.Some? :: changelog[id].geoInheritedFrom.value
  }

  predicate RecentlyArchived(r: Record, now: int, window: int) {
    r.dateArchived.Some? && r.dateArchived.value.Instant? && r.dateArchived.value.at >= now - window
  }

  /** Archived segments of earlier cycles that may still be inherited from. */
  function LookbackIds(changelog: Book, archive: Book, removed: set<Id>, lookback: Option<int>, now: int): set<Id> {
    if lookback.None? then {} else
      set id | id in archive && id !in removed && id !in AlreadyInherited(changelog)
               && RecentlyArchived(archive[id], now, lookback.value)
  }

  /** Same-cycle removals first, then the look-back candidates. */
  function CandidateOrder(cfg: Config, changelog: Book, archive: Book, removed: set<Id>, now: int): seq<Id> {
    cfg.listing(removed) + cfg.listing(LookbackIds(changelog, archive, removed, cfg.lookback, now))
  }

  lemma CandidatesAreArchived(cfg: Config, changelog: Book, archive: Book, removed: set<Id>, now: int)
    requires ValidConfig(cfg) && removed <= archive.Keys
    ensures forall i :: 0 <= i < |CandidateOrder(cfg, changelog, archive, removed, now)| ==>
              var id := CandidateOrder(cfg, changelog, archive, removed, now)[i];
              id in archive && (id in removed || id in LookbackIds(changelog, archive, removed, cfg.lookback, now))
    ensures forall id :: id in removed || id in LookbackIds(changelog, archive, removed, cfg.lookback, now) ==>
              id in CandidateOrder(cfg, changelog, archive, removed, now)
  {
    assert Lists(cfg.listing(removed), removed);
    var ids := LookbackIds(changelog, archive, removed, cfg.lookback, now);
    assert Lists(cfg.listing(ids), ids);
  }

  function InheritedHistory(source: Record, now: int): seq<HistoryEntry> {
    source.history + [HistoryEntry(if source.dateArchived.Some? then source.dateArchived.value else Instant(now),
                                   source.currentGeometry)]
  }

  function Inherit(r: Record, source: Record, oldId: Id, now: int): Record {
    r.(history := InheritedHistory(source, now) + r.history, geoInheritedFrom := Some(oldId))
  }

  ghost function AfterInheritance(cfg: Config, changelog: Book, archive: Book, mapping: Mapping, added: set<Id>,
                                  order: seq<Id>, now: int): Book
    requires added <= mapping.Keys && added <= changelog.Keys
    requires forall i :: 0 <= i < |order| ==> order[i] in archive
  {
    map id | id in changelog ::
      var m := if id in added then BestMatch(cfg, mapping[id], archive, order) else None;
      if m.Some? then
        MatchIffThresholdReached(cfg, mapping[id], archive, order);
        Inherit(changelog[id], archive[m.value], m.value, now)
      else changelog[id]
  }

  /** One whole cycle, without the migration markers. */
  ghost function Cycle(cfg: Config, mapping: Mapping, b: Books, now: int): Books
    requires ValidConfig(cfg)
  {
    var removed, added := RemovedIds(b.changelog, mapping), AddedIds(b.changelog, mapping);
    var changelog := DetectedChangelog(cfg, b.changelog, mapping, now);
    var archive := DetectedArchive(b.changelog, b.archive, mapping, now);
    CandidatesAreArchived(cfg, changelog, archive, removed, now);
    Books(AfterInheritance(cfg, changelog, archive, mapping, added,
                           CandidateOrder(cfg, changelog, archive, removed, now), now), archive)
  }

  method InheritHistories(cfg: Config, changelog: Book, archive: Book, mapping: Mapping, added: set<Id>,
                          removed: set<Id>, now: int)
    returns (r: Book)
    requires ValidConfig(cfg) && added <= mapping.Keys && added <= changelog.Keys && removed <= archive.Keys
    ensures forall i :: 0 <= i < |CandidateOrder(cfg, changelog, archive, removed, now)| ==>
              CandidateOrder(cfg, changelog, archive, removed, now)[i] in archive
    ensures r == AfterInheritance(cfg, changelog, archive, mapping, added,
                                  CandidateOrder(cfg, changelog, archive, removed, now), now)
  {
    var order := CandidateOrder(cfg, changelog, archive, removed, now);
    CandidatesAreArchived(cfg, changelog, archive, removed, now);
    ghost var all := AfterInheritance(cfg, changelog, archive, mapping, added, order, now);
    r := changelog;
    var todo := added;
    while todo != {}
      invariant todo <= added && r.Keys == changelog.Keys
      invariant forall id :: id in changelog ==> r[id] == if id in added && id !in todo then all[id] else changelog[id]
      decreases todo
    {
      var newId :| newId in todo;
      todo := todo - {newId};
      var m := FindMatch(cfg, mapping[newId], archive, order);
      if m.Some? {
        MatchIffThresholdReached(cfg, mapping[newId], archive, order);
        r := r[newId := Inherit(r[newId], archive[m.value], m.value, now)];
      }
    }
  }

  // ---------------------------------------------------------------- the loops, step by step

  /** The removed ids outside `todo` have moved from the changelog to the archive. */
  ghost predicate Archiving(was: Books, removed: set<Id>, todo: set<Id>, c: Book, a: Book, now: int) {
    && removed <= was.changelog.Keys && todo <= removed
    && (forall id :: id in c <==> id in was.changelog && (id !in removed || id in todo))
    && (forall id :: id in c ==> c[id] == was.changelog[id])
    && (forall id :: id in a <==> id in was.archive || (id in removed && id !in todo))
    && (forall id :: id in a ==>
          a[id] == if id in removed && id !in todo then Archived(was.changelog[id], now) else was.archive[id])
  }

  lemma ArchivingStarts(b: Books, removed: set<Id>, now: int)
    requires removed <= b.changelog.Keys
    ensures Archiving(b, removed, removed, b.changelog, b.archive, now)
  {
  }

  lemma ArchivingStep(was: Books, removed: set<Id>, todo: set<Id>, c: Book, a: Book, id: Id, now: int)
    requires Archiving(was, removed, todo, c, a, now) && id in todo
    ensures id in c
    ensures Archiving(was, removed, todo - {id}, c - {id}, a[id := Archived(c[id], now)], now)
  {
  }

  lemma ArchivingEnds(was: Books, mapping: Mapping, c: Book, a: Book, now: int)
    requires Archiving(was, RemovedIds(was.changelog, mapping), {}, c, a, now)
    ensures a == DetectedArchive(was.changelog, was.archive, mapping, now)
    ensures forall id :: id in c <==> id in was.changelog && id in mapping
    ensures forall id :: id in c ==> c[id] == was.changelog[id]
  {
  }

  /** The fresh ids outside `todo` carry their detected entries. */
  ghost predicate Detecting(cfg: Config, was: Book, mapping: Mapping, todo: set<Id>,
                            c: Book, added: set<Id>, modified: set<Id>, now: int) {
    && todo <= mapping.Keys
    && (forall id :: id in c <==> id in mapping && (id in was || id !in todo))
    && (forall id :: id in c ==> c[id] == if id in todo then was[id] else Detected(cfg, was, id, mapping[id], now))
    && (forall id :: id in added <==> id in mapping && id !in was && id !in todo)
    && (forall id :: id in modified <==>
                       id in mapping && id in was && was[id].currentHash != cfg.hash(mapping[id]) && id !in todo)
  }

  lemma DetectingStarts(cfg: Config, was: Book, mapping: Mapping, c: Book, now: int)
    requires forall id :: id in c <==> id in was && id in mapping
    requires forall id :: id in c ==> c[id] == was[id]
    ensures Detecting(cfg, was, mapping, mapping.Keys, c, {}, {}, now)
  {
  }

  lemma DetectingAdded(cfg: Config, was: Book, mapping: Mapping, todo: set<Id>, c: Book, added: set<Id>,
                       modified: set<Id>, id: Id, now: int)
    requires Detecting(cfg, was, mapping, todo, c, added, modified, now) && id in todo
    requires id !in c
    ensures Detecting(cfg, was, mapping, todo - {id}, c[id := NewRecord(cfg, mapping[id], now)], added + {id},
                      modified, now)
  {
    assert Detected(cfg, was, id, mapping[id], now) == NewRecord(cfg, mapping[id], now);
    hide Detected, NewRecord;
  }

  lemma DetectingModified(cfg: Config, was: Book, mapping: Mapping, todo: set<Id>, c: Book, added: set<Id>,
                          modified: set<Id>, id: Id, now: int)
    requires Detecting(cfg, was, mapping, todo, c, added, modified, now) && id in todo
    requires id in c && c[id].currentHash != cfg.hash(mapping[id])
    ensures Detecting(cfg, was, mapping, todo - {id}, c[id := Modified(cfg, c[id], mapping[id], now)], added,
                      modified + {id}, now)
  {
    assert Detected(cfg, was, id, mapping[id], now) == Modified(cfg, c[id], mapping[id], now);
    hide Detected, Modified;
  }

  lemma DetectingUnchanged(cfg: Config, was: Book, mapping: Mapping, todo: set<Id>, c: Book, added: set<Id>,
                           modified: set<Id>, id: Id, now: int)
    requires Detecting(cfg, was, mapping, todo, c, added, modified, now) && id in todo
    requires id in c && c[id].currentHash == cfg.hash(mapping[id])
    ensures Detecting(cfg, was, mapping, todo - {id}, c, added, modified, now)
  {
    assert Detected(cfg, was, id, mapping[id], now) == c[id];
    hide Detected;
  }

  lemma DetectingStep(cfg: Config, was: Book, mapping: Mapping, todo: set<Id>, c: Book, added: set<Id>,
                      modified: set<Id>, id: Id, now: int)
    requires Detecting(cfg, was, mapping, todo, c, added, modified, now) && id in todo
    ensures id in mapping && var todo' := todo - {id};
            if id !in c then
              Detecting(cfg, was, mapping, todo', c[id := NewRecord(cfg, mapping[id], now)], added + {id},
                        modified, now)
            else if c[id].currentHash != cfg.hash(mapping[id]) then
              Detecting(cfg, was, mapping, todo', c[id := Modified(cfg, c[id], mapping[id], now)], added,
                        modified + {id}, now)
            else
              Detecting(cfg, was, mapping, todo', c, added, modified, now)
  {
    assert todo <= mapping.Keys;
    hide *;
    if id !in c {
      DetectingAdded(cfg, was, mapping, todo, c, added, modified, id, now);
    } else if c[id].currentHash != cfg.hash(mapping[id]) {
      DetectingModified(cfg, was, mapping, todo, c, added, modified, id, now);
    } else {
      DetectingUnchanged(cfg, was, mapping, todo, c, added, modified, id, now);
    }
  }

  lemma DetectingEnds(cfg: Config, was: Book, mapping: Mapping, c: Book, added: set<Id>, modified: set<Id>, now: int)
    requires Detecting(cfg, was, mapping, {}, c, added, modified, now)
    ensures c == DetectedChangelog(cfg, was, mapping, now)
    ensures added == AddedIds(was, mapping) && modified == ModifiedIds(cfg, was, mapping)
    ensures added <= mapping.Keys && added <= c.Keys
  {
    hide Detected;
  }

  // ---------------------------------------------------------------- the two implementations

  /** process_segment_changelog: pure comparison on copies of the stored books. */
  method ProcessSegmentChangelog(cfg: Config, mapping: Mapping, changelog: Book, archive: Book, now: int)
    returns (c: Book, a: Book, added: set<Id>, modified: set<Id>, removed: set<Id>)
    ensures c == DetectedChangelog(cfg, changelog, mapping, now)
    ensures a == DetectedArchive(changelog, archive, mapping, now)
    ensures added == AddedIds(changelog, mapping) && removed == RemovedIds(changelog, mapping)
    ensures modified == ModifiedIds(cfg, changelog, mapping)
  {
    ghost var was := Books(changelog, archive);
    removed := RemovedIds(changelog, mapping);
    c, a := changelog, archive;
    ArchivingStarts(was, removed, now);
    hide *;
    var todo := removed;
    while todo != {}
      invariant Archiving(was, removed, todo, c, a, now)
      decreases todo
    {
      var id :| id in todo;
      ArchivingStep(was, removed, todo, c, a, id, now);
      var record := c[id];
      c := c - {id};
      a := a[id := Archived(record, now)];
      todo := todo - {id};
    }
    ArchivingEnds(was, mapping, c, a, now);
    DetectingStarts(cfg, changelog, mapping, c, now);
    added, modified := {}, {};
    todo := mapping.Keys;
    while todo != {}
      invariant Detecting(cfg, changelog, mapping, todo, c, added, modified, now)
      decreases todo
    {
      var id :| id in todo;
      DetectingStep(cfg, changelog, mapping, todo, c, added, modified, id, now);
      if id !in c {
        added := added + {id};
        c := c[id := NewRecord(cfg, mapping[id], now)];
      } else if c[id].currentHash != cfg.hash(mapping[id]) {
        modified := modified + {id};
        c := c[id := Modified(cfg, c[id], mapping[id], now)];
      }
      todo := todo - {id};
    }
    DetectingEnds(cfg, changelog, mapping, c, added, modified, now);
  }

  lemma CycleUnfold(cfg: Config, mapping: Mapping, b: Books, now: int)
    requires ValidConfig(cfg)
    ensures var removed, added := RemovedIds(b.changelog, mapping), AddedIds(b.changelog, mapping);
            var c := DetectedChangelog(cfg, b.changelog, mapping, now);
            var a := DetectedArchive(b.changelog, b.archive, mapping, now);
            var order := CandidateOrder(cfg, c, a, removed, now);
            && removed <= a.Keys && added <= mapping.Keys && added <= c.Keys
            && (removed == {} ==> a == b.archive)
            && (forall i :: 0 <= i < |order| ==> order[i] in a)
            && Cycle(cfg, mapping, b, now) == Books(AfterInheritance(cfg, c, a, mapping, added, order, now), a)
  {
    CandidatesAreArchived(cfg, DetectedChangelog(cfg, b.changelog, mapping, now),
                          DetectedArchive(b.changelog, b.archive, mapping, now), RemovedIds(b.changelog, mapping), now);
    hide CandidateOrder, AfterInheritance, Detected, Archived;
  }

  /** The stored books behind a SegmentRepository. */
  class SegmentRepository {
    var changelog: Book
    var archive: Book

    constructor (changelog: Book, archive: Book)
      ensures this.changelog == changelog && this.archive == archive
    {
      this.changelog, this.archive := changelog, archive;
    }

    /** The repository version: no mapping, or an empty one, leaves everything as it is. */
    method UpdateFromRepo(cfg: Config, segments: Option<Mapping>, now: int)
      requires ValidConfig(cfg)
      modifies this
      ensures Books(changelog, archive)
              == if segments.None? || segments.value == map[] then old(Books(changelog, archive))
                 else Cycle(cfg, segments.value, old(Books(changelog, archive)), now)
    {
      if segments.None? || segments.value == map[] {
        return;
      }
      var mapping := segments.value;
      hide *;
      CycleUnfold(cfg, mapping, Books(changelog, archive), now);
      var c, a, added, modified, removed := ProcessSegmentChangelog(cfg, mapping, changelog, archive, now);
      if added != {} && (removed != {} || cfg.lookback.Some?) {
        c := InheritHistories(cfg, c, a, mapping, added, removed, now);
      } else {
        NothingToInherit(cfg, c, a, mapping, added, removed, now);
      }
      changelog := c;
      if removed != {} {
        archive := a;
      }
    }
  }

  /** The changelog and archive files, held as dictionaries that the file version mutates. */
  class SegmentFiles {
    var changelog: Book
    var archive: Book

    constructor (changelog: Book, archive: Book)
      ensures this.changelog == changelog && this.archive == archive
    {
      this.changelog, this.archive := changelog, archive;
    }

    /** Pops each removed entry and files it in the archive. */
    method ArchiveRemoved(mapping: Mapping, now: int) returns (removed: set<Id>)
      modifies this
      ensures removed == RemovedIds(old(changelog), mapping)
      ensures archive == DetectedArchive(old(changelog), old(archive), mapping, now)
      ensures forall id :: id in changelog <==> id in old(changelog) && id in mapping
      ensures forall id :: id in changelog ==> changelog[id] == old(changelog)[id]
    {
      ghost var was := Books(changelog, archive);
      removed := RemovedIds(changelog, mapping);
      ArchivingStarts(was, removed, now);
      hide *;
      var todo := removed;
      while todo != {}
        invariant Archiving(was, removed, todo, changelog, archive, now)
        decreases todo
      {
        var id :| id in todo;
        ArchivingStep(was, removed, todo, changelog, archive, id, now);
        var record := changelog[id];
        changelog := changelog - {id};
        archive := archive[id := Archived(record, now)];
        todo := todo - {id};
      }
      ArchivingEnds(was, mapping, changelog, archive, now);
    }

    /** Enters what is new and records what has changed; `was` is the changelog before the removals. */
    method DetectChanges(cfg: Config, mapping: Mapping, ghost was: Book, now: int)
      returns (newlyAdded: set<Id>, modified: set<Id>)
      requires forall id :: id in changelog <==> id in was && id in mapping
      requires forall id :: id in changelog ==> changelog[id] == was[id]
      modifies this`changelog
      ensures changelog == DetectedChangelog(cfg, was, mapping, now)
      ensures newlyAdded == AddedIds(was, mapping) && modified == ModifiedIds(cfg, was, mapping)
      ensures newlyAdded <= mapping.Keys && newlyAdded <= changelog.Keys
    {
      hide *;
      DetectingStarts(cfg, was, mapping, changelog, now);
      newlyAdded, modified := {}, {};
      var todo := mapping.Keys;
      while todo != {}
        invariant Detecting(cfg, was, mapping, todo, changelog, newlyAdded, modified, now)
        decreases todo
      {
        var id :| id in todo;
        DetectingStep(cfg, was, mapping, todo, changelog, newlyAdded, modified, id, now);
        if id !in changelog {
          newlyAdded := newlyAdded + {id};
          changelog := changelog[id := NewRecord(cfg, mapping[id], now)];
        } else if changelog[id].currentHash != cfg.hash(mapping[id]) {
          modified := modified + {id};
          changelog := changelog[id := Modified(cfg, changelog[id], mapping[id], now)];
        }
        todo := todo - {id};
      }
      DetectingEnds(cfg, was, mapping, changelog, newlyAdded, modified, now);
    }

    /** The file version, entry by entry on the dictionaries themselves; only an unreadable mapping
        leaves them as they are. */
    method UpdateSegmentChangelog(cfg: Config, segments: Option<Mapping>, now: int)
      requires ValidConfig(cfg)
      modifies this
      ensures Books(changelog, archive)
              == if segments.None? then old(Books(changelog, archive))
                 else Cycle(cfg, segments.value, old(Books(changelog, archive)), now)
    {
      if segments.None? {
        return;
      }
      hide *;
      var mapping := segments.value;
      ghost var was := Books(changelog, archive);
      CycleUnfold(cfg, mapping, was, now);
      var removed := ArchiveRemoved(mapping, now);
      var newlyAdded, modified := DetectChanges(cfg, mapping, was.changelog, now);
      if newlyAdded != {} && (removed != {} || cfg.lookback.Some?) {
        changelog := InheritHistories(cfg, changelog, archive, mapping, newlyAdded, removed, now);
      } else {
        NothingToInherit(cfg, changelog, archive, mapping, newlyAdded, removed, now);
      }
    }
  }

  /** The guard before matching skips only cycles in which nothing could be inherited. */
  lemma NothingToInherit(cfg: Config, changelog: Book, archive: Book, mapping: Mapping, added: set<Id>,
                         removed: set<Id>, now: int)
    requires ValidConfig(cfg) && added <= mapping.Keys && added <= changelog.Keys && removed <= archive.Keys
    requires added == {} || (removed == {} && cfg.lookback.None?)
    requires forall i :: 0 <= i < |CandidateOrder(cfg, changelog, archive, removed, now)| ==>
               CandidateOrder(cfg, changelog, archive, removed, now)[i] in archive
    ensures AfterInheritance(cfg, changelog, archive, mapping, added,
                             CandidateOrder(cfg, changelog, archive, removed, now), now) == changelog
  {
    var order := CandidateOrder(cfg, changelog, archive, removed, now);
    CandidatesAreArchived(cfg, changelog, archive, removed, now);
    forall id | id in added
      ensures BestMatch(cfg, mapping[id], archive, order).None?
    {
      MatchIffThresholdReached(cfg, mapping[id], archive, order);
    }
  }
}
