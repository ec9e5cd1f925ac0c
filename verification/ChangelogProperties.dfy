/**
 What one changelog cycle keeps, what whole runs of cycles keep, and where the two implementations
 and the inheritance rule fall short.
 */
module ChangelogProperties {
  import opened Wrappers
  import opened Changelog

  // ---------------------------------------------------------------- one cycle

  /** The archived segment whose history a new segment inherits in this cycle. */
  ghost function MatchedId(cfg: Config, mapping: Mapping, b: Books, id: Id, now: int): Option<Id>
    requires ValidConfig(cfg)
  {
    if id !in mapping || id in b.changelog then None else
      var c := DetectedChangelog(cfg, b.changelog, mapping, now);
      var a := DetectedArchive(b.changelog, b.archive, mapping, now);
      CycleUnfold(cfg, mapping, b, now);
      BestMatch(cfg, mapping[id], a, CandidateOrder(cfg, c, a, RemovedIds(b.changelog, mapping), now))
  }

  /** A match was removed in this very cycle, or archived recently and not yet inherited from. */
  lemma MatchIsEligible(cfg: Config, mapping: Mapping, b: Books, id: Id, now: int)
    requires ValidConfig(cfg)
    ensures var m := MatchedId(cfg, mapping, b, id, now);
            m.Some? ==>
              && m.value in Cycle(cfg, mapping, b, now).archive
              && (m.value in RemovedIds(b.changelog, mapping)
                  || (cfg.lookback.Some? && m.value in b.archive
                      && RecentlyArchived(b.archive[m.value], now, cfg.lookback.value)
                      && m.value !in AlreadyInherited(DetectedChangelog(cfg, b.changelog, mapping, now))))
  {
    if id in mapping && id !in b.changelog {
      var c := DetectedChangelog(cfg, b.changelog, mapping, now);
      var a := DetectedArchive(b.changelog, b.archive, mapping, now);
      var removed := RemovedIds(b.changelog, mapping);
      CycleUnfold(cfg, mapping, b, now);
      CandidatesAreArchived(cfg, c, a, removed, now);
      MatchIffThresholdReached(cfg, mapping[id], a, CandidateOrder(cfg, c, a, removed, now));
    }
  }

  lemma CycleEntry(cfg: Config, mapping: Mapping, b: Books, id: Id, now: int)
    requires ValidConfig(cfg) && id in mapping
    ensures var r := Cycle(cfg, mapping, b, now);
            var m := MatchedId(cfg, mapping, b, id, now);
            var detected := Detected(cfg, b.changelog, id, mapping[id], now);
            && id in r.changelog
            && (m.Some? ==> m.value in r.archive)
            && r.changelog[id] == if m.Some? then Inherit(detected, r.archive[m.value], m.value, now) else detected
  {
    MatchIsEligible(cfg, mapping, b, id, now);
    CycleUnfold(cfg, mapping, b, now);
    hide CandidateOrder, BestMatch, Detected, Inherit;
  }

  /** After a cycle the live ids are exactly the fresh ids. */
  lemma LiveIdsAreFreshIds(cfg: Config, mapping: Mapping, b: Books, now: int)
    requires ValidConfig(cfg)
    ensures Cycle(cfg, mapping, b, now).changelog.Keys == mapping.Keys
  {
    CycleUnfold(cfg, mapping, b, now);
    hide CandidateOrder, BestMatch, Detected, Inherit;
  }

  /** No live record is lost: it is kept as it was, extended by exactly its old geometry, or moved to
      the archive with the date of the cycle. */
  lemma EveryRecordKeptExtendedOrArchived(cfg: Config, mapping: Mapping, b: Books, id: Id, now: int)
    requires ValidConfig(cfg) && id in b.changelog
    ensures var was, r := b.changelog[id], Cycle(cfg, mapping, b, now);
            if id !in mapping then
              id !in r.changelog && id in r.archive && r.archive[id] == was.(dateArchived := Some(Instant(now)))
            else if was.currentHash == cfg.hash(mapping[id]) then
              id in r.changelog && r.changelog[id] == was
            else
              && id in r.changelog
              && r.changelog[id] == was.(currentGeometry := mapping[id], currentHash := cfg.hash(mapping[id]),
                                         history := was.history + [HistoryEntry(Instant(now), was.currentGeometry)])
  {
    LiveIdsAreFreshIds(cfg, mapping, b, now);
    if id in mapping {
      CycleEntry(cfg, mapping, b, id, now);
    } else {
      CycleUnfold(cfg, mapping, b, now);
    }
  }

  /** An archived record survives a cycle unless its id is archived again, which overwrites it. */
  lemma ArchivedRecordLostOnlyByRearchiving(cfg: Config, mapping: Mapping, b: Books, id: Id, now: int)
    requires ValidConfig(cfg) && id in b.archive
    ensures var r := Cycle(cfg, mapping, b, now);
            && id in r.archive
            && (id !in RemovedIds(b.changelog, mapping) ==> r.archive[id] == b.archive[id])
            && (id in RemovedIds(b.changelog, mapping) ==> r.archive[id] == Archived(b.changelog[id], now))
  {
    CycleUnfold(cfg, mapping, b, now);
  }

  // ---------------------------------------------------------------- the two implementations

  /** What each implementation leaves behind after one cycle over a readable mapping. */
  ghost function FileResult(cfg: Config, mapping: Mapping, b: Books, now: int): Books
    requires ValidConfig(cfg)
  {
    Cycle(cfg, mapping, b, now)
  }

  ghost function RepoResult(cfg: Config, mapping: Mapping, b: Books, now: int): Books
    requires ValidConfig(cfg)
  {
    if mapping == map[] then b else Cycle(cfg, mapping, b, now)
  }

  /** Mutating the files in place and computing on copies give the same books unless the mapping is
      empty while segments are live: then the file version archives every live segment, and the
      repository version keeps them all. */
  lemma ImplementationsAgreeExactly(cfg: Config, mapping: Mapping, b: Books, now: int)
    requires ValidConfig(cfg)
    ensures FileResult(cfg, mapping, b, now) == RepoResult(cfg, mapping, b, now)
            <==> mapping != map[] || b.changelog == map[]
  {
    if mapping == map[] {
      LiveIdsAreFreshIds(cfg, mapping, b, now);
      assert mapping.Keys == {};
      var r := Cycle(cfg, mapping, b, now);
      assert r.changelog == map[];
      if b.changelog == map[] {
        CycleUnfold(cfg, mapping, b, now);
        assert RemovedIds(b.changelog, mapping) == {};
      }
    }
  }

  /** The methods of both implementations, run from equal books, end in equal books. */
  method RunBoth(cfg: Config, mapping: Mapping, changelog: Book, archive: Book, now: int)
    returns (viaFiles: Books, viaRepo: Books)
    requires ValidConfig(cfg)
    ensures mapping != map[] ==> viaFiles == viaRepo
    ensures viaFiles == FileResult(cfg, mapping, Books(changelog, archive), now)
    ensures viaRepo == RepoResult(cfg, mapping, Books(changelog, archive), now)
  {
    var files := new SegmentFiles(changelog, archive);
    files.UpdateSegmentChangelog(cfg, Some(mapping), now);
    var repo := new SegmentRepository(changelog, archive);
    repo.UpdateFromRepo(cfg, Some(mapping), now);
    viaFiles, viaRepo := Books(files.changelog, files.archive), Books(repo.changelog, repo.archive);
  }

  // ---------------------------------------------------------------- runs of cycles

  /** Input of one cycle; `migrated` are the live segments whose pending migration succeeded. */
  datatype CycleInput = CycleInput(mapping: Mapping, now: int, migrated: set<Id>)

  function Marked(r: Record, now: int): Record {
    if r.geoInheritedFrom.Some? && r.timeseriesMigratedAt.None? then r.(timeseriesMigratedAt := Some(Instant(now)))
    else r
  }

  function MarkMigrated(c: Book, migrated: set<Id>, now: int): Book {
    map id | id in c :: if id in migrated then Marked(c[id], now) else c[id]
  }

  ghost function FullCycle(cfg: Config, input: CycleInput, b: Books): Books
    requires ValidConfig(cfg)
  {
    var r := Cycle(cfg, input.mapping, b, input.now);
    Books(MarkMigrated(r.changelog, input.migrated, input.now), r.archive)
  }

  ghost function Run(cfg: Config, inputs: seq<CycleInput>, b: Books): Books
    requires ValidConfig(cfg)
  {
    if inputs == [] then b else FullCycle(cfg, inputs[|inputs| - 1], Run(cfg, inputs[..|inputs| - 1], b))
  }

  ghost predicate Injective(hash: Geometry -> Hash) {
    forall g, h :: hash(g) == hash(h) ==> g == h
  }

  /** Consecutive repeats removed. */
  function Destutter(s: seq<Geometry>): seq<Geometry> {
    if |s| <= 1 then s else
      var front := s[..|s| - 1];
      if s[|s| - 1] == front[|front| - 1] then Destutter(front) else Destutter(front) + [s[|s| - 1]]
  }

  function Geometries(history: seq<HistoryEntry>): seq<Geometry> {
    seq(|history|, i requires 0 <= i < |history| => history[i].geometry)
  }

  function FreshGeometries(inputs: seq<CycleInput>, id: Id): seq<Geometry>
    requires forall i :: 0 <= i < |inputs| ==> id in inputs[i].mapping
  {
    seq(|inputs|, i requires 0 <= i < |inputs| => inputs[i].mapping[id])
  }

  lemma FullCycleEntry(cfg: Config, input: CycleInput, b: Books, id: Id)
    requires ValidConfig(cfg) && id in b.changelog && id in input.mapping
    ensures var was, r := b.changelog[id], FullCycle(cfg, input, b);
            && id in r.changelog
            && r.changelog[id].currentGeometry
                == (if was.currentHash == cfg.hash(input.mapping[id]) then was.currentGeometry else input.mapping[id])
            && r.changelog[id].currentHash == cfg.hash(input.mapping[id])
            && r.changelog[id].geoInheritedFrom == was.geoInheritedFrom
            && r.changelog[id].history == if was.currentHash == cfg.hash(input.mapping[id]) then was.history
                                          else was.history + [HistoryEntry(Instant(input.now), was.currentGeometry)]
  {
    EveryRecordKeptExtendedOrArchived(cfg, input.mapping, b, id, input.now);
    LiveIdsAreFreshIds(cfg, input.mapping, b, input.now);
    hide Cycle;
  }

  /** The past of a segment as its record tells it, beyond the first `inherited` entries. */
  ghost predicate TellsPast(cfg: Config, r: Record, inherited: seq<HistoryEntry>, past: seq<Geometry>) {
    && inherited <= r.history
    && r.currentHash == cfg.hash(r.currentGeometry)
    && past != [] && past[|past| - 1] == r.currentGeometry
    && Geometries(r.history[|inherited|..]) + [r.currentGeometry] == Destutter(past)
  }

  lemma {:induction false} DestutterSnoc(past: seq<Geometry>, g: Geometry)
    requires past != []
    ensures Destutter(past + [g]) == if g == past[|past| - 1] then Destutter(past) else Destutter(past) + [g]
  {
    assert (past + [g])[..|past|] == past;
  }

  lemma GeometriesSnoc(history: seq<HistoryEntry>, e: HistoryEntry)
    ensures Geometries(history + [e]) == Geometries(history) + [e.geometry]
  {
  }

  lemma ExtendPast(cfg: Config, was: Record, now: Record, inherited: seq<HistoryEntry>, past: seq<Geometry>, at: Stamp)
    requires TellsPast(cfg, was, inherited, past)
    requires now.currentGeometry != was.currentGeometry && now.currentHash == cfg.hash(now.currentGeometry)
    requires now.history == was.history + [HistoryEntry(at, was.currentGeometry)]
    ensures TellsPast(cfg, now, inherited, past + [now.currentGeometry])
  {
    hide Geometries, Destutter;
    var own, entry := was.history[|inherited|..], HistoryEntry(at, was.currentGeometry);
    assert now.history[|inherited|..] == own + [entry];
    GeometriesSnoc(own, entry);
    DestutterSnoc(past, now.currentGeometry);
  }

  lemma RepeatPast(cfg: Config, was: Record, now: Record, inherited: seq<HistoryEntry>, past: seq<Geometry>)
    requires TellsPast(cfg, was, inherited, past)
    requires now.currentGeometry == was.currentGeometry && now.currentHash == was.currentHash
    requires now.history == was.history
    ensures TellsPast(cfg, now, inherited, past + [now.currentGeometry])
  {
    hide Geometries, Destutter;
    DestutterSnoc(past, now.currentGeometry);
  }

  lemma TellsPastStep(cfg: Config, input: CycleInput, b: Books, id: Id, inherited: seq<HistoryEntry>,
                      past: seq<Geometry>)
    requires ValidConfig(cfg) && Injective(cfg.hash) && id in b.changelog && id in input.mapping
    requires TellsPast(cfg, b.changelog[id], inherited, past)
    ensures var r := FullCycle(cfg, input, b);
            id in r.changelog && TellsPast(cfg, r.changelog[id], inherited, past + [input.mapping[id]])
  {
    FullCycleEntry(cfg, input, b, id);
    var was, now, g := b.changelog[id], FullCycle(cfg, input, b).changelog[id], input.mapping[id];
    assert was.currentHash == cfg.hash(g) <==> was.currentGeometry == g;
    hide FullCycle, TellsPast;
    if was.currentGeometry != g {
      ExtendPast(cfg, was, now, inherited, past, Instant(input.now));
    } else {
      RepeatPast(cfg, was, now, inherited, past);
    }
  }

  /** While a segment stays present, its own history followed by its current geometry is the sequence
      of its geometries with consecutive repeats removed, after whatever its record began with. */
  lemma {:induction false} HistoryIsDestutteredPast(cfg: Config, inputs: seq<CycleInput>, b: Books, id: Id,
                                                    inherited: seq<HistoryEntry>, past: seq<Geometry>)
    requires ValidConfig(cfg) && Injective(cfg.hash) && id in b.changelog
    requires TellsPast(cfg, b.changelog[id], inherited, past)
    requires forall i :: 0 <= i < |inputs| ==> id in inputs[i].mapping
    ensures var r := Run(cfg, inputs, b);
            id in r.changelog && TellsPast(cfg, r.changelog[id], inherited, past + FreshGeometries(inputs, id))
  {
    hide TellsPast, FullCycle, Injective;
    if inputs == [] {
      assert past + FreshGeometries(inputs, id) == past;
    } else {
      var front, last := inputs[..|inputs| - 1], inputs[|inputs| - 1];
      HistoryIsDestutteredPast(cfg, front, b, id, inherited, past);
      TellsPastStep(cfg, last, Run(cfg, front, b), id, inherited, past + FreshGeometries(front, id));
      assert past + FreshGeometries(inputs, id) == past + FreshGeometries(front, id) + [last.mapping[id]];
    }
  }

  lemma AddedRecordTellsItself(cfg: Config, input: CycleInput, b: Books, id: Id)
    requires ValidConfig(cfg) && id !in b.changelog && id in input.mapping
    ensures var r := FullCycle(cfg, input, b);
            id in r.changelog && TellsPast(cfg, r.changelog[id], r.changelog[id].history, [input.mapping[id]])
  {
    CycleEntry(cfg, input.mapping, b, id, input.now);
    var r := FullCycle(cfg, input, b).changelog[id];
    assert Geometries(r.history[|r.history|..]) == [];
    hide Cycle;
  }

  /** The same from the cycle that adds the segment, whatever it inherits there. */
  lemma {:induction false} HistoryFromFirstAppearance(cfg: Config, first: CycleInput, inputs: seq<CycleInput>,
                                                      b: Books, id: Id)
    requires ValidConfig(cfg) && Injective(cfg.hash) && id !in b.changelog && id in first.mapping
    requires forall i :: 0 <= i < |inputs| ==> id in inputs[i].mapping
    ensures var start := FullCycle(cfg, first, b);
            var r := Run(cfg, inputs, start);
            && id in start.changelog && id in r.changelog
            && TellsPast(cfg, r.changelog[id], start.changelog[id].history,
                         [first.mapping[id]] + FreshGeometries(inputs, id))
  {
    var start := FullCycle(cfg, first, b);
    hide *;
    AddedRecordTellsItself(cfg, first, b, id);
    HistoryIsDestutteredPast(cfg, inputs, start, id, start.changelog[id].history, [first.mapping[id]]);
  }

  /** Through a whole run a live record carries the date of the cycle that added its segment, and no archiving date. */
  lemma {:induction false} AddedRecordIsDated(cfg: Config, first: CycleInput, inputs: seq<CycleInput>, b: Books, id: Id)
    requires ValidConfig(cfg) && id !in b.changelog && id in first.mapping
    requires forall i :: 0 <= i < |inputs| ==> id in inputs[i].mapping
    ensures var r := Run(cfg, inputs, FullCycle(cfg, first, b));
            id in r.changelog && r.changelog[id].dateAdded == Instant(first.now) && r.changelog[id].dateArchived.None?
    decreases |inputs|
  {
    if inputs == [] {
      AddedIsDated(cfg, first, b, id);
    } else {
      var front, last := inputs[..|inputs| - 1], inputs[|inputs| - 1];
      AddedRecordIsDated(cfg, first, front, b, id);
      StaysDated(cfg, last, Run(cfg, front, FullCycle(cfg, first, b)), id);
    }
    hide FullCycle;
  }

  lemma {:induction false} AddedIsDated(cfg: Config, input: CycleInput, b: Books, id: Id)
    requires ValidConfig(cfg) && id !in b.changelog && id in input.mapping
    ensures var r := FullCycle(cfg, input, b);
            id in r.changelog && r.changelog[id].dateAdded == Instant(input.now) && r.changelog[id].dateArchived.None?
  {
    CycleEntry(cfg, input.mapping, b, id, input.now);
    hide Cycle, MatchedId;
  }

  lemma {:induction false} StaysDated(cfg: Config, input: CycleInput, b: Books, id: Id)
    requires ValidConfig(cfg) && id in b.changelog && id in input.mapping
    ensures var r := FullCycle(cfg, input, b);
            && id in r.changelog && r.changelog[id].dateAdded == b.changelog[id].dateAdded
            && r.changelog[id].dateArchived == b.changelog[id].dateArchived
  {
    EveryRecordKeptExtendedOrArchived(cfg, input.mapping, b, id, input.now);
    hide Cycle;
  }

  // ---------------------------------------------------------------- inheriting once

  ghost predicate Names(c: Book, id: Id, source: Id) {
    id in c && c[id].geoInheritedFrom == Some(source)
  }

  lemma NamesStep(cfg: Config, input: CycleInput, b: Books, holder: Id, source: Id)
    requires ValidConfig(cfg) && Names(b.changelog, holder, source) && source !in b.changelog
    requires holder in input.mapping && source !in input.mapping
    ensures var r := FullCycle(cfg, input, b);
            && Names(r.changelog, holder, source) && source !in r.changelog
            && forall id :: Names(r.changelog, id, source) ==> Names(b.changelog, id, source)
  {
    var r, now := FullCycle(cfg, input, b), input.now;
    LiveIdsAreFreshIds(cfg, input.mapping, b, now);
    FullCycleEntry(cfg, input, b, holder);
    var detected := DetectedChangelog(cfg, b.changelog, input.mapping, now);
    assert detected[holder].geoInheritedFrom == Some(source);
    assert source in AlreadyInherited(detected);
    forall id | Names(r.changelog, id, source)
      ensures Names(b.changelog, id, source)
    {
      CycleEntry(cfg, input.mapping, b, id, now);
      if id in b.changelog {
        FullCycleEntry(cfg, input, b, id);
      } else {
        MatchIsEligible(cfg, input.mapping, b, id, now);
      }
    }
  }

  /** Cross-cycle inheritance is used once: while a live segment names an archived one as its source,
      and the source is not re-added, no segment added later comes to name the same source. */
  lemma {:induction false} SourceIsInheritedOnce(cfg: Config, inputs: seq<CycleInput>, b: Books, holder: Id, source: Id)
    requires ValidConfig(cfg) && Names(b.changelog, holder, source) && source !in b.changelog
    requires forall i :: 0 <= i < |inputs| ==> holder in inputs[i].mapping && source !in inputs[i].mapping
    ensures var r := Run(cfg, inputs, b);
            && Names(r.changelog, holder, source) && source !in r.changelog
            && forall id :: Names(r.changelog, id, source) ==> Names(b.changelog, id, source)
  {
    if inputs != [] {
      var front := inputs[..|inputs| - 1];
      SourceIsInheritedOnce(cfg, front, b, holder, source);
      NamesStep(cfg, inputs[|inputs| - 1], Run(cfg, front, b), holder, source);
    }
  }

  // ---------------------------------------------------------------- what an heir inherits

  lemma {:induction false} GeometriesConcat(a: seq<HistoryEntry>, b: seq<HistoryEntry>)
    ensures Geometries(a + b) == Geometries(a) + Geometries(b)
  {
  }

  /** A cycle without the segment leaves it archived: with the date of the cycle, if it was live, and as it was,
      if it was archived already. */
  lemma {:induction false} AbsentIsArchived(cfg: Config, input: CycleInput, b: Books, x: Id)
    requires ValidConfig(cfg) && x !in input.mapping && (x in b.changelog || x in b.archive)
    ensures var r := FullCycle(cfg, input, b);
            && x !in r.changelog && x in r.archive
            && r.archive[x] == if x in b.changelog then b.changelog[x].(dateArchived := Some(Instant(input.now)))
                               else b.archive[x]
  {
    LiveIdsAreFreshIds(cfg, input.mapping, b, input.now);
    if x in b.changelog {
      EveryRecordKeptExtendedOrArchived(cfg, input.mapping, b, x, input.now);
    } else {
      ArchivedRecordLostOnlyByRearchiving(cfg, input.mapping, b, x, input.now);
    }
    hide Cycle;
  }

  /** While it stays absent, a live segment ends in the archive with the date of the first cycle that misses it. */
  lemma {:induction false} StaysArchived(cfg: Config, gap: seq<CycleInput>, b: Books, x: Id)
    requires ValidConfig(cfg) && x in b.changelog && gap != []
    requires forall i :: 0 <= i < |gap| ==> x !in gap[i].mapping
    ensures var r := Run(cfg, gap, b);
            && x !in r.changelog && x in r.archive
            && r.archive[x] == b.changelog[x].(dateArchived := Some(Instant(gap[0].now)))
    decreases |gap|
  {
    var front := gap[..|gap| - 1];
    if front == [] {
      assert Run(cfg, front, b) == b;
    } else {
      StaysArchived(cfg, front, b, x);
    }
    AbsentIsArchived(cfg, gap[|gap| - 1], Run(cfg, front, b), x);
    hide FullCycle;
  }

  lemma {:induction false} HeirStartsWith(cfg: Config, adding: CycleInput, b: Books, x: Id, y: Id)
    requires ValidConfig(cfg) && y in adding.mapping && y !in b.changelog
    requires Names(FullCycle(cfg, adding, b).changelog, y, x)
    ensures var r := FullCycle(cfg, adding, b);
            x in r.archive && (r.archive[x].dateArchived.Some? ==>
              r.changelog[y].history == r.archive[x].history
                + [HistoryEntry(r.archive[x].dateArchived.value, r.archive[x].currentGeometry)])
  {
    CycleEntry(cfg, adding.mapping, b, y, adding.now);
    hide Cycle, MatchedId;
  }

  /** The archived record that an heir named in the cycle takes its history from, where x was live before `gap`. */
  lemma {:induction false} SourceIsTheRemovedRecord(cfg: Config, gap: seq<CycleInput>, adding: CycleInput, b: Books,
                                                    x: Id)
    requires ValidConfig(cfg) && x in b.changelog && forall i :: 0 <= i < |gap| ==> x !in gap[i].mapping
    requires gap == [] ==> x !in adding.mapping
    ensures var archive := FullCycle(cfg, adding, Run(cfg, gap, b)).archive;
            x in archive && archive[x]
            == b.changelog[x].(dateArchived := Some(Instant(if gap == [] then adding.now else gap[0].now)))
  {
    if gap == [] {
      assert Run(cfg, gap, b) == b;
      AbsentIsArchived(cfg, adding, b, x);
    } else {
      StaysArchived(cfg, gap, b, x);
      var r := Run(cfg, gap, b);
      ArchivedRecordLostOnlyByRearchiving(cfg, adding.mapping, r, x, adding.now);
      hide Cycle, Run;
    }
  }

  /** What an heir's record tells. x has been live with the past `past` since its record began with `inherited`;
      through the cycles `before` it is present, then it is missing until y, added by the cycle `adding`, inherits
      from it, and y is present in the cycles `after`. Then y's geometries are those that x had inherited, then
      x's past and then y's own, each without consecutive repeats; and its entries are those of x with their
      dates and then x's last geometry with the date of the cycle that removed x. */
  lemma {:induction false} HeirTellsBothPasts(cfg: Config, before: seq<CycleInput>, gap: seq<CycleInput>,
                                              adding: CycleInput, after: seq<CycleInput>, b: Books, x: Id, y: Id,
                                              inherited: seq<HistoryEntry>, past: seq<Geometry>)
    requires ValidConfig(cfg) && Injective(cfg.hash)
    requires x in b.changelog && TellsPast(cfg, b.changelog[x], inherited, past)
    requires forall i :: 0 <= i < |before| ==> x in before[i].mapping
    requires forall i :: 0 <= i < |gap| ==> x !in gap[i].mapping
    requires gap == [] ==> x !in adding.mapping
    requires y in adding.mapping && y !in Run(cfg, gap, Run(cfg, before, b)).changelog
    requires Names(FullCycle(cfg, adding, Run(cfg, gap, Run(cfg, before, b))).changelog, y, x)
    requires forall i :: 0 <= i < |after| ==> y in after[i].mapping
    ensures var live := Run(cfg, before, b);
            var r := Run(cfg, after, FullCycle(cfg, adding, Run(cfg, gap, live)));
            && x in live.changelog && y in r.changelog
            && var source, heir := live.changelog[x], r.changelog[y];
               && Geometries(heir.history) + [heir.currentGeometry]
                  == Geometries(inherited) + Destutter(past + FreshGeometries(before, x))
                     + Destutter([adding.mapping[y]] + FreshGeometries(after, y))
               && source.history + [HistoryEntry(Instant(if gap == [] then adding.now else gap[0].now),
                                                 source.currentGeometry)] <= heir.history
  {
    hide *;
    var live := Run(cfg, before, b);
    HistoryIsDestutteredPast(cfg, before, b, x, inherited, past);
    SourceIsTheRemovedRecord(cfg, gap, adding, live, x);
    HeirStartsWith(cfg, adding, Run(cfg, gap, live), x, y);
    HistoryFromFirstAppearance(cfg, adding, after, Run(cfg, gap, live), y);
    var start := FullCycle(cfg, adding, Run(cfg, gap, live));
    PastsConcat(cfg, live.changelog[x], inherited, past + FreshGeometries(before, x),
                Run(cfg, after, start).changelog[y], start.changelog[y].history,
                [adding.mapping[y]] + FreshGeometries(after, y), start.archive[x].dateArchived.value);
  }

  lemma {:induction false} PastsConcat(cfg: Config, source: Record, inherited: seq<HistoryEntry>, past: seq<Geometry>,
                                       heir: Record, prefix: seq<HistoryEntry>, own: seq<Geometry>, at: Stamp)
    requires TellsPast(cfg, source, inherited, past) && TellsPast(cfg, heir, prefix, own)
    requires prefix == source.history + [HistoryEntry(at, source.currentGeometry)]
    ensures Geometries(heir.history) + [heir.currentGeometry]
            == Geometries(inherited) + Destutter(past) + Destutter(own)
    ensures prefix <= heir.history
  {
    var a, c := source.history[|inherited|..], heir.history[|prefix|..];
    HistorySplits(source.history, inherited);
    HistorySplits(heir.history, prefix);
    hide Geometries, Destutter;
    GeometriesConcat(inherited, a);
    GeometriesSnoc(source.history, HistoryEntry(at, source.currentGeometry));
    GeometriesConcat(prefix, c);
    Regroup(Geometries(inherited), Geometries(a), [source.currentGeometry], Geometries(c), [heir.currentGeometry]);
  }

  lemma {:induction false} HistorySplits(history: seq<HistoryEntry>, prefix: seq<HistoryEntry>)
    requires prefix <= history
    ensures history == prefix + history[|prefix|..]
  {
  }

  lemma {:induction false} Regroup(a: seq<Geometry>, b: seq<Geometry>, c: seq<Geometry>, d: seq<Geometry>,
                                   e: seq<Geometry>)
    ensures a + b + c + d + e == a + (b + c) + (d + e)
  {
  }

  // ---------------------------------------------------------------- what the rule does not prevent

  /** x stands in the order, reaches the threshold, is outscored by no candidate and beats every earlier one. */
  ghost predicate IsFirstMaximum(cfg: Config, geometry: Geometry, archive: Book, order: seq<Id>, x: Id)
    requires forall i :: 0 <= i < |order| ==> order[i] in archive
  {
    exists i :: 0 <= i < |order| && order[i] == x && LeadsAt(cfg, geometry, archive, order, i)
  }

  ghost predicate LeadsAt(cfg: Config, geometry: Geometry, archive: Book, order: seq<Id>, i: nat)
    requires forall i :: 0 <= i < |order| ==> order[i] in archive
    requires i < |order|
  {
    var top := ScoreOf(cfg, geometry, archive, order[i]);
    && top >= 0.7
    && (forall j :: 0 <= j < |order| ==> ScoreOf(cfg, geometry, archive, order[j]) <= top)
    && (forall j :: 0 <= j < i ==> ScoreOf(cfg, geometry, archive, order[j]) < top)
  }

  lemma BestMatchIsFirstMaximum(cfg: Config, geometry: Geometry, archive: Book, order: seq<Id>, x: Id)
    requires forall i :: 0 <= i < |order| ==> order[i] in archive
    ensures BestMatch(cfg, geometry, archive, order) == Some(x) <==> IsFirstMaximum(cfg, geometry, archive, order, x)
  {
    BestCandidateIsFirstMaximum(cfg, geometry, archive, order);
    var (best, top) := BestCandidate(cfg, geometry, archive, order);
    hide ScoreOf, BestCandidate;
    if best.Some? {
      var i :| 0 <= i < |order| && order[i] == best.value && ScoreOf(cfg, geometry, archive, order[i]) == top
               && forall j :: 0 <= j < i ==> ScoreOf(cfg, geometry, archive, order[j]) < top;
      assert top >= MATCH_THRESHOLD ==> LeadsAt(cfg, geometry, archive, order, i);
      if k :| 0 <= k < |order| && order[k] == x && LeadsAt(cfg, geometry, archive, order, k) {
        assert !(k < i) && !(i < k);
      }
    }
  }

  /** The candidates of a cycle and the archive that holds them. */
  ghost function CycleCandidates(cfg: Config, mapping: Mapping, b: Books, now: int): (r: (seq<Id>, Book))
    requires ValidConfig(cfg)
    ensures forall i :: 0 <= i < |r.0| ==> r.0[i] in r.1
  {
    var c := DetectedChangelog(cfg, b.changelog, mapping, now);
    var a := DetectedArchive(b.changelog, b.archive, mapping, now);
    CycleUnfold(cfg, mapping, b, now);
    (CandidateOrder(cfg, c, a, RemovedIds(b.changelog, mapping), now), a)
  }

  /** Exactly when an added segment inherits from x: x is the first candidate with the highest score, and
      that score reaches the threshold. */
  lemma NamesTheFirstMaximum(cfg: Config, mapping: Mapping, b: Books, id: Id, x: Id, now: int)
    requires ValidConfig(cfg) && id in AddedIds(b.changelog, mapping)
    ensures var (order, archive) := CycleCandidates(cfg, mapping, b, now);
            Names(Cycle(cfg, mapping, b, now).changelog, id, x)
            <==> IsFirstMaximum(cfg, mapping[id], archive, order, x)
  {
    CycleEntry(cfg, mapping, b, id, now);
    var (order, archive) := CycleCandidates(cfg, mapping, b, now);
    BestMatchIsFirstMaximum(cfg, mapping[id], archive, order, x);
    assert MatchedId(cfg, mapping, b, id, now) == BestMatch(cfg, mapping[id], archive, order);
    hide BestMatch, IsFirstMaximum, CandidateOrder;
  }

  /** x disappears in this cycle, or was archived within the look-back window and no live segment that stays has
      inherited from it. */
  ghost predicate IsCandidate(cfg: Config, mapping: Mapping, b: Books, now: int, x: Id) {
    || (x in b.changelog && x !in mapping)
    || (cfg.lookback.Some? && x in b.archive
        && b.archive[x].dateArchived.Some? && b.archive[x].dateArchived.value.Instant?
        && now - cfg.lookback.value <= b.archive[x].dateArchived.value.at
        && forall id :: id in b.changelog && id in mapping ==> b.changelog[id].geoInheritedFrom != Some(x))
  }

  /** The geometries of x and of a new segment overlap by `score`. */
  ghost predicate Overlaps(cfg: Config, mapping: Mapping, b: Books, geometry: Geometry, x: Id, score: real) {
    || (x in b.changelog && x !in mapping && cfg.score(geometry, b.changelog[x].currentGeometry) == Some(score))
    || (x in b.archive && (x !in b.changelog || x in mapping)
        && cfg.score(geometry, b.archive[x].currentGeometry) == Some(score))
  }

  /** The candidates of a cycle are the segments that disappear in it, before the others. */
  lemma {:induction false} CandidatesOfCycle(cfg: Config, mapping: Mapping, b: Books, now: int)
    requires ValidConfig(cfg)
    ensures var (order, archive) := CycleCandidates(cfg, mapping, b, now);
            && (forall x :: x in order <==> IsCandidate(cfg, mapping, b, now, x))
            && (forall i, j :: 0 <= i < j < |order| && order[j] in RemovedIds(b.changelog, mapping) ==>
                                 order[i] in RemovedIds(b.changelog, mapping))
  {
    var c := DetectedChangelog(cfg, b.changelog, mapping, now);
    var removed := RemovedIds(b.changelog, mapping);
    var (order, archive) := CycleCandidates(cfg, mapping, b, now);
    CycleUnfold(cfg, mapping, b, now);
    CandidatesAreArchived(cfg, c, archive, removed, now);
    var ids := LookbackIds(c, archive, removed, cfg.lookback, now);
    assert Lists(cfg.listing(removed), removed) && Lists(cfg.listing(ids), ids);
    forall x: Id
      ensures x in ids <==> x !in removed && IsCandidate(cfg, mapping, b, now, x)
    {
      InheritedByTheLive(cfg, mapping, b, now, x);
    }
  }

  lemma {:induction false} InheritedByTheLive(cfg: Config, mapping: Mapping, b: Books, now: int, x: Id)
    ensures x in AlreadyInherited(DetectedChangelog(cfg, b.changelog, mapping, now))
            <==> exists id :: id in b.changelog && id in mapping && b.changelog[id].geoInheritedFrom == Some(x)
  {
    var c := DetectedChangelog(cfg, b.changelog, mapping, now);
    if id :| id in b.changelog && id in mapping && b.changelog[id].geoInheritedFrom == Some(x) {
      assert id in c && c[id].geoInheritedFrom == Some(x);
    }
  }

  lemma {:induction false} ScoreIsOverlap(cfg: Config, mapping: Mapping, b: Books, y: Id, x: Id, now: int)
    requires ValidConfig(cfg) && y in mapping
    requires IsCandidate(cfg, mapping, b, now, x)
    ensures var (order, archive) := CycleCandidates(cfg, mapping, b, now);
            && x in archive
            && (forall score :: Overlaps(cfg, mapping, b, mapping[y], x, score) ==>
                                  ScoreOf(cfg, mapping[y], archive, x) == score)
            && (ScoreOf(cfg, mapping[y], archive, x) != 0.0 ==>
                  Overlaps(cfg, mapping, b, mapping[y], x, ScoreOf(cfg, mapping[y], archive, x)))
  {
  }

  /** x overlaps the new segment y by `top`, which is 0.7 or more; no candidate overlaps it by more, and where x was
      archived before, no segment that disappears overlaps it by as much. */
  ghost predicate IsBest(cfg: Config, mapping: Mapping, b: Books, now: int, y: Id, x: Id, top: real)
    requires y in mapping
  {
    && top >= 0.7 && IsCandidate(cfg, mapping, b, now, x) && Overlaps(cfg, mapping, b, mapping[y], x, top)
    && forall z, score :: IsCandidate(cfg, mapping, b, now, z) && Overlaps(cfg, mapping, b, mapping[y], z, score) ==>
         && score <= top
         && (z in RemovedIds(b.changelog, mapping) && x !in RemovedIds(b.changelog, mapping) ==> score < top)
  }

  /** The first maximum of the candidates is the best one. */
  lemma {:induction false} FirstMaximumIsBest(cfg: Config, mapping: Mapping, b: Books, y: Id, x: Id, now: int)
    requires ValidConfig(cfg) && y in mapping
    requires var (order, archive) := CycleCandidates(cfg, mapping, b, now);
             IsFirstMaximum(cfg, mapping[y], archive, order, x)
    ensures exists top :: IsBest(cfg, mapping, b, now, y, x, top)
  {
    hide CycleCandidates, RemovedIds, IsCandidate, Overlaps, ScoreOf;
    var (order, archive) := CycleCandidates(cfg, mapping, b, now);
    CandidatesOfCycle(cfg, mapping, b, now);
    var i :| 0 <= i < |order| && order[i] == x && LeadsAt(cfg, mapping[y], archive, order, i);
    var top := ScoreOf(cfg, mapping[y], archive, x);
    ScoreIsOverlap(cfg, mapping, b, y, x, now);
    forall z, score | IsCandidate(cfg, mapping, b, now, z) && Overlaps(cfg, mapping, b, mapping[y], z, score)
      ensures score <= top
      ensures z in RemovedIds(b.changelog, mapping) && x !in RemovedIds(b.changelog, mapping) ==> score < top
    {
      ScoreIsOverlap(cfg, mapping, b, y, z, now);
      var j :| 0 <= j < |order| && order[j] == z;
      assert ScoreOf(cfg, mapping[y], archive, order[j]) == score;
    }
    assert IsBest(cfg, mapping, b, now, y, x, top);
  }

  /** Exactly when an added segment inherits at all, and from which one: some candidate overlaps it by 0.7 or more,
      and it inherits from the best. */
  lemma {:induction false} HeirTakesTheBestCandidate(cfg: Config, mapping: Mapping, b: Books, y: Id, now: int)
    requires ValidConfig(cfg) && y in AddedIds(b.changelog, mapping)
    ensures var c := Cycle(cfg, mapping, b, now).changelog;
            && y in c
            && (c[y].geoInheritedFrom.Some? <==>
                exists x, score :: score >= 0.7 && IsCandidate(cfg, mapping, b, now, x)
                                   && Overlaps(cfg, mapping, b, mapping[y], x, score))
            && forall x :: c[y].geoInheritedFrom == Some(x) ==> exists top :: IsBest(cfg, mapping, b, now, y, x, top)
  {
    CycleEntry(cfg, mapping, b, y, now);
    var c := Cycle(cfg, mapping, b, now).changelog;
    var (order, archive) := CycleCandidates(cfg, mapping, b, now);
    assert MatchedId(cfg, mapping, b, y, now) == BestMatch(cfg, mapping[y], archive, order);
    MatchIffThresholdReached(cfg, mapping[y], archive, order);
    CandidatesOfCycle(cfg, mapping, b, now);
    hide Cycle, CycleCandidates, MatchedId, BestMatch, IsCandidate, Overlaps, ScoreOf, IsFirstMaximum, IsBest, Lists;
    if x, score :| score >= 0.7 && IsCandidate(cfg, mapping, b, now, x)
                   && Overlaps(cfg, mapping, b, mapping[y], x, score) {
      ScoreIsOverlap(cfg, mapping, b, y, x, now);
      var i :| 0 <= i < |order| && order[i] == x;
      assert ScoreOf(cfg, mapping[y], archive, order[i]) >= 0.7;
    }
    if c[y].geoInheritedFrom.Some? {
      var x := c[y].geoInheritedFrom.value;
      NamesTheFirstMaximum(cfg, mapping, b, y, x, now);
      FirstMaximumIsBest(cfg, mapping, b, y, x, now);
      var top :| IsBest(cfg, mapping, b, now, y, x, top);
      BestOverlaps(cfg, mapping, b, y, x, top, now);
    }
  }

  lemma {:induction false} BestOverlaps(cfg: Config, mapping: Mapping, b: Books, y: Id, x: Id, top: real, now: int)
    requires y in mapping && IsBest(cfg, mapping, b, now, y, x, top)
    ensures top >= 0.7 && IsCandidate(cfg, mapping, b, now, x) && Overlaps(cfg, mapping, b, mapping[y], x, top)
  {
  }

  /** Exactly when two added segments share a source: one candidate is the first maximum for both. */
  lemma SourceIsSharedIff(cfg: Config, mapping: Mapping, b: Books, y: Id, z: Id, now: int)
    requires ValidConfig(cfg) && y in AddedIds(b.changelog, mapping) && z in AddedIds(b.changelog, mapping)
    ensures var (order, archive) := CycleCandidates(cfg, mapping, b, now);
            var c := Cycle(cfg, mapping, b, now).changelog;
            (exists x :: Names(c, y, x) && Names(c, z, x))
            <==> exists x :: IsFirstMaximum(cfg, mapping[y], archive, order, x)
                             && IsFirstMaximum(cfg, mapping[z], archive, order, x)
  {
    hide Cycle, CycleCandidates, IsFirstMaximum;
    var (order, archive) := CycleCandidates(cfg, mapping, b, now);
    var c := Cycle(cfg, mapping, b, now).changelog;
    forall x: Id
      ensures Names(c, y, x) <==> IsFirstMaximum(cfg, mapping[y], archive, order, x)
      ensures Names(c, z, x) <==> IsFirstMaximum(cfg, mapping[z], archive, order, x)
    {
      NamesTheFirstMaximum(cfg, mapping, b, y, x, now);
      NamesTheFirstMaximum(cfg, mapping, b, z, x, now);
    }
  }

  /** Exactly when an added segment inherits from itself: its own archived record is a look-back candidate
      and the first maximum. */
  lemma SelfInheritanceIff(cfg: Config, mapping: Mapping, b: Books, id: Id, now: int)
    requires ValidConfig(cfg) && id in AddedIds(b.changelog, mapping)
    ensures var (order, archive) := CycleCandidates(cfg, mapping, b, now);
            var detected := DetectedChangelog(cfg, b.changelog, mapping, now);
            Names(Cycle(cfg, mapping, b, now).changelog, id, id)
            <==> id in LookbackIds(detected, archive, RemovedIds(b.changelog, mapping), cfg.lookback, now)
                 && IsFirstMaximum(cfg, mapping[id], archive, order, id)
  {
    NamesTheFirstMaximum(cfg, mapping, b, id, id, now);
    var (order, archive) := CycleCandidates(cfg, mapping, b, now);
    var c, removed := DetectedChangelog(cfg, b.changelog, mapping, now), RemovedIds(b.changelog, mapping);
    CycleUnfold(cfg, mapping, b, now);
    CandidatesAreArchived(cfg, c, archive, removed, now);
    assert id !in removed;
    if IsFirstMaximum(cfg, mapping[id], archive, order, id) {
      var i :| 0 <= i < |order| && order[i] == id && LeadsAt(cfg, mapping[id], archive, order, i);
      assert id in LookbackIds(c, archive, removed, cfg.lookback, now);
    }
  }

  lemma OnlyCandidateMatches(cfg: Config, geometry: Geometry, archive: Book, order: seq<Id>, only: Id)
    requires forall i :: 0 <= i < |order| ==> order[i] in archive && order[i] == only
    requires only in order && ScoreOf(cfg, geometry, archive, only) >= MATCH_THRESHOLD
    ensures BestMatch(cfg, geometry, archive, order) == Some(only)
  {
    MatchIffThresholdReached(cfg, geometry, archive, order);
  }

  /** Within one cycle inheritance is not one-to-one: when one segment is replaced by two that both
      cover it, both inherit its history. */
  lemma TwoNewSegmentsShareOneSource(cfg: Config, x: Id, y: Id, z: Id, r: Record, now: int, g: Geometry, h: Geometry)
    requires ValidConfig(cfg) && x != y && y != z && x != z && cfg.lookback.None?
    requires cfg.score(g, r.currentGeometry).Some? && cfg.score(g, r.currentGeometry).value >= MATCH_THRESHOLD
    requires cfg.score(h, r.currentGeometry).Some? && cfg.score(h, r.currentGeometry).value >= MATCH_THRESHOLD
    ensures var c := Cycle(cfg, map[y := g, z := h], Books(map[x := r], map[]), now).changelog;
            Names(c, y, x) && Names(c, z, x)
  {
    var mapping, b := map[y := g, z := h], Books(map[x := r], map[]);
    var c := DetectedChangelog(cfg, b.changelog, mapping, now);
    var a := DetectedArchive(b.changelog, b.archive, mapping, now);
    var removed := RemovedIds(b.changelog, mapping);
    assert removed == {x};
    CycleUnfold(cfg, mapping, b, now);
    CandidatesAreArchived(cfg, c, a, removed, now);
    var order := CandidateOrder(cfg, c, a, removed, now);
    assert x in order;
    OnlyCandidateMatches(cfg, g, a, order, x);
    OnlyCandidateMatches(cfg, h, a, order, x);
    CycleEntry(cfg, mapping, b, y, now);
    CycleEntry(cfg, mapping, b, z, now);
  }

  /** A segment that comes back at its old place within the look-back window matches its own archived
      record and names itself as its source. */
  lemma ReturningSegmentInheritsFromItself(cfg: Config, x: Id, r: Record, now: int, at: int)
    requires ValidConfig(cfg) && cfg.lookback.Some? && at >= now - cfg.lookback.value
    requires r.dateArchived == Some(Instant(at))
    requires cfg.score(r.currentGeometry, r.currentGeometry).Some?
    requires cfg.score(r.currentGeometry, r.currentGeometry).value >= MATCH_THRESHOLD
    ensures Names(Cycle(cfg, map[x := r.currentGeometry], Books(map[], map[x := r]), now).changelog, x, x)
  {
    var mapping, b := map[x := r.currentGeometry], Books(map[], map[x := r]);
    var c := DetectedChangelog(cfg, b.changelog, mapping, now);
    var a := DetectedArchive(b.changelog, b.archive, mapping, now);
    var removed := RemovedIds(b.changelog, mapping);
    assert removed == {};
    CycleUnfold(cfg, mapping, b, now);
    CandidatesAreArchived(cfg, c, a, removed, now);
    assert AlreadyInherited(c) == {};
    assert x in LookbackIds(c, a, removed, cfg.lookback, now);
    OnlyCandidateMatches(cfg, r.currentGeometry, a, CandidateOrder(cfg, c, a, removed, now), x);
    CycleEntry(cfg, mapping, b, x, now);
  }
}
