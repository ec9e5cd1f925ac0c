/**
 migrate_segment_timeseries and _run_pending_migrations as methods over mutable stores. Every store
 operation either completes or raises after a partial effect; which one is left open.
 */
module SegmentMigrator {
  import opened Wrappers
  import opened Changelog
  import opened SegmentStore
  import opened MigrationProtocol
  import opened MigrationPass

  /** The store operations on one target, in order. */
  datatype Operation = CountOld | RetagRows | CountNew | DeleteOld

  /** What the environment makes of one target's turn: when each operation runs, and which one raises, if any. */
  datatype Turn = Turn(countAt: int, retagAt: int, recountAt: int, deleteAt: int, raises: Option<Operation>)

  datatype MigrationError = SameIds | NoTargets | StoreFailed

  datatype TargetResult = TargetResult(originalCount: nat, retaggedCount: nat, deleted: bool)

  /** One (manager, measurement) target. An operation that raises may have had any part of its effect. */
  class Bucket {
    var points: Store

    constructor (points: Store)
      ensures this.points == points
    {
      this.points := points;
    }

    method CountPoints(segment: Id, clock: int, raises: bool) returns (r: Option<nat>)
      ensures r == if raises then None else Some(|PointsOf(points, segment, clock)|)
    {
      r := if raises then None else Some(|PointsOf(points, segment, clock)|);
    }

    method RetagPoints(oldId: Id, newId: Id, clock: int, raises: bool)
      returns (completed: bool, ghost copied: set<Point>)
      modifies this
      ensures completed <==> !raises
      ensures copied <= PointsOf(old(points), oldId, clock)
      ensures completed ==> copied == PointsOf(old(points), oldId, clock)
      ensures points == Copied(old(points), oldId, newId, copied)
    {
      var all := PointsOf(points, oldId, clock);
      var some := all;
      completed := !raises;
      if raises {
        some :| some <= all;
      }
      copied := some;
      points := Copied(points, oldId, newId, some);
    }

    method DeleteOldPoints(oldId: Id, clock: int, raises: bool) returns (completed: bool, ghost removed: set<Point>)
      modifies this
      ensures completed <==> !raises
      ensures removed <= PointsOf(old(points), oldId, clock)
      ensures completed ==> removed == PointsOf(old(points), oldId, clock)
      ensures points == Without(old(points), oldId, removed)
    {
      var all := PointsOf(points, oldId, clock);
      var some := all;
      completed := !raises;
      if raises {
        some :| some <= all;
      }
      removed := some;
      points := Without(points, oldId, some);
    }
  }

  // ---------------------------------------------------------------- what a turn without a failure does

  predicate InTurn(turn: Turn) {
    turn.countAt <= turn.retagAt <= turn.recountAt <= turn.deleteAt
  }

  /** The turn raises: its count does, or there are rows to move and a later operation does. */
  predicate Fails(turn: Turn, rows: nat) {
    turn.raises.Some? && (turn.raises.value.CountOld? || rows > 0)
  }

  function RowsCounted(db: Store, oldId: Id, turn: Turn): nat { |PointsOf(db, oldId, turn.countAt)| }

  function Tagged(db: Store, oldId: Id, newId: Id, turn: Turn): Store {
    Copied(db, oldId, newId, PointsOf(db, oldId, turn.retagAt))
  }

  function Moved(db: Store, oldId: Id, newId: Id, turn: Turn): Store {
    if RowsCounted(db, oldId, turn) == 0 then db else
      var tagged := Tagged(db, oldId, newId, turn);
      Without(tagged, oldId, PointsOf(tagged, oldId, turn.deleteAt))
  }

  function ResultOf(db: Store, oldId: Id, newId: Id, turn: Turn): TargetResult {
    var original := RowsCounted(db, oldId, turn);
    if original == 0 then TargetResult(0, 0, false) else
      TargetResult(original, |PointsOf(Tagged(db, oldId, newId, turn), newId, turn.recountAt)|, true)
  }

  /** Where a row is after a turn that did not fail. Where the count saw rows, exactly those that the deletion
      sees leave the old id and exactly those that the re-tag saw come to the new id, with their values over any
      that were there; nothing else changes. Where the count saw none, nothing changes. */
  lemma {:induction false} MovedRow(db: Store, oldId: Id, newId: Id, turn: Turn, p: Point, other: Key)
    requires oldId != newId && other.segment != oldId && other.segment != newId
    ensures var after := Moved(db, oldId, newId, turn);
            var any := exists q :: Key(oldId, q) in db && 0 <= q.time < turn.countAt;
            var was, comes := Key(oldId, p), any && Key(oldId, p) in db && 0 <= p.time < turn.retagAt;
            && (was in after <==> was in db && !(any && 0 <= p.time < turn.deleteAt))
            && (was in after ==> after[was] == db[was])
            && (Key(newId, p) in after <==> Key(newId, p) in db || comes)
            && (Key(newId, p) in after ==> after[Key(newId, p)] == if comes then db[was] else db[Key(newId, p)])
            && (other in after <==> other in db) && (other in after ==> after[other] == db[other])
  {
    var seen := PointsOf(db, oldId, turn.countAt);
    assert |seen| > 0 <==> exists q :: Key(oldId, q) in db && 0 <= q.time < turn.countAt by {
      if q :| Key(oldId, q) in db && 0 <= q.time < turn.countAt {
        assert q in seen;
      }
      if |seen| > 0 {
        var q :| q in seen;
        assert Key(oldId, q) in db;
      }
    }
    CopiedAt(db, oldId, newId, PointsOf(db, oldId, turn.retagAt));
    PointAt(db, oldId, turn.retagAt, p);
    PointAt(Tagged(db, oldId, newId, turn), oldId, turn.deleteAt, p);
    hide Copied, PointsOf;
  }

  lemma {:induction false} PointAt(db: Store, segment: Id, clock: int, p: Point)
    ensures p in PointsOf(db, segment, clock) <==> Key(segment, p) in db && Visible(p, clock)
  {
    if Key(segment, p) in db && Visible(p, clock) {
      assert Key(segment, p).point == p;
    }
  }

  /** The counts of a turn that did not fail, as numbers of rows: first those of the old id, then those of the new
      id, the re-tagged ones among them. */
  lemma {:induction false} CountsAreOfThatMoment(db: Store, oldId: Id, newId: Id, turn: Turn)
    requires oldId != newId && InTurn(turn)
    ensures var r := ResultOf(db, oldId, newId, turn);
            && r.originalCount == |PointsOf(db, oldId, turn.countAt)|
            && (r.deleted <==> r.originalCount > 0)
            && r.retaggedCount >= r.originalCount
            && r.retaggedCount == if r.deleted
                                  then |PointsOf(db, oldId, turn.retagAt) + PointsOf(db, newId, turn.recountAt)| else 0
  {
    var copied, tagged := PointsOf(db, oldId, turn.retagAt), Tagged(db, oldId, newId, turn);
    CopiedAt(db, oldId, newId, copied);
    forall p: Point
      ensures p in PointsOf(tagged, newId, turn.recountAt) <==> p in copied || p in PointsOf(db, newId, turn.recountAt)
    {
      PointAt(tagged, newId, turn.recountAt, p);
      PointAt(db, newId, turn.recountAt, p);
      PointAt(db, oldId, turn.retagAt, p);
    }
    assert PointsOf(tagged, newId, turn.recountAt) == copied + PointsOf(db, newId, turn.recountAt);
    PointsGrowWithClock(db, oldId, turn.countAt, turn.retagAt);
    SubsetCardinality(PointsOf(db, oldId, turn.countAt), copied + PointsOf(db, newId, turn.recountAt));
  }

  // ---------------------------------------------------------------- what any turn keeps

  lemma RetagPreserves(oldId: Id, newId: Id, start: int, before: Store, store: Store, copied: set<Point>)
    requires oldId != newId && Preserved(oldId, newId, start, before, store)
    requires forall p :: p in copied ==> Key(oldId, p) in store
    requires forall p :: p in copied && Visible(p, start) ==> store[Key(oldId, p)] == before[Key(oldId, p)]
    ensures Preserved(oldId, newId, start, before, Copied(store, oldId, newId, copied))
  {
    CopiedAt(store, oldId, newId, copied);
    hide Copied;
  }

  lemma DeletePreserves(oldId: Id, newId: Id, start: int, before: Store, store: Store, removed: set<Point>)
    requires oldId != newId && Preserved(oldId, newId, start, before, store)
    requires forall p :: p in removed && Visible(p, start) && Key(oldId, p) in store ==>
               Key(newId, p) in store && store[Key(newId, p)] == store[Key(oldId, p)]
    ensures Preserved(oldId, newId, start, before, Without(store, oldId, removed))
  {
  }

  /** The protocol has been followed from `from` to s, which is in the given phase of its current target. */
  ghost predicate Follows(oldId: Id, newId: Id, from: State, s: State, phase: Phase, store: Store, clock: int) {
    && Reaches(oldId, newId, from, s) && WellFormed(s)
    && s.phase == phase && !s.marked && s.clock == clock && s.stores[s.target] == store
  }

  /** One step of the protocol, where it is followed. */
  ghost method Advance(oldId: Id, newId: Id, tracked: bool, from: State, s: State, step: Step) returns (t: State)
    requires tracked ==> Reaches(oldId, newId, from, s) && Enabled(oldId, s, step)
    ensures tracked ==> Reaches(oldId, newId, from, t) && t == Next(oldId, newId, s, step)
  {
    t := s;
    if tracked {
      ReachesNext(oldId, newId, from, s, step);
      t := Next(oldId, newId, s, step);
    }
  }

  ghost method FollowRaise(oldId: Id, newId: Id, tracked: bool, from: State, s: State, phase: Phase, store: Store,
                           clock: int, now: int)
    returns (t: State)
    requires now >= clock && (tracked ==> Follows(oldId, newId, from, s, phase, store, clock) && phase != Idle)
    ensures tracked ==> Reaches(oldId, newId, from, t) && t == s.(phase := Idle, clock := now)
  {
    t := Advance(oldId, newId, tracked, from, s, Tick(now));
    t := Advance(oldId, newId, tracked, from, t, Raise);
  }

  ghost method FollowCount(oldId: Id, newId: Id, tracked: bool, from: State, s: State, store: Store, clock: int,
                           now: int)
    returns (t: State)
    requires now >= clock && (tracked ==> Follows(oldId, newId, from, s, AtCount, store, clock))
    ensures var n := |PointsOf(store, oldId, now)|;
            tracked ==>
              && Reaches(oldId, newId, from, t)
              && t == (if n == 0 then NextTarget(s.(clock := now)) else s.(phase := AtRetag(n), clock := now))
              && (n != 0 ==> Follows(oldId, newId, from, t, AtRetag(n), store, now))
  {
    t := Advance(oldId, newId, tracked, from, s, Tick(now));
    t := Advance(oldId, newId, tracked, from, t, Count);
  }

  ghost method FollowRetag(oldId: Id, newId: Id, tracked: bool, from: State, s: State, original: nat, store: Store,
                           clock: int, now: int, copied: set<Point>, completed: bool) returns (t: State)
    requires tracked ==> Follows(oldId, newId, from, s, AtRetag(original), store, clock)
    requires now >= clock && copied <= PointsOf(store, oldId, now)
    requires completed ==> copied == PointsOf(store, oldId, now)
    ensures var after := Copied(store, oldId, newId, copied);
            var phase := if completed then AtRecount(original, now) else Idle;
            tracked ==>
              && Follows(oldId, newId, from, t, phase, after, now)
              && t == s.(stores := s.stores[s.target := after], phase := phase, clock := now)
  {
    t := Advance(oldId, newId, tracked, from, s, Tick(now));
    t := Advance(oldId, newId, tracked, from, t, Retag(copied, completed));
  }

  ghost method FollowRecount(oldId: Id, newId: Id, tracked: bool, from: State, s: State, original: nat, store: Store,
                             retagClock: int, now: int)
    returns (t: State)
    requires tracked ==> Follows(oldId, newId, from, s, AtRecount(original, retagClock), store, retagClock)
    requires now >= retagClock && |PointsOf(store, newId, now)| >= original
    ensures tracked ==> Follows(oldId, newId, from, t, AtDelete(retagClock), store, now)
    ensures tracked ==> t == s.(phase := AtDelete(retagClock), clock := now)
  {
    t := Advance(oldId, newId, tracked, from, s, Tick(now));
    t := Advance(oldId, newId, tracked, from, t, Recount);
  }

  ghost method FollowDelete(oldId: Id, newId: Id, tracked: bool, from: State, s: State, retagClock: int, store: Store,
                            clock: int, now: int, removed: set<Point>, completed: bool) returns (t: State)
    requires tracked ==> Follows(oldId, newId, from, s, AtDelete(retagClock), store, clock)
    requires now >= clock && removed <= PointsOf(store, oldId, now)
    requires completed ==> removed == PointsOf(store, oldId, now)
    ensures tracked ==>
              var u := s.(stores := s.stores[s.target := Without(store, oldId, removed)], clock := now);
              Reaches(oldId, newId, from, t) && t == if completed then NextTarget(u) else u.(phase := Idle)
  {
    t := Advance(oldId, newId, tracked, from, s, Tick(now));
    t := Advance(oldId, newId, tracked, from, t, Delete(removed, completed));
  }

  /** A re-tag, complete or not, keeps every row; an empty old id stays empty. */
  lemma RetagOutcome(oldId: Id, newId: Id, start: int, before: Store, db: Store, now: int, copied: set<Point>)
    requires oldId != newId && Preserved(oldId, newId, start, before, db) && copied <= PointsOf(db, oldId, now)
    ensures forall p :: p in copied ==> Key(oldId, p) in db
    ensures Preserved(oldId, newId, start, before, Copied(db, oldId, newId, copied))
    ensures Emptied(oldId, start, db) ==> Emptied(oldId, start, Copied(db, oldId, newId, copied))
  {
    RetagPreserves(oldId, newId, start, before, db, copied);
    CopiedAt(db, oldId, newId, copied);
    hide Copied;
  }

  /** A deletion after a complete re-tag, complete or not, keeps every past row under one of the two ids. */
  lemma DeleteOutcome(oldId: Id, newId: Id, start: int, before: Store, db: Store, now: int, late: int,
                      removed: set<Point>)
    requires oldId != newId && start <= now <= late
    requires var tagged := Copied(db, oldId, newId, PointsOf(db, oldId, now));
             && Preserved(oldId, newId, start, before, tagged)
             && removed <= PointsOf(tagged, oldId, late)
    ensures var tagged := Copied(db, oldId, newId, PointsOf(db, oldId, now));
            var after := Without(tagged, oldId, removed);
            && Preserved(oldId, newId, start, before, after)
            && (Emptied(oldId, start, tagged) || removed == PointsOf(tagged, oldId, late) ==>
                  Emptied(oldId, start, after))
  {
    var tagged := Copied(db, oldId, newId, PointsOf(db, oldId, now));
    CopiedAt(db, oldId, newId, PointsOf(db, oldId, now));
    hide Copied;
    forall p | p in removed && Visible(p, start) && Key(oldId, p) in tagged
      ensures Key(newId, p) in tagged && tagged[Key(newId, p)] == tagged[Key(oldId, p)]
    {
      assert p in PointsOf(db, oldId, now);
    }
    DeletePreserves(oldId, newId, start, before, tagged, removed);
    forall p | Visible(p, start) && removed == PointsOf(tagged, oldId, late)
      ensures Key(oldId, p) !in Without(tagged, oldId, removed)
    {
      assert Key(oldId, p) in tagged ==> p in PointsOf(tagged, oldId, late);
    }
  }

  /** Only the last contents, phase and clock of a target matter to what comes after it. */
  lemma LastUpdateCounts(s: State, a: Store, b: Store, phase: Phase, clock: int, now: int)
    requires WellFormed(s)
    ensures var u := s.(stores := s.stores[s.target := a], phase := phase, clock := clock);
            var w := u.(stores := u.stores[u.target := b], clock := now);
            && WellFormed(u)
            && NextTarget(w) == NextTarget(s.(stores := s.stores[s.target := b], clock := now))
            && w.(phase := Idle) == s.(stores := s.stores[s.target := b], phase := Idle, clock := now)
  {
    assert s.stores[s.target := a][s.target := b] == s.stores[s.target := b];
  }

  lemma {:induction false} TurnSucceeds(db: Store, oldId: Id, newId: Id, turn: Turn, original: nat)
    requires oldId != newId && InTurn(turn) && original == RowsCounted(db, oldId, turn) > 0
    ensures var tagged := Copied(db, oldId, newId, PointsOf(db, oldId, turn.retagAt));
            var retagged := |PointsOf(tagged, newId, turn.recountAt)|;
            && retagged >= original && ResultOf(db, oldId, newId, turn) == TargetResult(original, retagged, true)
            && Moved(db, oldId, newId, turn) == Without(tagged, oldId, PointsOf(tagged, oldId, turn.deleteAt))
  {
    CountsAreOfThatMoment(db, oldId, newId, turn);
    hide Copied, PointsOf, Without;
  }

  /** The re-tag and the deletion of one target whose rows have been counted. */
  method RetagAndDelete(oldId: Id, newId: Id, target: Bucket, original: nat, turn: Turn, ghost start: int,
                        ghost before: Store, ghost tracked: bool, ghost from: State, ghost s: State)
    returns (r: Option<TargetResult>, now: int, ghost t: State)
    requires oldId != newId && InTurn(turn) && start <= turn.countAt && turn.raises != Some(CountOld)
    requires original == RowsCounted(target.points, oldId, turn) > 0
    requires Preserved(oldId, newId, start, before, target.points)
    requires tracked ==> WellFormed(s) && Follows(oldId, newId, from, s, AtRetag(original), target.points, turn.countAt)
    modifies target
    ensures turn.countAt <= now <= turn.deleteAt
    ensures r.Some? <==> turn.raises.None?
    ensures r.Some? ==>
              && r.value == ResultOf(old(target.points), oldId, newId, turn)
              && target.points == Moved(old(target.points), oldId, newId, turn)
    ensures Preserved(oldId, newId, start, before, target.points)
    ensures Emptied(oldId, start, old(target.points)) ==> Emptied(oldId, start, target.points)
    ensures r.Some? ==> Emptied(oldId, start, target.points)
    ensures tracked ==> Reaches(oldId, newId, from, t)
    ensures tracked && r.Some? ==> t == NextTarget(s.(stores := s.stores[s.target := target.points], clock := now))
    ensures tracked && r.None? ==>
              t == s.(stores := s.stores[s.target := target.points], phase := Idle, clock := now)
  {
    ghost var db := target.points;
    if tracked { LastUpdateCounts(s, db, db, Idle, turn.countAt, turn.countAt); }
    assert turn.countAt <= turn.retagAt <= turn.recountAt <= turn.deleteAt;
    TurnSucceeds(db, oldId, newId, turn, original);
    hide *;
    var completed, copied := target.RetagPoints(oldId, newId, turn.retagAt, turn.raises == Some(RetagRows));
    RetagOutcome(oldId, newId, start, before, db, turn.retagAt, copied);
    t := FollowRetag(oldId, newId, tracked, from, s, original, db, turn.countAt, turn.retagAt, copied, completed);
    if !completed {
      FollowsReaches(oldId, newId, tracked, from, t, Idle, target.points, turn.retagAt);
      return None, turn.retagAt, t;
    }
    ghost var tagged := target.points;
    var retagged := target.CountPoints(newId, turn.recountAt, turn.raises == Some(CountNew));
    if retagged.None? {
      t := FollowRaise(oldId, newId, tracked, from, t, AtRecount(original, turn.retagAt), tagged, turn.retagAt,
                       turn.recountAt);
      if tracked {
        LastUpdateCounts(s, tagged, tagged, AtRecount(original, turn.retagAt), turn.retagAt, turn.recountAt);
      }
      return None, turn.recountAt, t;
    }
    t := FollowRecount(oldId, newId, tracked, from, t, original, tagged, turn.retagAt, turn.recountAt);
    // A shortfall would be reported without raising; after a completed re-tag there is none.
    if retagged.value >= original {
      var deleted, removed := target.DeleteOldPoints(oldId, turn.deleteAt, turn.raises == Some(DeleteOld));
      DeleteOutcome(oldId, newId, start, before, db, turn.retagAt, turn.deleteAt, removed);
      t := FollowDelete(oldId, newId, tracked, from, t, turn.retagAt, tagged, turn.recountAt, turn.deleteAt, removed,
                        deleted);
      if tracked {
        LastUpdateCounts(s, tagged, target.points, AtDelete(turn.retagAt), turn.recountAt, turn.deleteAt);
      }
      OneOperationRaises(turn);
      return if deleted then Some(TargetResult(original, retagged.value, true)) else None, turn.deleteAt, t;
    } else {
      assert false;
    }
  }

  lemma {:induction false} OneOperationRaises(turn: Turn)
    ensures turn.raises == None || turn.raises == Some(CountOld) || turn.raises == Some(RetagRows)
            || turn.raises == Some(CountNew) || turn.raises == Some(DeleteOld)
  {
    if turn.raises.Some? {
      match turn.raises.value {
        case CountOld =>
        case RetagRows =>
        case CountNew =>
        case DeleteOld =>
      }
    }
  }

  lemma FollowsReaches(oldId: Id, newId: Id, tracked: bool, from: State, s: State, phase: Phase, store: Store,
                       clock: int)
    requires tracked ==> Follows(oldId, newId, from, s, phase, store, clock)
    ensures tracked ==> Reaches(oldId, newId, from, s) && WellFormed(s)
  {
  }

  lemma NoneCountedEmptied(oldId: Id, start: int, clock: int, store: Store)
    requires start <= clock && |PointsOf(store, oldId, clock)| == 0
    ensures Emptied(oldId, start, store)
  {
    forall p | Visible(p, start)
      ensures Key(oldId, p) !in store
    {
      assert Key(oldId, p) in store ==> p in PointsOf(store, oldId, clock);
    }
  }

  /** One target: it fails if and only if an operation that it issues raises. Whatever fails, it is a run of the
      protocol, followed by `s` where `tracked`: to the next target on success, back to idle and unmarked on
      failure. */
  method MigrateTarget(oldId: Id, newId: Id, target: Bucket, clock: int, turn: Turn, ghost start: int,
                       ghost before: Store, ghost tracked: bool, ghost from: State, ghost s: State)
    returns (r: Option<TargetResult>, now: int, ghost t: State)
    requires oldId != newId && start <= clock <= turn.countAt && InTurn(turn)
    requires Preserved(oldId, newId, start, before, target.points)
    requires tracked ==> WellFormed(s) && Follows(oldId, newId, from, s, AtCount, target.points, clock)
    modifies target
    ensures turn.countAt <= now <= turn.deleteAt
    ensures r.None? <==> Fails(turn, RowsCounted(old(target.points), oldId, turn))
    ensures r.Some? ==>
              && r.value == ResultOf(old(target.points), oldId, newId, turn)
              && target.points == Moved(old(target.points), oldId, newId, turn)
    ensures Preserved(oldId, newId, start, before, target.points)
    ensures Emptied(oldId, start, old(target.points)) ==> Emptied(oldId, start, target.points)
    ensures r.Some? ==> Emptied(oldId, start, target.points)
    ensures tracked ==> Reaches(oldId, newId, from, t)
    ensures tracked && r.Some? ==> t == NextTarget(s.(stores := s.stores[s.target := target.points], clock := now))
    ensures tracked && r.None? ==>
              t == s.(stores := s.stores[s.target := target.points], phase := Idle, clock := now)
  {
    ghost var db := target.points;
    if tracked {
      assert s.stores[s.target := target.points] == s.stores;
    }
    TurnFails(db, oldId, newId, turn);
    assert InTurn(turn) ==> turn.countAt <= turn.deleteAt;
    hide *;
    var original := target.CountPoints(oldId, turn.countAt, turn.raises == Some(CountOld));
    if original.None? {
      t := FollowRaise(oldId, newId, tracked, from, s, AtCount, target.points, clock, turn.countAt);
      return None, turn.countAt, t;
    }
    t := FollowCount(oldId, newId, tracked, from, s, target.points, clock, turn.countAt);
    if original.value == 0 {
      NoneCountedEmptied(oldId, start, turn.countAt, target.points);
      return Some(TargetResult(0, 0, false)), turn.countAt, t;
    }
    FollowsReaches(oldId, newId, tracked, from, t, AtRetag(original.value), target.points, turn.countAt);
    ghost var counted := t;
    r, now, t := RetagAndDelete(oldId, newId, target, original.value, turn, start, before, tracked, from, counted);
    if tracked {
      PhaseIsOverwritten(s, AtRetag(original.value), turn.countAt, target.points, now);
    }
  }

  lemma {:induction false} TurnFails(db: Store, oldId: Id, newId: Id, turn: Turn)
    ensures RowsCounted(db, oldId, turn) == |PointsOf(db, oldId, turn.countAt)|
    ensures turn.raises == Some(CountOld) ==> Fails(turn, RowsCounted(db, oldId, turn))
    ensures turn.raises != Some(CountOld) && RowsCounted(db, oldId, turn) == 0 ==>
              && !Fails(turn, RowsCounted(db, oldId, turn))
              && ResultOf(db, oldId, newId, turn) == TargetResult(0, 0, false) && Moved(db, oldId, newId, turn) == db
    ensures turn.raises != Some(CountOld) && RowsCounted(db, oldId, turn) > 0 ==>
              (Fails(turn, RowsCounted(db, oldId, turn)) <==> turn.raises.Some?)
  {
  }

  lemma PhaseIsOverwritten(s: State, phase: Phase, clock: int, store: Store, now: int)
    requires WellFormed(s)
    ensures var u := s.(phase := phase, clock := clock);
            && NextTarget(u.(stores := u.stores[u.target := store], clock := now))
               == NextTarget(s.(stores := s.stores[s.target := store], clock := now))
            && u.(stores := u.stores[u.target := store], phase := Idle, clock := now)
               == s.(stores := s.stores[s.target := store], phase := Idle, clock := now)
  {
  }

  // ---------------------------------------------------------------- all targets

  function Contents(targets: seq<Bucket>): (c: seq<Store>)
    reads targets
    ensures |c| == |targets|
  {
    seq(|targets|, i requires 0 <= i < |targets| reads targets => targets[i].points)
  }

  ghost predicate Distinct(targets: seq<Bucket>) {
    forall i, j :: 0 <= i < j < |targets| ==> targets[i] != targets[j]
  }

  /** The protocol before an attempt: idle, unmarked, nothing overwritten. */
  ghost function AtRest(stores: seq<Store>, clock: int): State {
    State(stores, clock, 0, Idle, false, seq(|stores|, _ => {}))
  }

  /** The protocol has come to target i: the stores are the buckets' contents. */
  ghost predicate ComesTo(oldId: Id, newId: Id, from: State, s: State, i: nat, contents: seq<Store>, clock: int) {
    && Reaches(oldId, newId, from, s) && |s.overwritten| == |s.stores| && s.stores == contents && s.clock == clock
    && i <= |contents|
    && (if i < |contents| then s.target == i && s.phase == AtCount && !s.marked else s.phase == Idle && s.marked)
  }

  lemma ComesToStart(oldId: Id, newId: Id, contents: seq<Store>, clock: int)
    requires contents != []
    ensures ComesTo(oldId, newId, AtRest(contents, clock), AtRest(contents, clock).(phase := AtCount), 0, contents,
                    clock)
  {
    ReachesItself(oldId, newId, AtRest(contents, clock));
    ReachesNext(oldId, newId, AtRest(contents, clock), AtRest(contents, clock), Begin);
    hide Reaches;
  }

  lemma ComesToFollows(oldId: Id, newId: Id, from: State, s: State, i: nat, contents: seq<Store>, clock: int)
    requires ComesTo(oldId, newId, from, s, i, contents, clock) && i < |contents|
    ensures WellFormed(s) && Follows(oldId, newId, from, s, AtCount, contents[i], clock)
  {
    hide Reaches;
  }

  lemma ComesToNext(oldId: Id, newId: Id, from: State, s: State, t: State, i: nat, contents: seq<Store>,
                    store: Store, clock: int, now: int)
    requires ComesTo(oldId, newId, from, s, i, contents, clock) && i < |contents|
    requires Reaches(oldId, newId, from, t)
    requires t == NextTarget(s.(stores := s.stores[s.target := store], clock := now))
    ensures ComesTo(oldId, newId, from, t, i + 1, contents[i := store], now)
  {
    hide Reaches;
  }

  lemma ComesToRest(oldId: Id, newId: Id, from: State, s: State, i: nat, contents: seq<Store>, clock: int)
    requires ComesTo(oldId, newId, from, s, i, contents, clock) && i < |contents|
    ensures s.target == i && s.stores == contents && !s.marked
  {
    hide Reaches;
  }

  lemma ComesToEnd(oldId: Id, newId: Id, from: State, s: State, contents: seq<Store>, clock: int)
    requires ComesTo(oldId, newId, from, s, |contents|, contents, clock)
    ensures Reaches(oldId, newId, from, s) && s.stores == contents && s.phase == Idle && s.marked
  {
    hide Reaches;
  }

  // ---------------------------------------------------------------- the turns of a call

  ghost predicate NothingRaises(turns: seq<Turn>) {
    forall j :: 0 <= j < |turns| ==> turns[j].raises.None?
  }

  /** When the i-th turn may begin. */
  function EndOf(start: int, turns: seq<Turn>, i: nat): int
    requires i <= |turns|
  {
    if i == 0 then start else turns[i - 1].deleteAt
  }

  /** The clock never goes back, within a turn or from one to the next. */
  ghost predicate InOrder(start: int, turns: seq<Turn>) {
    forall i :: 0 <= i < |turns| ==> InTurn(turns[i]) && EndOf(start, turns, i) <= turns[i].countAt
  }

  lemma {:induction false} EndsGrow(start: int, turns: seq<Turn>, i: nat)
    requires InOrder(start, turns) && i <= |turns|
    ensures start <= EndOf(start, turns, i)
    ensures i < |turns| ==> InTurn(turns[i]) && EndOf(start, turns, i) <= turns[i].countAt
    ensures i < |turns| ==> turns[i].countAt <= turns[i].deleteAt == EndOf(start, turns, i + 1)
  {
    if i > 0 {
      EndsGrow(start, turns, i - 1);
    }
  }

  /** No operation that the turn issues raises, when it finds the store like this. */
  ghost predicate Passes(oldId: Id, db: Store, turn: Turn) {
    !Fails(turn, RowsCounted(db, oldId, turn))
  }

  /** How a call ends that found the targets, one after the other, as in `seen`: with the results of all turns if
      none failed, and with an error at the first one that did. */
  ghost predicate EndsAs(oldId: Id, newId: Id, turns: seq<Turn>, seen: seq<Store>, r: Option<seq<TargetResult>>) {
    && |seen| <= |turns|
    && (forall i :: 0 <= i < |seen| && (r.Some? || i < |seen| - 1) ==> Passes(oldId, seen[i], turns[i]))
    && (r.None? ==> seen != [] && !Passes(oldId, seen[|seen| - 1], turns[|seen| - 1]))
    && (r.Some? ==>
          && |r.value| == |seen| == |turns|
          && forall i :: 0 <= i < |turns| ==> r.value[i] == ResultOf(seen[i], oldId, newId, turns[i]))
  }

  /** The turns so far have passed. */
  ghost predicate PassedSoFar(oldId: Id, newId: Id, turns: seq<Turn>, seen: seq<Store>, results: seq<TargetResult>) {
    && |seen| == |results| <= |turns|
    && forall i :: 0 <= i < |seen| ==>
         Passes(oldId, seen[i], turns[i]) && results[i] == ResultOf(seen[i], oldId, newId, turns[i])
  }

  lemma {:induction false} PassedOn(oldId: Id, newId: Id, turns: seq<Turn>, seen: seq<Store>,
                                    results: seq<TargetResult>, db: Store, r: Option<TargetResult>)
    requires PassedSoFar(oldId, newId, turns, seen, results) && |seen| < |turns|
    requires var turn := turns[|seen|];
             && (r.None? <==> !Passes(oldId, db, turn)) && (r.Some? ==> r.value == ResultOf(db, oldId, newId, turn))
    ensures r.None? ==> EndsAs(oldId, newId, turns, seen + [db], None)
    ensures r.Some? ==> PassedSoFar(oldId, newId, turns, seen + [db], results + [r.value])
  {
    hide Passes, ResultOf;
  }

  lemma {:induction false} AllPassed(oldId: Id, newId: Id, turns: seq<Turn>, seen: seq<Store>,
                                     results: seq<TargetResult>)
    requires PassedSoFar(oldId, newId, turns, seen, results) && |seen| == |turns|
    ensures EndsAs(oldId, newId, turns, seen, Some(results))
  {
    hide Passes, ResultOf;
  }

  /** One target out of several. */
  method MigrateAt(oldId: Id, newId: Id, targets: seq<Bucket>, i: nat, clock: int, turn: Turn, ghost start: int,
                   ghost before: Store, ghost tracked: bool, ghost from: State, ghost s: State)
    returns (r: Option<TargetResult>, now: int, ghost t: State)
    requires oldId != newId && start <= clock <= turn.countAt && InTurn(turn) && i < |targets|
    requires Preserved(oldId, newId, start, before, targets[i].points)
    requires tracked ==> Distinct(targets) && ComesTo(oldId, newId, from, s, i, Contents(targets), clock)
    modifies targets[i]
    ensures turn.countAt <= now <= turn.deleteAt
    ensures r.None? <==> !Passes(oldId, old(targets[i].points), turn)
    ensures r.Some? ==>
              && r.value == ResultOf(old(targets[i].points), oldId, newId, turn)
              && targets[i].points == Moved(old(targets[i].points), oldId, newId, turn)
    ensures Preserved(oldId, newId, start, before, targets[i].points)
    ensures Emptied(oldId, start, old(targets[i].points)) ==> Emptied(oldId, start, targets[i].points)
    ensures r.Some? ==> Emptied(oldId, start, targets[i].points)
    ensures tracked && r.Some? ==> ComesTo(oldId, newId, from, t, i + 1, Contents(targets), now)
    ensures tracked && r.None? ==> Reaches(oldId, newId, from, t) && t.stores == Contents(targets)
    ensures tracked && r.None? ==> t.phase == Idle && !t.marked
  {
    ghost var contents := Contents(targets);
    if tracked {
      ComesToFollows(oldId, newId, from, s, i, contents, clock);
      ComesToRest(oldId, newId, from, s, i, contents, clock);
    }
    hide ComesTo, Follows, Reaches, Preserved, Emptied, NextTarget, Fails, RowsCounted, ResultOf, Moved;
    r, now, t := MigrateTarget(oldId, newId, targets[i], clock, turn, start, before, tracked, from, s);
    if tracked {
      assert Contents(targets) == contents[i := targets[i].points];
      if r.Some? { ComesToNext(oldId, newId, from, s, t, i, contents, targets[i].points, clock, now); }
    }
  }

  lemma PreservedItself(oldId: Id, newId: Id, start: int, store: Store)
    ensures Preserved(oldId, newId, start, store, store)
  {
  }

  method MigrateTargets(oldId: Id, newId: Id, targets: seq<Bucket>, clock: int, turns: seq<Turn>, ghost tracked: bool,
                        ghost from: State, ghost s: State)
    returns (r: Option<seq<TargetResult>>, ghost seen: seq<Store>, ghost t: State)
    requires oldId != newId && |turns| == |targets| && InOrder(clock, turns)
    requires tracked ==> Distinct(targets) && ComesTo(oldId, newId, from, s, 0, Contents(targets), clock)
    modifies targets
    ensures EndsAs(oldId, newId, turns, seen, r)
    ensures Distinct(targets) ==> forall i :: 0 <= i < |seen| ==> seen[i] == old(targets[i].points)
    ensures Distinct(targets) && r.Some? ==> forall i :: 0 <= i < |targets| ==>
              targets[i].points == Moved(old(targets[i].points), oldId, newId, turns[i])
    ensures forall b :: b in targets ==> Preserved(oldId, newId, clock, old(b.points), b.points)
    ensures r.Some? ==> forall b :: b in targets ==> Emptied(oldId, clock, b.points)
    ensures tracked ==> Reaches(oldId, newId, from, t) && t.stores == Contents(targets) && t.phase == Idle
    ensures tracked ==> (t.marked <==> r.Some?)
  {
    hide EndOf, InOrder, InTurn, Passes, EndsAs, Preserved, Emptied, ComesTo, Reaches, Moved, ResultOf;
    var results: seq<TargetResult> := [];
    var now := clock;
    seen, t := [], s;
    forall b | b in targets
      ensures Preserved(oldId, newId, clock, b.points, b.points)
    {
      PreservedItself(oldId, newId, clock, b.points);
    }
    EndsGrow(clock, turns, 0);
    assert PassedSoFar(oldId, newId, turns, seen, results);
    hide PassedSoFar;
    for i := 0 to |targets|
      invariant |results| == |seen| == i && clock <= now <= EndOf(clock, turns, i)
      invariant PassedSoFar(oldId, newId, turns, seen, results)
      invariant Distinct(targets) ==> forall j :: 0 <= j < i ==>
                  && seen[j] == old(targets[j].points)
                  && targets[j].points == Moved(old(targets[j].points), oldId, newId, turns[j])
      invariant Distinct(targets) ==> forall j :: i <= j < |targets| ==> targets[j].points == old(targets[j].points)
      invariant forall b :: b in targets ==> Preserved(oldId, newId, clock, old(b.points), b.points)
      invariant forall j :: 0 <= j < i ==> Emptied(oldId, clock, targets[j].points)
      invariant tracked ==> ComesTo(oldId, newId, from, t, i, Contents(targets), now)
    {
      EndsGrow(clock, turns, i);
      var result;
      ghost var db := targets[i].points;
      result, now, t := MigrateAt(oldId, newId, targets, i, now, turns[i], clock, old(targets[i].points), tracked,
                                  from, t);
      PassedOn(oldId, newId, turns, seen, results, db, result);
      seen := seen + [db];
      if result.None? {
        return None, seen, t;
      }
      results := results + [result.value];
    }
    AllPassed(oldId, newId, turns, seen, results);
    if tracked { ComesToEnd(oldId, newId, from, t, Contents(targets), now); }
    r := Some(results);
  }

  /** The past row of the old id is under the new one, with its value, and no longer under the old one. */
  ghost predicate HasMoved(oldId: Id, newId: Id, before: Store, after: Store, p: Point) {
    Key(oldId, p) in before ==>
      Key(oldId, p) !in after && Key(newId, p) in after && after[Key(newId, p)] == before[Key(oldId, p)]
  }

  lemma {:induction false} EmptiedMeansMoved(oldId: Id, newId: Id, start: int, before: Store, after: Store)
    requires Preserved(oldId, newId, start, before, after) && Emptied(oldId, start, after)
    ensures forall p :: Visible(p, start) ==> HasMoved(oldId, newId, before, after, p)
  {
    forall p | Visible(p, start)
      ensures HasMoved(oldId, newId, before, after, p)
    {
      if Key(oldId, p) in before {
        assert RowSafe(oldId, newId, before, after, {}, p);
      }
    }
  }

  /** Re-tags and deletes on every target in turn; the first failure raises and leaves the rest alone. The call
      succeeds if and only if no operation that it issues raises, and then every past row has moved, with its
      value, and the results count the rows of their moment. On distinct targets the whole call is a run of the
      protocol that ends idle, and marked on success only. */
  method MigrateSegmentTimeseries(oldId: Id, newId: Id, targets: seq<Bucket>, clock: int, turns: seq<Turn>)
    returns (r: Result<seq<TargetResult>, MigrationError>, ghost seen: seq<Store>, ghost t: State)
    requires |turns| == |targets| && InOrder(clock, turns)
    modifies targets
    ensures oldId == newId <==> r == Err(SameIds)
    ensures oldId != newId ==> (targets == [] <==> r == Err(NoTargets))
    ensures oldId == newId || targets == [] ==> forall b :: b in targets ==> b.points == old(b.points)
    ensures oldId != newId && targets != [] ==>
              EndsAs(oldId, newId, turns, seen, if r.Ok? then Some(r.value) else None)
    ensures oldId != newId && targets != [] && NothingRaises(turns) ==> r.Ok?
    ensures oldId != newId && targets != [] && Distinct(targets) ==>
              && (r.Ok? <==> forall i :: 0 <= i < |targets| ==> Passes(oldId, old(targets[i].points), turns[i]))
              && (r.Ok? ==> forall i :: 0 <= i < |targets| ==>
                    && r.value[i] == ResultOf(old(targets[i].points), oldId, newId, turns[i])
                    && targets[i].points == Moved(old(targets[i].points), oldId, newId, turns[i]))
    ensures oldId != newId ==> forall b :: b in targets ==> Preserved(oldId, newId, clock, old(b.points), b.points)
    ensures r.Ok? ==> forall b :: b in targets ==> Emptied(oldId, clock, b.points)
    ensures r.Ok? ==> forall b, p :: b in targets && Visible(p, clock) ==>
                        HasMoved(oldId, newId, old(b.points), b.points, p)
    ensures oldId != newId && targets != [] && Distinct(targets) ==>
              && Reaches(oldId, newId, AtRest(old(Contents(targets)), clock), t)
              && t.stores == Contents(targets) && t.phase == Idle && (t.marked <==> r.Ok?)
  {
    seen, t := [], AtRest([], clock);
    if oldId == newId {
      return Err(SameIds), seen, t;
    }
    if targets == [] {
      return Err(NoTargets), seen, t;
    }
    ghost var from := AtRest(Contents(targets), clock);
    ComesToStart(oldId, newId, Contents(targets), clock);
    ghost var tracked := Distinct(targets);
    hide *;
    var results;
    results, seen, t := MigrateTargets(oldId, newId, targets, clock, turns, tracked, from, from.(phase := AtCount));
    EndsIff(oldId, newId, turns, seen, results);
    if results.Some? {
      forall b | b in targets
        ensures forall p :: Visible(p, clock) ==> HasMoved(oldId, newId, old(b.points), b.points, p)
      {
        EmptiedMeansMoved(oldId, newId, clock, old(b.points), b.points);
      }
    }
    r := if results.None? then Err(StoreFailed) else Ok(results.value);
  }

  lemma {:induction false} EndsIff(oldId: Id, newId: Id, turns: seq<Turn>, seen: seq<Store>,
                                       r: Option<seq<TargetResult>>)
    requires EndsAs(oldId, newId, turns, seen, r)
    ensures |seen| <= |turns|
    ensures NothingRaises(turns) ==> r.Some?
    ensures r.Some? ==> |seen| == |r.value| == |turns|
    ensures r.Some? ==> forall i :: 0 <= i < |turns| ==> r.value[i] == ResultOf(seen[i], oldId, newId, turns[i])
    ensures r.Some? ==> forall i :: 0 <= i < |turns| ==> Passes(oldId, seen[i], turns[i])
    ensures r.None? ==> exists i :: 0 <= i < |seen| && !Passes(oldId, seen[i], turns[i])
  {
  }

  // ---------------------------------------------------------------- pending migrations

  function Marked(r: Record, clock: int): Record {
    r.(timeseriesMigratedAt := Some(Instant(clock)))
  }

  /** What the environment makes of one record: the turns of its migration and when a success is marked. */
  datatype Schedule = Schedule(turns: seq<Turn>, markedAt: int)

  function StartOf(clock: int, schedules: seq<Schedule>, i: nat): int
    requires i <= |schedules|
  {
    if i == 0 then clock else schedules[i - 1].markedAt
  }

  /** The clock runs on from record to record. */
  ghost predicate Scheduled(clock: int, schedules: seq<Schedule>, targets: nat) {
    forall i :: 0 <= i < |schedules| ==>
      && |schedules[i].turns| == targets && InOrder(StartOf(clock, schedules, i), schedules[i].turns)
      && EndOf(StartOf(clock, schedules, i), schedules[i].turns, targets) <= schedules[i].markedAt
  }

  lemma {:induction false} StartsGrow(clock: int, schedules: seq<Schedule>, targets: nat, i: nat)
    requires Scheduled(clock, schedules, targets) && i <= |schedules|
    ensures clock <= StartOf(clock, schedules, i)
    ensures i < |schedules| ==>
              |schedules[i].turns| == targets && InOrder(StartOf(clock, schedules, i), schedules[i].turns)
  {
    hide InOrder, EndOf;
    if i > 0 {
      StartsGrow(clock, schedules, targets, i - 1);
      EndsGrow(StartOf(clock, schedules, i - 1), schedules[i - 1].turns, targets);
    }
  }

  /** Migrated exactly if pending, not its own source, and no operation of its turns raises on the contents. */
  ghost predicate MigratedExactly(changelog: Book, id: Id, migrated: bool, turns: seq<Turn>, contents: seq<Store>)
    requires |turns| == |contents|
  {
    migrated <==>
      && Attempted(changelog, id)
      && forall j :: 0 <= j < |turns| ==> Passes(changelog[id].geoInheritedFrom.value, contents[j], turns[j])
  }

  /** Exactly the records migrated in the pass carry a marker now, with the time of their own success. */
  ghost predicate MarkedExactly(changelog: Book, c: Book, order: seq<Id>, migrated: seq<bool>, clocks: seq<int>) {
    && c.Keys == changelog.Keys && |migrated| == |clocks| <= |order|
    && (forall i :: 0 <= i < |migrated| && migrated[i] ==> Attempted(changelog, order[i]))
    && (forall i :: 0 <= i < |order| && order[i] in changelog ==>
          var was := changelog[order[i]];
          c[order[i]] == if i < |migrated| && migrated[i] then Marked(was, clocks[i]) else was)
  }

  lemma MarkStep(changelog: Book, c: Book, order: seq<Id>, migrated: seq<bool>, clocks: seq<int>, m: bool, now: int)
    requires MarkedExactly(changelog, c, order, migrated, clocks) && EachOnce(order) && |migrated| < |order|
    requires var id := order[|migrated|]; id in changelog && (m ==> Attempted(changelog, id))
    ensures var id := order[|migrated|];
            var next := if m then c[id := Marked(changelog[id], now)] else c;
            MarkedExactly(changelog, next, order, migrated + [m], clocks + [now])
  {
    hide Attempted;
  }

  lemma PassExtends(changelog: Book, order: seq<Id>, i: nat, migrated: seq<bool>, m: bool, clock: int,
                    stores: seq<Store>, after: Store)
    requires i < |order| && IsPass(changelog, order[..i], migrated, clock, stores)
    requires Attempt(changelog, order[i], m, clock, stores[i], after)
    ensures IsPass(changelog, order[..i + 1], migrated + [m], clock, stores + [after])
  {
    var longer, more, all := order[..i + 1], migrated + [m], stores + [after];
    hide Attempt;
    forall j | 0 <= j < |longer|
      ensures Attempt(changelog, longer[j], more[j], clock, all[j], all[j + 1])
    {
      if j < i {
        assert longer[j] == order[..i][j];
        assert Attempt(changelog, order[..i][j], migrated[j], clock, stores[j], stores[j + 1]);
      }
    }
  }

  /** A pass over the first i records that leads one target from its first to its last contents. */
  ghost predicate Trail(changelog: Book, order: seq<Id>, i: nat, migrated: seq<bool>, clock: int,
                        first: Store, last: Store, stores: seq<Store>)
  {
    i <= |order| && IsPass(changelog, order[..i], migrated, clock, stores) && stores[0] == first && stores[i] == last
  }

  lemma TrailStarts(changelog: Book, order: seq<Id>, clock: int, store: Store)
    ensures Trail(changelog, order, 0, [], clock, store, store, [store])
  {
  }

  lemma TrailExtends(changelog: Book, order: seq<Id>, i: nat, migrated: seq<bool>, m: bool, clock: int,
                     first: Store, last: Store, stores: seq<Store>, after: Store)
    requires i < |order| && Trail(changelog, order, i, migrated, clock, first, last, stores)
    requires Attempt(changelog, order[i], m, clock, last, after)
    ensures Trail(changelog, order, i + 1, migrated + [m], clock, first, after, stores + [after])
  {
    PassExtends(changelog, order, i, migrated, m, clock, stores, after);
    hide Attempt;
  }

  lemma TrailEnds(changelog: Book, order: seq<Id>, migrated: seq<bool>, clock: int, first: Store, last: Store,
                  stores: seq<Store>)
    requires Trail(changelog, order, |order|, migrated, clock, first, last, stores)
    ensures |stores| == |order| + 1 && IsPass(changelog, order, migrated, clock, stores)
    ensures stores[0] == first && stores[|order|] == last
    ensures RowsTraced(changelog, order, |order|, clock, first, last)
  {
    assert order[..|order|] == order;
    PassTracesRows(changelog, order, migrated, clock, stores, |order|);
    hide Attempt;
  }

  lemma MarkStarts(changelog: Book, order: seq<Id>)
    requires Lists(order, changelog.Keys)
    ensures MarkedExactly(changelog, changelog, order, [], [])
    ensures forall i :: 0 <= i < |order| ==> order[i] in changelog
  {
  }

  /** One record, whose turn comes at `clock` in a pass that began at `start`: the attempt on every target, if
      the record is pending. */
  method TryMigration(changelog: Book, id: Id, targets: seq<Bucket>, ghost start: int, clock: int, turns: seq<Turn>)
    returns (migrated: bool)
    requires targets != [] && id in changelog && start <= clock && |turns| == |targets| && InOrder(clock, turns)
    modifies targets
    ensures forall b :: b in targets ==> Attempt(changelog, id, migrated, start, old(b.points), b.points)
    ensures migrated ==> Attempted(changelog, id)
    ensures NothingRaises(turns) ==> (migrated <==> Attempted(changelog, id))
    ensures Distinct(targets) ==> MigratedExactly(changelog, id, migrated, turns, old(Contents(targets)))
  {
    if !Pending(changelog[id]) {
      return false;
    }
    var source := changelog[id].geoInheritedFrom.value;
    ghost var contents := Contents(targets);
    var r;
    ghost var seen, t;
    hide InOrder, Passes, EndsAs, ResultOf, Moved, HasMoved, Preserved, Emptied, Reaches, AtRest;
    r, seen, t := MigrateSegmentTimeseries(source, id, targets, clock, turns);
    migrated := r.Ok?;
    forall b | b in targets {
      EarlierPast(source, id, start, clock, old(b.points), b.points);
    }
  }

  /** Tries every pending migration. A record is marked, with the time of its success, if and only if it is
      pending, does not name itself, and none of the store operations of its turns raises; any other is left for
      the next cycle. On every target the pass is a sequence of attempts, one a record; no past row of any
      segment disappears: it stays, or moves along the inheritances tried. */
  method RunPendingMigrations(changelog: Book, order: seq<Id>, targets: seq<Bucket>, clock: int,
                              schedules: seq<Schedule>)
    returns (c: Book, ghost migrated: seq<bool>, ghost trails: map<Bucket, seq<Store>>)
    requires targets != [] && Lists(order, changelog.Keys) && EachOnce(order)
    requires |schedules| == |order| && Scheduled(clock, schedules, |targets|)
    modifies targets
    ensures |migrated| == |order| && c.Keys == changelog.Keys
    ensures forall i :: 0 <= i < |order| ==>
              && order[i] in changelog
              && var was := changelog[order[i]];
                 c[order[i]] == if migrated[i] then was.(timeseriesMigratedAt := Some(Instant(schedules[i].markedAt)))
                                else was
    ensures forall b :: b in targets ==>
              && b in trails && |trails[b]| == |order| + 1 && IsPass(changelog, order, migrated, clock, trails[b])
              && trails[b][0] == old(b.points) && trails[b][|order|] == b.points
    ensures forall i :: 0 <= i < |order| && NothingRaises(schedules[i].turns) ==>
              var was := changelog[order[i]];
              migrated[i] <==> was.geoInheritedFrom.Some? && was.geoInheritedFrom != Some(order[i])
                               && was.timeseriesMigratedAt.None?
    ensures Distinct(targets) ==> forall i :: 0 <= i < |order| ==>
              MigratedExactly(changelog, order[i], migrated[i], schedules[i].turns, SeenAt(targets, trails, i))
    ensures forall b :: b in targets ==> RowsTraced(changelog, order, |order|, clock, old(b.points), b.points)
  {
    c, migrated := changelog, [];
    trails := map b | b in targets :: [b.points];
    ghost var seen: seq<seq<Store>>, firsts := [], Now(targets);
    MarkStarts(changelog, order);
    SoFarStarts(changelog, order, schedules, targets, trails);
    forall b | b in targets
      ensures Trail(changelog, order, 0, [], clock, firsts[b], b.points, trails[b])
    {
      TrailStarts(changelog, order, clock, b.points);
    }
    hide Trail, MarkedExactly, SeenAlong, MigratedSoFar, Marks, Lists, EachOnce, Scheduled;
    assert PassState(changelog, order, targets, clock, schedules, 0, c, migrated, trails, seen, firsts, Now(targets));
    hide *;
    for i := 0 to |order|
      invariant PassState(changelog, order, targets, clock, schedules, i, c, migrated, trails, seen, firsts,
                          Now(targets))
    {
      c, migrated, trails, seen :=
        PassOn(changelog, order, targets, clock, schedules, i, c, migrated, trails, seen, firsts);
    }
    PassEnds(changelog, order, targets, clock, schedules, c, migrated, trails, seen, firsts);
    MarkersMean(changelog, c, order, migrated, schedules);
  }

  lemma {:induction false} MarkersMean(changelog: Book, c: Book, order: seq<Id>, migrated: seq<bool>,
                                       schedules: seq<Schedule>)
    requires Lists(order, changelog.Keys) && |schedules| == |migrated| == |order|
    requires MarkedExactly(changelog, c, order, migrated, Marks(schedules, |order|))
    ensures c.Keys == changelog.Keys
    ensures forall i :: 0 <= i < |order| ==>
              && order[i] in changelog
              && var was := changelog[order[i]];
                 c[order[i]] == if migrated[i] then was.(timeseriesMigratedAt := Some(Instant(schedules[i].markedAt)))
                                else was
    ensures forall i :: 0 <= i < |order| ==>
              var was := changelog[order[i]];
              Attempted(changelog, order[i])
              <==> was.geoInheritedFrom.Some? && was.geoInheritedFrom != Some(order[i])
                   && was.timeseriesMigratedAt.None?
  {
  }

  function Now(targets: seq<Bucket>): (m: map<Bucket, Store>)
    reads targets
    ensures m.Keys == (set b | b in targets) && forall b :: b in targets ==> m[b] == b.points
  {
    map b | b in targets :: b.points
  }

  /** The pass after i records; `firsts` are the contents it began with and `lasts` those it has come to. */
  ghost predicate PassState(changelog: Book, order: seq<Id>, targets: seq<Bucket>, clock: int,
                            schedules: seq<Schedule>, i: nat, c: Book, migrated: seq<bool>,
                            trails: map<Bucket, seq<Store>>, seen: seq<seq<Store>>, firsts: map<Bucket, Store>,
                            lasts: map<Bucket, Store>)
  {
    && i <= |schedules| && |migrated| == |seen| == i
    && MarkedExactly(changelog, c, order, migrated, Marks(schedules, i))
    && (forall b :: b in targets ==>
          && b in trails && b in firsts && b in lasts
          && Trail(changelog, order, i, migrated, clock, firsts[b], lasts[b], trails[b]))
    && SeenAlong(targets, trails, seen)
    && MigratedSoFar(changelog, order, migrated, schedules, seen, Distinct(targets))
  }

  lemma {:induction false} PassStep(changelog: Book, order: seq<Id>, targets: seq<Bucket>, clock: int,
                                    schedules: seq<Schedule>, i: nat, c: Book, migrated: seq<bool>,
                                    trails: map<Bucket, seq<Store>>, seen: seq<seq<Store>>,
                                    firsts: map<Bucket, Store>, lasts: map<Bucket, Store>, m: bool,
                                    contents: seq<Store>, next: map<Bucket, Store>)
    returns (c': Book, trails': map<Bucket, seq<Store>>)
    requires i < |order| == |schedules| && EachOnce(order)
    requires PassState(changelog, order, targets, clock, schedules, i, c, migrated, trails, seen, firsts, lasts)
    requires order[i] in changelog && |schedules[i].turns| == |targets| == |contents|
    requires forall b :: b in targets ==> b in next && Attempt(changelog, order[i], m, clock, lasts[b], next[b])
    requires forall j :: 0 <= j < |targets| ==> contents[j] == lasts[targets[j]]
    requires (m ==> Attempted(changelog, order[i]))
             && (NothingRaises(schedules[i].turns) ==> (m <==> Attempted(changelog, order[i])))
    requires Distinct(targets) ==> MigratedExactly(changelog, order[i], m, schedules[i].turns, contents)
    ensures c' == if m then c[order[i] := Marked(changelog[order[i]], schedules[i].markedAt)] else c
    ensures PassState(changelog, order, targets, clock, schedules, i + 1, c', migrated + [m], trails',
                      seen + [contents], firsts, next)
  {
    hide MarkedExactly, MigratedExactly, Attempt, Attempted, Trail, Marks, Distinct, SeenAlong, MigratedSoFar, EachOnce,
         NothingRaises;
    MarkStep(changelog, c, order, migrated, Marks(schedules, i), m, schedules[i].markedAt);
    MarksStep(schedules, i);
    c' := if m then c[order[i] := Marked(changelog[order[i]], schedules[i].markedAt)] else c;
    trails' := map b | b in targets :: trails[b] + [next[b]];
    forall b | b in targets
      ensures |trails[b]| == i + 1 && trails[b][i] == lasts[b]
      ensures Trail(changelog, order, i + 1, migrated + [m], clock, firsts[b], next[b], trails'[b])
    {
      TrailNow(changelog, order, i, migrated, clock, firsts[b], lasts[b], trails[b]);
      TrailExtends(changelog, order, i, migrated, m, clock, firsts[b], lasts[b], trails[b], next[b]);
    }
    SeenOn(targets, trails, seen, contents, trails');
    MigratedOn(changelog, order, migrated, schedules, seen, Distinct(targets), m, contents);
  }

  /** The next record of the pass. */
  method PassOn(changelog: Book, order: seq<Id>, targets: seq<Bucket>, clock: int, schedules: seq<Schedule>, i: nat,
                c: Book, ghost migrated: seq<bool>, ghost trails: map<Bucket, seq<Store>>,
                ghost seen: seq<seq<Store>>, ghost firsts: map<Bucket, Store>)
    returns (c': Book, ghost migrated': seq<bool>, ghost trails': map<Bucket, seq<Store>>,
             ghost seen': seq<seq<Store>>)
    requires targets != [] && i < |order| == |schedules| && EachOnce(order) && Scheduled(clock, schedules, |targets|)
    requires order[i] in changelog
    requires PassState(changelog, order, targets, clock, schedules, i, c, migrated, trails, seen, firsts, Now(targets))
    modifies targets
    ensures PassState(changelog, order, targets, clock, schedules, i + 1, c', migrated', trails', seen', firsts,
                      Now(targets))
  {
    StartsGrow(clock, schedules, |targets|, i);
    ContentsAre(targets);
    ghost var lasts, contents := Now(targets), Contents(targets);
    hide *;
    var m := TryMigration(changelog, order[i], targets, clock, StartOf(clock, schedules, i), schedules[i].turns);
    c' := if m then c[order[i] := Marked(changelog[order[i]], schedules[i].markedAt)] else c;
    ghost var next;
    next, trails' := PassStep(changelog, order, targets, clock, schedules, i, c, migrated, trails, seen, firsts, lasts,
                              m, contents, Now(targets));
    migrated', seen' := migrated + [m], seen + [contents];
  }

  lemma {:induction false} PassEnds(changelog: Book, order: seq<Id>, targets: seq<Bucket>, clock: int,
                                    schedules: seq<Schedule>, c: Book, migrated: seq<bool>,
                                    trails: map<Bucket, seq<Store>>, seen: seq<seq<Store>>,
                                    firsts: map<Bucket, Store>)
    requires |order| == |schedules|
    requires PassState(changelog, order, targets, clock, schedules, |order|, c, migrated, trails, seen, firsts,
                       Now(targets))
    ensures |migrated| == |order| && MarkedExactly(changelog, c, order, migrated, Marks(schedules, |order|))
    ensures forall b :: b in targets ==>
              && b in trails && b in firsts
              && |trails[b]| == |order| + 1 && IsPass(changelog, order, migrated, clock, trails[b])
              && trails[b][0] == firsts[b] && trails[b][|order|] == b.points
              && RowsTraced(changelog, order, |order|, clock, firsts[b], b.points)
    ensures forall i :: 0 <= i < |order| ==> |schedules[i].turns| == |targets|
    ensures forall i :: 0 <= i < |order| && NothingRaises(schedules[i].turns) ==>
              (migrated[i] <==> Attempted(changelog, order[i]))
    ensures Distinct(targets) ==> forall i :: 0 <= i < |order| ==>
              MigratedExactly(changelog, order[i], migrated[i], schedules[i].turns, SeenAt(targets, trails, i))
  {
    hide MarkedExactly, MigratedExactly, NothingRaises, Attempted, Trail, IsPass, RowsTraced, SeenAlong, MigratedSoFar,
         Distinct, Marks;
    forall b | b in targets
      ensures |trails[b]| == |order| + 1 && IsPass(changelog, order, migrated, clock, trails[b])
      ensures trails[b][0] == firsts[b] && trails[b][|order|] == b.points
      ensures RowsTraced(changelog, order, |order|, clock, firsts[b], b.points)
    {
      TrailEnds(changelog, order, migrated, clock, firsts[b], b.points, trails[b]);
    }
    MigratedInTheEnd(changelog, order, migrated, schedules, seen, Distinct(targets), targets, trails);
  }

  /** `seen` holds the contents of the targets before each record so far, as the trails do. */
  ghost predicate SeenAlong(targets: seq<Bucket>, trails: map<Bucket, seq<Store>>, seen: seq<seq<Store>>) {
    && (forall b :: b in targets ==> b in trails && |trails[b]| == |seen| + 1)
    && forall k :: 0 <= k < |seen| ==>
         |seen[k]| == |targets| && forall j :: 0 <= j < |targets| ==> seen[k][j] == trails[targets[j]][k]
  }

  lemma {:induction false} SeenOn(targets: seq<Bucket>, trails: map<Bucket, seq<Store>>, seen: seq<seq<Store>>,
                                  contents: seq<Store>, longer: map<Bucket, seq<Store>>)
    requires SeenAlong(targets, trails, seen) && |contents| == |targets|
    requires forall b :: b in targets ==> b in longer && |longer[b]| == |seen| + 2 && trails[b] <= longer[b]
    requires forall j :: 0 <= j < |targets| ==> contents[j] == trails[targets[j]][|seen|]
    ensures SeenAlong(targets, longer, seen + [contents])
  {
  }

  ghost predicate MigratedSoFar(changelog: Book, order: seq<Id>, migrated: seq<bool>, schedules: seq<Schedule>,
                                seen: seq<seq<Store>>, distinct: bool)
  {
    && |migrated| == |seen| <= |order| == |schedules|
    && forall k :: 0 <= k < |seen| ==>
         && |seen[k]| == |schedules[k].turns|
         && (NothingRaises(schedules[k].turns) ==> (migrated[k] <==> Attempted(changelog, order[k])))
         && (distinct ==> MigratedExactly(changelog, order[k], migrated[k], schedules[k].turns, seen[k]))
  }

  lemma {:induction false} SoFarStarts(changelog: Book, order: seq<Id>, schedules: seq<Schedule>, targets: seq<Bucket>,
                                       trails: map<Bucket, seq<Store>>)
    requires |schedules| == |order| && forall b :: b in targets ==> b in trails && |trails[b]| == 1
    ensures SeenAlong(targets, trails, []) && Marks(schedules, 0) == []
    ensures forall distinct :: MigratedSoFar(changelog, order, [], schedules, [], distinct)
  {
  }

  lemma {:induction false} MigratedOn(changelog: Book, order: seq<Id>, migrated: seq<bool>, schedules: seq<Schedule>,
                                      seen: seq<seq<Store>>, distinct: bool, m: bool, contents: seq<Store>)
    requires MigratedSoFar(changelog, order, migrated, schedules, seen, distinct) && |seen| < |order|
    requires var i := |seen|;
             && |contents| == |schedules[i].turns|
             && (NothingRaises(schedules[i].turns) ==> (m <==> Attempted(changelog, order[i])))
             && (distinct ==> MigratedExactly(changelog, order[i], m, schedules[i].turns, contents))
    ensures MigratedSoFar(changelog, order, migrated + [m], schedules, seen + [contents], distinct)
  {
    hide MigratedExactly, NothingRaises, Attempted;
  }

  lemma {:induction false} MigratedInTheEnd(changelog: Book, order: seq<Id>, migrated: seq<bool>,
                                            schedules: seq<Schedule>, seen: seq<seq<Store>>, distinct: bool,
                                            targets: seq<Bucket>, trails: map<Bucket, seq<Store>>)
    requires MigratedSoFar(changelog, order, migrated, schedules, seen, distinct) && |seen| == |order|
    requires SeenAlong(targets, trails, seen)
    ensures forall i :: 0 <= i < |order| ==> |schedules[i].turns| == |targets|
    ensures forall i :: 0 <= i < |order| && NothingRaises(schedules[i].turns) ==>
              (migrated[i] <==> Attempted(changelog, order[i]))
    ensures distinct ==> forall i :: 0 <= i < |order| ==>
              MigratedExactly(changelog, order[i], migrated[i], schedules[i].turns, SeenAt(targets, trails, i))
  {
    hide MigratedExactly, NothingRaises, Attempted;
    forall i | 0 <= i < |order|
      ensures SeenAt(targets, trails, i) == seen[i]
    {
    }
  }

  lemma {:induction false} ContentsAre(targets: seq<Bucket>)
    ensures forall j :: 0 <= j < |targets| ==> Contents(targets)[j] == targets[j].points
  {
  }

  /** The contents of the targets before the i-th record, along their trails. */
  ghost function SeenAt(targets: seq<Bucket>, trails: map<Bucket, seq<Store>>, i: nat): (s: seq<Store>)
    requires forall b :: b in targets ==> b in trails && i < |trails[b]|
    ensures |s| == |targets|
  {
    seq(|targets|, j requires 0 <= j < |targets| => trails[targets[j]][i])
  }

  /** The times at which the first n records are marked if they are. */
  function Marks(schedules: seq<Schedule>, n: nat): (m: seq<int>)
    requires n <= |schedules|
    ensures |m| == n
  {
    seq(n, i requires 0 <= i < n => schedules[i].markedAt)
  }

  lemma {:induction false} MarksStep(schedules: seq<Schedule>, n: nat)
    requires n < |schedules|
    ensures Marks(schedules, n + 1) == Marks(schedules, n) + [schedules[n].markedAt]
  {
  }

  lemma {:induction false} TrailNow(changelog: Book, order: seq<Id>, i: nat, migrated: seq<bool>, clock: int,
                                    first: Store, last: Store, stores: seq<Store>)
    requires Trail(changelog, order, i, migrated, clock, first, last, stores)
    ensures |stores| == i + 1 && stores[i] == last
  {
  }
}
