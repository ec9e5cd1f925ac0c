/**
 The migration of one retired segment to its replacement as a protocol: every store operation is one
 step that completes or raises after a partial effect, other writers interleave, and an attempt that
 raised is repeated in a later cycle until the marker is set.
 */
module MigrationProtocol {
  import opened Changelog
  import opened SegmentStore

  datatype Phase =
    | Idle
    | AtCount
    | AtRetag(original: nat)
    | AtRecount(original: nat, retagClock: int)
    | AtDelete(retagClock: int)

  /** stores: one per target; target: the one being migrated; marked: timeseries_migrated_at is set;
      overwritten: per target, the points other writers have written under the new id. */
  datatype State = State(stores: seq<Store>, clock: int, target: nat, phase: Phase, marked: bool,
                         overwritten: seq<set<Point>>)

  datatype Step =
    | Begin
    | Count
    | Retag(copied: set<Point>, completes: bool)
    | Recount
    | Delete(removed: set<Point>, completes: bool)
    | Raise
    | Write(store: nat, writes: Store)
    | Tick(clock: int)

  function NextTarget(s: State): State {
    if s.target + 1 == |s.stores| then s.(phase := Idle, target := 0, marked := true)
    else s.(phase := AtCount, target := s.target + 1)
  }

  ghost predicate WellFormed(s: State) {
    && |s.stores| > 0 && |s.overwritten| == |s.stores|
    && s.target < |s.stores|
  }

  /** Points under the new id that a batch of writes touches. */
  function Touched(writes: Store, newId: Id): set<Point> {
    set k | k in writes && k.segment == newId :: k.point
  }

  ghost predicate Enabled(oldId: Id, s: State, step: Step) {
    WellFormed(s) &&
    match step
    case Begin => s.phase.Idle? && !s.marked
    case Count => s.phase.AtCount?
    case Retag(copied, completes) =>
      s.phase.AtRetag? && copied <= PointsOf(s.stores[s.target], oldId, s.clock)
      && (completes ==> copied == PointsOf(s.stores[s.target], oldId, s.clock))
    case Recount => s.phase.AtRecount?
    case Delete(removed, completes) =>
      s.phase.AtDelete? && removed <= PointsOf(s.stores[s.target], oldId, s.clock)
      && (completes ==> removed == PointsOf(s.stores[s.target], oldId, s.clock))
    case Raise => !s.phase.Idle?
    case Write(store, writes) => store < |s.stores| && forall k :: k in writes ==> k.segment != oldId
    case Tick(clock) => clock >= s.clock
  }

  ghost function Next(oldId: Id, newId: Id, s: State, step: Step): State
    requires Enabled(oldId, s, step)
  {
    match step
    case Begin => s.(phase := AtCount, target := 0)
    case Count =>
      var original := |PointsOf(s.stores[s.target], oldId, s.clock)|;
      if original == 0 then NextTarget(s) else s.(phase := AtRetag(original))
    case Retag(copied, completes) =>
      var t := s.(stores := s.stores[s.target := Copied(s.stores[s.target], oldId, newId, copied)]);
      if completes then t.(phase := AtRecount(s.phase.original, s.clock)) else t.(phase := Idle)
    case Recount =>
      var retagged := |PointsOf(s.stores[s.target], newId, s.clock)|;
      if retagged >= s.phase.original then s.(phase := AtDelete(s.phase.retagClock))
      else NextTarget(s)
    case Delete(removed, completes) =>
      var t := s.(stores := s.stores[s.target := Without(s.stores[s.target], oldId, removed)]);
      if completes then NextTarget(t) else t.(phase := Idle)
    case Raise => s.(phase := Idle)
    case Write(store, writes) =>
      s.(stores := s.stores[store := s.stores[store] + writes],
         overwritten := s.overwritten[store := s.overwritten[store] + Touched(writes, newId)])
    case Tick(clock) => s.(clock := clock)
  }

  /** The states along a run, the start included. */
  ghost predicate IsRun(oldId: Id, newId: Id, states: seq<State>, steps: seq<Step>) {
    && |states| == |steps| + 1
    && forall i :: 0 <= i < |steps| ==>
         Enabled(oldId, states[i], steps[i]) && states[i + 1] == Next(oldId, newId, states[i], steps[i])
  }

  /** Some run of the protocol leads from s to t. */
  ghost predicate Reaches(oldId: Id, newId: Id, s: State, t: State) {
    exists states: seq<State>, steps: seq<Step> ::
      IsRun(oldId, newId, states, steps) && states[0] == s && states[|steps|] == t
  }

  lemma ReachesItself(oldId: Id, newId: Id, s: State)
    ensures Reaches(oldId, newId, s, s)
  {
    var states, steps: seq<Step> := [s], [];
    assert IsRun(oldId, newId, states, steps) && states[0] == s && states[|steps|] == s;
  }

  lemma ReachesNext(oldId: Id, newId: Id, s: State, t: State, step: Step)
    requires Reaches(oldId, newId, s, t) && Enabled(oldId, t, step)
    ensures Reaches(oldId, newId, s, Next(oldId, newId, t, step))
  {
    var states, steps :| IsRun(oldId, newId, states, steps) && states[0] == s && states[|steps|] == t;
    var u := Next(oldId, newId, t, step);
    var longer, more := states + [u], steps + [step];
    hide Enabled, Next;
    forall i | 0 <= i < |more|
      ensures Enabled(oldId, longer[i], more[i]) && longer[i + 1] == Next(oldId, newId, longer[i], more[i])
    {
      if i < |steps| {
        assert longer[i] == states[i] && longer[i + 1] == states[i + 1] && more[i] == steps[i];
      }
    }
    assert IsRun(oldId, newId, longer, more) && longer[0] == s && longer[|more|] == u;
  }

  // ---------------------------------------------------------------- invariant

  /** Where a row of the original store is, relative to the current one: under the old id with its
      value, or under the new id; the copy has the original value unless another writer replaced it. */
  ghost predicate RowSafe(oldId: Id, newId: Id, original: Store, db: Store, overwritten: set<Point>, p: Point)
    requires Key(oldId, p) in original
  {
    && (Key(oldId, p) in db ==> db[Key(oldId, p)] == original[Key(oldId, p)])
    && (Key(oldId, p) !in db ==>
          Key(newId, p) in db && (p !in overwritten ==> db[Key(newId, p)] == original[Key(oldId, p)]))
  }

  /** The copy that a completed re-tag left for every row it saw. */
  ghost predicate CopiesPresent(oldId: Id, newId: Id, db: Store, overwritten: set<Point>, retagClock: int) {
    forall p :: Key(oldId, p) in db && Visible(p, retagClock) ==>
      Key(newId, p) in db && (p !in overwritten ==> db[Key(newId, p)] == db[Key(oldId, p)])
  }

  /** All original rows of a store are under the new id and no past row is under the old one. */
  ghost predicate Migrated(oldId: Id, newId: Id, original: Store, start: int, db: Store) {
    forall p :: Key(oldId, p) in original && Visible(p, start) ==> Key(oldId, p) !in db && Key(newId, p) in db
  }

  ghost predicate StoreInv(oldId: Id, newId: Id, original: Store, start: int, s: State, i: nat)
    requires WellFormed(s) && i < |s.stores|
  {
    var db := s.stores[i];
    && (forall p :: Key(oldId, p) in original && Visible(p, start) ==>
          RowSafe(oldId, newId, original, db, s.overwritten[i], p))
    && (forall p :: Key(oldId, p) in db ==> Key(oldId, p) in original)
    && (s.marked || (!s.phase.Idle? && i < s.target) ==> Migrated(oldId, newId, original, start, db))
    && (i == s.target && s.phase.AtRetag? ==> s.phase.original <= |PointsOf(db, oldId, s.clock)|)
    && (i == s.target && s.phase.AtRecount? ==>
          && start <= s.phase.retagClock <= s.clock
          && s.phase.original <= |PointsOf(db, oldId, s.phase.retagClock)|
          && CopiesPresent(oldId, newId, db, s.overwritten[i], s.phase.retagClock))
    && (i == s.target && s.phase.AtDelete? ==>
          && start <= s.phase.retagClock <= s.clock
          && CopiesPresent(oldId, newId, db, s.overwritten[i], s.phase.retagClock))
  }

  ghost predicate Inv(oldId: Id, newId: Id, originals: seq<Store>, start: int, s: State) {
    && WellFormed(s) && |originals| == |s.stores| && start <= s.clock
    && (s.marked ==> s.phase.Idle?)
    && forall i :: 0 <= i < |s.stores| ==> StoreInv(oldId, newId, originals[i], start, s, i)
  }

  /** At the start nothing has been copied, overwritten or marked. */
  ghost predicate Initial(oldId: Id, newId: Id, s: State) {
    WellFormed(s) && s.phase.Idle? && !s.marked && oldId != newId
  }

  lemma InitialInv(oldId: Id, newId: Id, s: State)
    requires Initial(oldId, newId, s)
    ensures Inv(oldId, newId, s.stores, s.clock, s)
  {
  }

  // ---------------------------------------------------------------- each step keeps the invariant

  lemma UntouchedStore(oldId: Id, newId: Id, original: Store, start: int, s: State, t: State, i: nat)
    requires WellFormed(s) && WellFormed(t) && i < |s.stores| == |t.stores|
    requires StoreInv(oldId, newId, original, start, s, i)
    requires t.stores[i] == s.stores[i] && t.overwritten[i] == s.overwritten[i]
    requires t.marked || (!t.phase.Idle? && i < t.target) ==>
               Migrated(oldId, newId, original, start, s.stores[i])
    requires i == t.target ==> t.phase.Idle? || t.phase.AtCount?
    ensures StoreInv(oldId, newId, original, start, t, i)
  {
  }

  /** The store whose target is left behind is migrated, every earlier one was before. */
  lemma NextTargetInv(oldId: Id, newId: Id, originals: seq<Store>, start: int, s: State)
    requires Inv(oldId, newId, originals, start, s) && !s.phase.Idle?
    requires Migrated(oldId, newId, originals[s.target], start, s.stores[s.target])
    ensures Inv(oldId, newId, originals, start, NextTarget(s))
  {
    var t := NextTarget(s);
    forall i | 0 <= i < |s.stores|
      ensures StoreInv(oldId, newId, originals[i], start, t, i)
    {
      assert StoreInv(oldId, newId, originals[i], start, s, i);
      UntouchedStore(oldId, newId, originals[i], start, s, t, i);
    }
  }

  lemma CountInv(oldId: Id, newId: Id, originals: seq<Store>, start: int, s: State)
    requires oldId != newId && Inv(oldId, newId, originals, start, s) && Enabled(oldId, s, Count)
    ensures Inv(oldId, newId, originals, start, Next(oldId, newId, s, Count))
  {
    var db, points := s.stores[s.target], PointsOf(s.stores[s.target], oldId, s.clock);
    assert StoreInv(oldId, newId, originals[s.target], start, s, s.target);
    if |points| == 0 {
      forall p | Key(oldId, p) in originals[s.target] && Visible(p, start)
        ensures Key(oldId, p) !in db && Key(newId, p) in db
      {
        assert RowSafe(oldId, newId, originals[s.target], db, s.overwritten[s.target], p);
        assert Key(oldId, p) in db ==> p in points;
      }
      NextTargetInv(oldId, newId, originals, start, s);
    } else {
      var t := Next(oldId, newId, s, Count);
      forall i | 0 <= i < |s.stores|
        ensures StoreInv(oldId, newId, originals[i], start, t, i)
      {
        assert StoreInv(oldId, newId, originals[i], start, s, i);
      }
    }
  }

  /** Re-tagging leaves the old rows alone and gives every copied point its original value. */
  lemma RetagKeepsRows(oldId: Id, newId: Id, original: Store, start: int, s: State, copied: set<Point>, p: Point)
    requires oldId != newId && WellFormed(s) && Key(oldId, p) in original
    requires copied <= PointsOf(s.stores[s.target], oldId, s.clock)
    requires RowSafe(oldId, newId, original, s.stores[s.target], s.overwritten[s.target], p)
    ensures RowSafe(oldId, newId, original, Copied(s.stores[s.target], oldId, newId, copied),
                    s.overwritten[s.target], p)
  {
    CopiedAt(s.stores[s.target], oldId, newId, copied);
    hide Copied;
  }

  lemma RetagKeepsOld(oldId: Id, newId: Id, db: Store, copied: set<Point>, clock: int)
    requires oldId != newId && forall p :: p in copied ==> Key(oldId, p) in db
    ensures PointsOf(Copied(db, oldId, newId, copied), oldId, clock) == PointsOf(db, oldId, clock)
    ensures forall p :: Key(oldId, p) in Copied(db, oldId, newId, copied) <==> Key(oldId, p) in db
  {
    CopiedAt(db, oldId, newId, copied);
    hide Copied;
  }

  lemma CompletedCopies(oldId: Id, newId: Id, db: Store, overwritten: set<Point>, clock: int)
    requires oldId != newId
    ensures CopiesPresent(oldId, newId, Copied(db, oldId, newId, PointsOf(db, oldId, clock)), overwritten, clock)
  {
    var copied := PointsOf(db, oldId, clock);
    CopiedAt(db, oldId, newId, copied);
    hide Copied;
    assert forall p :: Key(oldId, p) in db && Visible(p, clock) ==> p in copied;
  }

  lemma RetagStoreInv(oldId: Id, newId: Id, original: Store, start: int, s: State, copied: set<Point>, completes: bool)
    requires oldId != newId && Enabled(oldId, s, Retag(copied, completes)) && start <= s.clock && !s.marked
    requires StoreInv(oldId, newId, original, start, s, s.target)
    ensures StoreInv(oldId, newId, original, start, Next(oldId, newId, s, Retag(copied, completes)), s.target)
  {
    var db := s.stores[s.target];
    RetagKeepsOld(oldId, newId, db, copied, s.clock);
    if completes {
      CompletedCopies(oldId, newId, db, s.overwritten[s.target], s.clock);
    }
    forall p | Key(oldId, p) in original && Visible(p, start)
      ensures RowSafe(oldId, newId, original, Copied(db, oldId, newId, copied), s.overwritten[s.target], p)
    {
      RetagKeepsRows(oldId, newId, original, start, s, copied, p);
    }
    hide Copied, RowSafe, CopiesPresent, Migrated, PointsOf;
  }

  lemma RetagInv(oldId: Id, newId: Id, originals: seq<Store>, start: int, s: State, copied: set<Point>, completes: bool)
    requires oldId != newId && Inv(oldId, newId, originals, start, s) && Enabled(oldId, s, Retag(copied, completes))
    ensures Inv(oldId, newId, originals, start, Next(oldId, newId, s, Retag(copied, completes)))
  {
    var t, j := Next(oldId, newId, s, Retag(copied, completes)), s.target;
    assert StoreInv(oldId, newId, originals[j], start, s, j);
    RetagStoreInv(oldId, newId, originals[j], start, s, copied, completes);
    forall i | 0 <= i < |s.stores| && i != j
      ensures StoreInv(oldId, newId, originals[i], start, t, i)
    {
      UntouchedStore(oldId, newId, originals[i], start, s, t, i);
    }
    hide StoreInv, Copied;
  }

  /** The copies a completed re-tag left are at least as many as the rows counted before it. */
  lemma RecountPasses(oldId: Id, newId: Id, originals: seq<Store>, start: int, s: State)
    requires Inv(oldId, newId, originals, start, s) && s.phase.AtRecount?
    ensures |PointsOf(s.stores[s.target], newId, s.clock)| >= s.phase.original
  {
    var db := s.stores[s.target];
    assert StoreInv(oldId, newId, originals[s.target], start, s, s.target);
    var olds, news := PointsOf(db, oldId, s.phase.retagClock), PointsOf(db, newId, s.clock);
    forall p | p in olds
      ensures p in news
    {
      assert Key(oldId, p) in db && Key(newId, p) in db;
    }
    SubsetCardinality(olds, news);
  }

  lemma RecountInv(oldId: Id, newId: Id, originals: seq<Store>, start: int, s: State)
    requires Inv(oldId, newId, originals, start, s) && Enabled(oldId, s, Recount)
    ensures Inv(oldId, newId, originals, start, Next(oldId, newId, s, Recount))
  {
    RecountPasses(oldId, newId, originals, start, s);
    var t := Next(oldId, newId, s, Recount);
    forall i | 0 <= i < |s.stores|
      ensures StoreInv(oldId, newId, originals[i], start, t, i)
    {
      assert StoreInv(oldId, newId, originals[i], start, s, i);
    }
  }

  lemma DeleteInv(oldId: Id, newId: Id, originals: seq<Store>, start: int, s: State, removed: set<Point>,
                  completes: bool)
    requires oldId != newId && Inv(oldId, newId, originals, start, s) && Enabled(oldId, s, Delete(removed, completes))
    ensures Inv(oldId, newId, originals, start, Next(oldId, newId, s, Delete(removed, completes)))
  {
    var j := s.target;
    var db, original := s.stores[j], originals[j];
    var db' := Without(db, oldId, removed);
    assert StoreInv(oldId, newId, original, start, s, j);
    forall p | Key(oldId, p) in original && Visible(p, start)
      ensures RowSafe(oldId, newId, original, db', s.overwritten[j], p)
      ensures completes ==> Key(oldId, p) !in db'
    {
      assert RowSafe(oldId, newId, original, db, s.overwritten[j], p);
      assert Key(oldId, p) in db ==> p in PointsOf(db, oldId, s.clock);
    }
    var u := s.(stores := s.stores[j := db'], phase := AtCount);
    assert StoreInv(oldId, newId, original, start, u, j);
    forall i | 0 <= i < |s.stores| && i != j
      ensures StoreInv(oldId, newId, originals[i], start, u, i)
    {
      UntouchedStore(oldId, newId, originals[i], start, s, u, i);
    }
    if completes {
      NextTargetInv(oldId, newId, originals, start, u);
    } else {
      IdleInv(oldId, newId, originals, start, u);
    }
  }

  lemma IdleInv(oldId: Id, newId: Id, originals: seq<Store>, start: int, s: State)
    requires Inv(oldId, newId, originals, start, s)
    ensures Inv(oldId, newId, originals, start, s.(phase := Idle))
  {
    forall i | 0 <= i < |s.stores|
      ensures StoreInv(oldId, newId, originals[i], start, s.(phase := Idle), i)
    {
      UntouchedStore(oldId, newId, originals[i], start, s, s.(phase := Idle), i);
    }
  }

  lemma WriteStoreInv(oldId: Id, newId: Id, original: Store, start: int, s: State, t: State, i: nat, writes: Store)
    requires oldId != newId && WellFormed(s) && i < |s.stores| && StoreInv(oldId, newId, original, start, s, i)
    requires forall k :: k in writes ==> k.segment != oldId
    requires t == s.(stores := s.stores[i := s.stores[i] + writes],
                     overwritten := s.overwritten[i := s.overwritten[i] + Touched(writes, newId)])
    ensures StoreInv(oldId, newId, original, start, t, i)
  {
    var db, db' := s.stores[i], t.stores[i];
    assert forall p :: Key(oldId, p) in db' <==> Key(oldId, p) in db;
    assert forall p :: Key(newId, p) in writes ==> p in Touched(writes, newId);
    assert PointsOf(db', oldId, s.clock) == PointsOf(db, oldId, s.clock);
    if s.phase.AtRecount? {
      assert PointsOf(db', oldId, s.phase.retagClock) == PointsOf(db, oldId, s.phase.retagClock);
    }
    forall p | Key(oldId, p) in original && Visible(p, start)
      ensures RowSafe(oldId, newId, original, db', t.overwritten[i], p)
    {
      assert RowSafe(oldId, newId, original, db, s.overwritten[i], p);
    }
  }

  lemma WriteInv(oldId: Id, newId: Id, originals: seq<Store>, start: int, s: State, store: nat, writes: Store)
    requires oldId != newId && Inv(oldId, newId, originals, start, s) && Enabled(oldId, s, Write(store, writes))
    ensures Inv(oldId, newId, originals, start, Next(oldId, newId, s, Write(store, writes)))
  {
    var t := Next(oldId, newId, s, Write(store, writes));
    forall i | 0 <= i < |s.stores|
      ensures StoreInv(oldId, newId, originals[i], start, t, i)
    {
      assert StoreInv(oldId, newId, originals[i], start, s, i);
      if i == store {
        WriteStoreInv(oldId, newId, originals[i], start, s, t, i, writes);
      }
    }
  }

  lemma TickInv(oldId: Id, newId: Id, originals: seq<Store>, start: int, s: State, clock: int)
    requires Inv(oldId, newId, originals, start, s) && clock >= s.clock
    ensures Inv(oldId, newId, originals, start, s.(clock := clock))
  {
    forall i | 0 <= i < |s.stores|
      ensures StoreInv(oldId, newId, originals[i], start, s.(clock := clock), i)
    {
      assert StoreInv(oldId, newId, originals[i], start, s, i);
      PointsGrowWithClock(s.stores[i], oldId, s.clock, clock);
      SubsetCardinality(PointsOf(s.stores[i], oldId, s.clock), PointsOf(s.stores[i], oldId, clock));
    }
  }

  lemma BeginInv(oldId: Id, newId: Id, originals: seq<Store>, start: int, s: State)
    requires Inv(oldId, newId, originals, start, s) && Enabled(oldId, s, Begin)
    ensures Inv(oldId, newId, originals, start, Next(oldId, newId, s, Begin))
  {
    var t := Next(oldId, newId, s, Begin);
    forall i | 0 <= i < |s.stores|
      ensures StoreInv(oldId, newId, originals[i], start, t, i)
    {
      UntouchedStore(oldId, newId, originals[i], start, s, t, i);
    }
  }

  lemma StepInv(oldId: Id, newId: Id, originals: seq<Store>, start: int, s: State, step: Step)
    requires oldId != newId && Inv(oldId, newId, originals, start, s) && Enabled(oldId, s, step)
    ensures Inv(oldId, newId, originals, start, Next(oldId, newId, s, step))
  {
    hide StoreInv;
    match step {
      case Begin => BeginInv(oldId, newId, originals, start, s);
      case Count => CountInv(oldId, newId, originals, start, s);
      case Retag(copied, completes) => RetagInv(oldId, newId, originals, start, s, copied, completes);
      case Recount => RecountInv(oldId, newId, originals, start, s);
      case Delete(removed, completes) => DeleteInv(oldId, newId, originals, start, s, removed, completes);
      case Raise => IdleInv(oldId, newId, originals, start, s);
      case Write(store, writes) => WriteInv(oldId, newId, originals, start, s, store, writes);
      case Tick(clock) => TickInv(oldId, newId, originals, start, s, clock);
    }
  }

  // ---------------------------------------------------------------- whole runs

  lemma {:induction false} RunInv(oldId: Id, newId: Id, states: seq<State>, steps: seq<Step>, n: nat)
    requires IsRun(oldId, newId, states, steps) && Initial(oldId, newId, states[0]) && n < |states|
    ensures Inv(oldId, newId, states[0].stores, states[0].clock, states[n])
  {
    if n == 0 {
      InitialInv(oldId, newId, states[0]);
    } else {
      RunInv(oldId, newId, states, steps, n - 1);
      StepInv(oldId, newId, states[0].stores, states[0].clock, states[n - 1], steps[n - 1]);
    }
  }

  /** Migration never loses a row: at every state of every run, each row that was under the old id and
      in the past when the run began is still under the old id with its value, or under the new id,
      with its value unless another writer wrote that very point. */
  lemma NoRowIsLost(oldId: Id, newId: Id, states: seq<State>, steps: seq<Step>, n: nat, i: nat, p: Point)
    requires IsRun(oldId, newId, states, steps) && Initial(oldId, newId, states[0]) && n < |states|
    requires i < |states[0].stores| && Key(oldId, p) in states[0].stores[i] && Visible(p, states[0].clock)
    ensures |states[n].stores| == |states[0].stores| == |states[n].overwritten|
    ensures RowSafe(oldId, newId, states[0].stores[i], states[n].stores[i], states[n].overwritten[i], p)
  {
    RunInv(oldId, newId, states, steps, n);
    assert StoreInv(oldId, newId, states[0].stores[i], states[0].clock, states[n], i);
  }

  /** Once the marker is set, every such row of every target is under the new id and gone from the old. */
  lemma MarkerMeansMigrated(oldId: Id, newId: Id, states: seq<State>, steps: seq<Step>, n: nat, i: nat)
    requires IsRun(oldId, newId, states, steps) && Initial(oldId, newId, states[0]) && n < |states|
    requires states[n].marked && i < |states[0].stores|
    ensures |states[n].stores| == |states[0].stores|
    ensures Migrated(oldId, newId, states[0].stores[i], states[0].clock, states[n].stores[i])
  {
    RunInv(oldId, newId, states, steps, n);
    assert StoreInv(oldId, newId, states[0].stores[i], states[0].clock, states[n], i);
  }

  /** A completed re-tag always passes the count verification that follows it, so within this fault
      model the silent branch for a count mismatch is never taken. */
  lemma CompletedRetagPassesVerification(oldId: Id, newId: Id, states: seq<State>, steps: seq<Step>, n: nat)
    requires IsRun(oldId, newId, states, steps) && Initial(oldId, newId, states[0]) && n < |steps|
    requires steps[n] == Recount
    ensures states[n + 1].phase.AtDelete?
  {
    RunInv(oldId, newId, states, steps, n);
    RecountPasses(oldId, newId, states[0].stores, states[0].clock, states[n]);
  }

  // ---------------------------------------------------------------- rows from the future

  /** The deletion loses a row that has no copy exactly when the row entered the past between the
      re-tag and the deletion. */
  lemma DeletionLosesOnlyRowsThatBecamePast(oldId: Id, newId: Id, originals: seq<Store>, start: int, s: State, p: Point)
    requires oldId != newId && Inv(oldId, newId, originals, start, s) && s.phase.AtDelete?
    requires var db := s.stores[s.target]; Key(oldId, p) in db && Key(newId, p) !in db && p.time >= 0
    ensures var step := Delete(PointsOf(s.stores[s.target], oldId, s.clock), true);
            && Enabled(oldId, s, step)
            && (Key(oldId, p) !in Next(oldId, newId, s, step).stores[s.target] <==> p.time < s.clock)
            && s.phase.retagClock <= p.time
  {
    assert StoreInv(oldId, newId, originals[s.target], start, s, s.target);
    assert CopiesPresent(oldId, newId, s.stores[s.target], s.overwritten[s.target], s.phase.retagClock);
    assert p in PointsOf(s.stores[s.target], oldId, s.clock) <==> p.time < s.clock;
  }

  function TwoRows(oldId: Id, past: Point, future: Point): Store {
    map[Key(oldId, past) := Number(1.0), Key(oldId, future) := Number(2.0)]
  }

  function TwoRowsTagged(oldId: Id, newId: Id, past: Point, future: Point): Store {
    map[Key(oldId, past) := Number(1.0), Key(oldId, future) := Number(2.0), Key(newId, past) := Number(1.0)]
  }

  lemma TwoRowsSeen(oldId: Id, newId: Id, past: Point, future: Point, early: int, late: int)
    requires oldId != newId && 0 <= past.time < early <= future.time < late
    ensures PointsOf(TwoRows(oldId, past, future), oldId, early) == {past}
  {
    var db := TwoRows(oldId, past, future);
    assert Key(oldId, past) in db;
    hide TwoRows;
  }

  lemma TaggedRowsSeen(oldId: Id, newId: Id, past: Point, future: Point, early: int, late: int)
    requires oldId != newId && 0 <= past.time < early <= future.time < late
    ensures PointsOf(TwoRowsTagged(oldId, newId, past, future), newId, early) == {past}
    ensures PointsOf(TwoRowsTagged(oldId, newId, past, future), oldId, late) == {past, future}
  {
    var db := TwoRowsTagged(oldId, newId, past, future);
    assert Key(oldId, past) in db && Key(newId, past) in db && Key(oldId, future) in db;
  }

  lemma TwoRowsCopied(oldId: Id, newId: Id, past: Point, future: Point)
    requires oldId != newId && past != future
    ensures Copied(TwoRows(oldId, past, future), oldId, newId, {past}) == TwoRowsTagged(oldId, newId, past, future)
  {
    CopiedAt(TwoRows(oldId, past, future), oldId, newId, {past});
    hide Copied;
  }

  lemma TaggedRowsDeleted(oldId: Id, newId: Id, past: Point, future: Point)
    requires oldId != newId
    ensures Without(TwoRowsTagged(oldId, newId, past, future), oldId, {past, future})
                == map[Key(newId, past) := Number(1.0)]
  {
  }

  /** The states of a fault-free pass over a single target that ticks once before the deletion. */
  function PassState(oldId: Id, newId: Id, db: Store, early: int, late: int, i: nat): State {
    var seen := PointsOf(db, oldId, early);
    var tagged := Copied(db, oldId, newId, seen);
    var s := State([db], early, 0, Idle, false, [{}]);
    if i == 0 then s
    else if i == 1 then s.(phase := AtCount)
    else if i == 2 then s.(phase := AtRetag(|seen|))
    else if i == 3 then s.(stores := [tagged], phase := AtRecount(|seen|, early))
    else if i == 4 then s.(stores := [tagged], phase := AtDelete(early))
    else if i == 5 then s.(stores := [tagged], phase := AtDelete(early), clock := late)
    else s.(stores := [Without(tagged, oldId, PointsOf(tagged, oldId, late))], clock := late, marked := true)
  }

  function PassStep(oldId: Id, newId: Id, db: Store, early: int, late: int, i: nat): Step {
    var seen := PointsOf(db, oldId, early);
    if i == 0 then Begin
    else if i == 1 then Count
    else if i == 2 then Retag(seen, true)
    else if i == 3 then Recount
    else if i == 4 then Tick(late)
    else Delete(PointsOf(Copied(db, oldId, newId, seen), oldId, late), true)
  }

  lemma PassStarts(oldId: Id, newId: Id, db: Store, early: int, late: int, i: nat)
    requires oldId != newId && early <= late && PointsOf(db, oldId, early) != {} && i < 3
    ensures var s, step := PassState(oldId, newId, db, early, late, i), PassStep(oldId, newId, db, early, late, i);
            Enabled(oldId, s, step) && Next(oldId, newId, s, step) == PassState(oldId, newId, db, early, late, i + 1)
  {
    assert |PointsOf(db, oldId, early)| > 0;
    hide PointsOf, Copied, Without;
  }

  lemma PassVerifies(oldId: Id, newId: Id, db: Store, early: int, late: int, i: nat)
    requires oldId != newId && early <= late && PointsOf(db, oldId, early) != {} && i == 3
    ensures var s, step := PassState(oldId, newId, db, early, late, i), PassStep(oldId, newId, db, early, late, i);
            Enabled(oldId, s, step) && Next(oldId, newId, s, step) == PassState(oldId, newId, db, early, late, i + 1)
  {
    RetaggedCountSuffices(oldId, newId, db, early, early);
    hide PointsOf, Copied, Without;
  }

  lemma PassDeletes(oldId: Id, newId: Id, db: Store, early: int, late: int, i: nat)
    requires oldId != newId && early <= late && PointsOf(db, oldId, early) != {} && 4 <= i < 6
    ensures var s, step := PassState(oldId, newId, db, early, late, i), PassStep(oldId, newId, db, early, late, i);
            Enabled(oldId, s, step) && Next(oldId, newId, s, step) == PassState(oldId, newId, db, early, late, i + 1)
  {
    hide PointsOf, Copied, Without;
  }

  /** Such a row can indeed be lost: in a run without any failure, a row dated after the re-tag but
      before the deletion ends up under neither id although the marker is set. */
  lemma FutureRowCanBeLost(oldId: Id, newId: Id, past: Point, future: Point, early: int, late: int)
    returns (states: seq<State>, steps: seq<Step>)
    requires oldId != newId && 0 <= past.time < early <= future.time < late
    ensures IsRun(oldId, newId, states, steps) && Initial(oldId, newId, states[0]) && |states[0].stores| == 1
    ensures Key(oldId, future) in states[0].stores[0]
    ensures var final := states[|steps|];
            && final.marked && |final.stores| == 1
            && Key(oldId, future) !in final.stores[0] && Key(newId, future) !in final.stores[0]
  {
    TwoRowsSeen(oldId, newId, past, future, early, late);
    TaggedRowsSeen(oldId, newId, past, future, early, late);
    TwoRowsCopied(oldId, newId, past, future);
    TaggedRowsDeleted(oldId, newId, past, future);
    var db := TwoRows(oldId, past, future);
    states := seq(7, i requires 0 <= i => PassState(oldId, newId, db, early, late, i));
    steps := seq(6, i requires 0 <= i => PassStep(oldId, newId, db, early, late, i));
    forall i | 0 <= i < 6
      ensures Enabled(oldId, states[i], steps[i]) && states[i + 1] == Next(oldId, newId, states[i], steps[i])
    {
      if i < 3 {
        PassStarts(oldId, newId, db, early, late, i);
      } else if i == 3 {
        PassVerifies(oldId, newId, db, early, late, i);
      } else {
        PassDeletes(oldId, newId, db, early, late, i);
      }
    }
  }
}