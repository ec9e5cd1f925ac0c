/**
 One pass over the pending migrations (_run_pending_migrations in lib/FcdUtils.py) as a sequence of
 store contents: what a set marker means when several live segments name the same source.
 */
module MigrationPass {
  import opened Wrappers
  import opened Changelog
  import opened SegmentStore
  import opened MigrationProtocol

  /** What any number of (possibly failing) migration steps from oldId to newId may have done to a
      store: rows of other segments are as before; what is left under the old id is unchanged; rows under the
      new id remain and each has the value it had or that of the old row, from which all new ones come; and
      every old row of the past is still there, under one of the two ids, with its value. */
  ghost predicate Preserved(oldId: Id, newId: Id, start: int, before: Store, after: Store) {
    && (forall k: Key :: k.segment != oldId && k.segment != newId ==>
          (k in before <==> k in after) && (k in before ==> after[k] == before[k]))
    && (forall k :: k in before && k.segment == newId ==> k in after)
    && (forall p :: Key(newId, p) in after ==>
          || (Key(newId, p) in before && after[Key(newId, p)] == before[Key(newId, p)])
          || (Key(oldId, p) in before && after[Key(newId, p)] == before[Key(oldId, p)]))
    && (forall k :: k in after && k.segment == oldId ==> k in before && after[k] == before[k])
    && (forall p :: Key(oldId, p) in before && Visible(p, start) ==> RowSafe(oldId, newId, before, after, {}, p))
  }

  ghost predicate Emptied(oldId: Id, start: int, store: Store) {
    forall p :: Visible(p, start) ==> Key(oldId, p) !in store
  }

  /** What holds of the rows of the past holds of those of an earlier past. */
  lemma EarlierPast(oldId: Id, newId: Id, start: int, clock: int, before: Store, after: Store)
    requires start <= clock
    ensures Preserved(oldId, newId, clock, before, after) ==> Preserved(oldId, newId, start, before, after)
    ensures Emptied(oldId, clock, after) ==> Emptied(oldId, start, after)
  {
  }

  predicate Pending(r: Record) {
    r.geoInheritedFrom.Some? && r.timeseriesMigratedAt.None?
  }

  /** The record's migration touches the stores; one that names itself raises before it does. */
  predicate Attempted(changelog: Book, id: Id) {
    id in changelog && Pending(changelog[id]) && changelog[id].geoInheritedFrom.value != id
  }

  predicate HeirOf(changelog: Book, id: Id, source: Id) {
    Attempted(changelog, id) && changelog[id].geoInheritedFrom.value == source
  }

  ghost predicate Attempt(changelog: Book, id: Id, migrated: bool, clock: int, before: Store, after: Store) {
    if Attempted(changelog, id) then
      var source := changelog[id].geoInheritedFrom.value;
      Preserved(source, id, clock, before, after) && (migrated ==> Emptied(source, clock, after))
    else
      !migrated && after == before
  }

  /** stores: the contents of one target before the pass, which begins at `clock`, and after each record. */
  ghost predicate IsPass(changelog: Book, order: seq<Id>, migrated: seq<bool>, clock: int, stores: seq<Store>) {
    && |migrated| == |order| && |stores| == |order| + 1
    && forall i :: 0 <= i < |order| ==>
         Attempt(changelog, order[i], migrated[i], clock, stores[i], stores[i + 1])
  }

  /** A dictionary is iterated over each key once. */
  ghost predicate EachOnce(order: seq<Id>) {
    forall i, j :: 0 <= i < j < |order| ==> order[i] != order[j]
  }

  // ---------------------------------------------------------------- no row disappears

  /** The ids under which a row of segment `a` may be found after the first i records were tried. */
  ghost function Heirs(changelog: Book, order: seq<Id>, i: nat, a: Id): set<Id>
    requires i <= |order|
  {
    if i == 0 then {a} else
      var before, id := Heirs(changelog, order, i - 1, a), order[i - 1];
      if Attempted(changelog, id) && changelog[id].geoInheritedFrom.value in before then before + {id} else before
  }

  ghost predicate RowsTraced(changelog: Book, order: seq<Id>, i: nat, start: int, before: Store, after: Store)
    requires i <= |order|
  {
    forall a, p :: Key(a, p) in before && Visible(p, start) ==>
      exists h :: h in Heirs(changelog, order, i, a) && Key(h, p) in after
  }

  lemma TraceStep(changelog: Book, order: seq<Id>, i: nat, migrated: bool, clock: int, before: Store, mid: Store,
                  after: Store)
    requires i < |order| && RowsTraced(changelog, order, i, clock, before, mid)
    requires Attempt(changelog, order[i], migrated, clock, mid, after)
    ensures RowsTraced(changelog, order, i + 1, clock, before, after)
  {
    var id := order[i];
    forall a, p | Key(a, p) in before && Visible(p, clock)
      ensures exists h :: h in Heirs(changelog, order, i + 1, a) && Key(h, p) in after
    {
      var h :| h in Heirs(changelog, order, i, a) && Key(h, p) in mid;
      assert h in Heirs(changelog, order, i + 1, a);
      if HeirOf(changelog, id, h) {
        assert RowSafe(h, id, mid, after, {}, p);
        assert Key(h, p) in after || Key(id, p) in after;
      } else {
        assert Key(h, p) in after;
      }
    }
  }

  /** Over a pass no past row of any segment disappears: it stays, or moves along the inheritances tried. */
  lemma {:induction false} PassTracesRows(changelog: Book, order: seq<Id>, migrated: seq<bool>, clock: int,
                                          stores: seq<Store>, i: nat)
    requires IsPass(changelog, order, migrated, clock, stores) && i <= |order|
    ensures RowsTraced(changelog, order, i, clock, stores[0], stores[i])
    decreases i
  {
    if i == 0 {
      assert forall a :: a in Heirs(changelog, order, 0, a);
    } else {
      PassTracesRows(changelog, order, migrated, clock, stores, i - 1);
      TraceStep(changelog, order, i - 1, migrated[i - 1], clock, stores[0], stores[i - 1], stores[i]);
    }
  }

  // ---------------------------------------------------------------- the first heir gets the rows

  /** Until its first heir is tried, a source keeps its rows; unless it is itself being filled, their values too. */
  lemma {:induction false} SourceKeepsRows(changelog: Book, order: seq<Id>, migrated: seq<bool>, clock: int,
                                           stores: seq<Store>, i: nat, source: Id, p: Point)
    requires IsPass(changelog, order, migrated, clock, stores) && i <= |order|
    requires forall j :: 0 <= j < i ==> !HeirOf(changelog, order[j], source)
    requires Key(source, p) in stores[0]
    ensures Key(source, p) in stores[i]
    ensures !Attempted(changelog, source) ==> stores[i][Key(source, p)] == stores[0][Key(source, p)]
    decreases i
  {
    if i > 0 {
      SourceKeepsRows(changelog, order, migrated, clock, stores, i - 1, source, p);
      assert Attempt(changelog, order[i - 1], migrated[i - 1], clock, stores[i - 1], stores[i]);
    }
  }

  /** After its own migration an heir keeps its rows as long as no later record moves them on. */
  lemma {:induction false} HeirKeepsRow(changelog: Book, order: seq<Id>, migrated: seq<bool>, clock: int,
                                        stores: seq<Store>, k: nat, i: nat, p: Point)
    requires IsPass(changelog, order, migrated, clock, stores) && EachOnce(order) && k < i <= |order|
    requires forall j :: k < j < |order| ==> !HeirOf(changelog, order[j], order[k])
    ensures Key(order[k], p) in stores[k + 1] <==> Key(order[k], p) in stores[i]
    ensures Key(order[k], p) in stores[i] ==> stores[i][Key(order[k], p)] == stores[k + 1][Key(order[k], p)]
    decreases i
  {
    if i > k + 1 {
      HeirKeepsRow(changelog, order, migrated, clock, stores, k, i - 1, p);
      assert Attempt(changelog, order[i - 1], migrated[i - 1], clock, stores[i - 1], stores[i]);
      assert order[i - 1] != order[k];
    }
  }

  /** The marker of the first heir tried means what it says: every past row of the source is under the heir
      when the pass ends, with its value, unless a later record moves the heir's own rows on. */
  lemma FirstHeirHoldsTheRows(changelog: Book, order: seq<Id>, migrated: seq<bool>, clock: int, stores: seq<Store>,
                              k: nat, source: Id, p: Point)
    requires IsPass(changelog, order, migrated, clock, stores) && EachOnce(order) && k < |order|
    requires migrated[k] && HeirOf(changelog, order[k], source)
    requires forall j :: 0 <= j < k ==> !HeirOf(changelog, order[j], source)
    requires forall j :: k < j < |order| ==> !HeirOf(changelog, order[j], order[k])
    requires Key(source, p) in stores[0] && Visible(p, clock)
    ensures Key(order[k], p) in stores[|order|]
    ensures !Attempted(changelog, source) ==> stores[|order|][Key(order[k], p)] == stores[0][Key(source, p)]
  {
    SourceKeepsRows(changelog, order, migrated, clock, stores, k, source, p);
    assert Attempt(changelog, order[k], migrated[k], clock, stores[k], stores[k + 1]);
    assert RowSafe(source, order[k], stores[k], stores[k + 1], {}, p);
    HeirKeepsRow(changelog, order, migrated, clock, stores, k, |order|, p);
  }

  // ---------------------------------------------------------------- a later heir gets nothing

  /** Once a source has been emptied, and is not itself being filled, it stays empty. */
  lemma {:induction false} SourceStaysEmpty(changelog: Book, order: seq<Id>, migrated: seq<bool>, clock: int,
                                            stores: seq<Store>, j: nat, i: nat, source: Id)
    requires IsPass(changelog, order, migrated, clock, stores) && j < i <= |order|
    requires migrated[j] && HeirOf(changelog, order[j], source) && !Attempted(changelog, source)
    ensures Emptied(source, clock, stores[i])
    decreases i
  {
    assert Attempt(changelog, order[i - 1], migrated[i - 1], clock, stores[i - 1], stores[i]);
    if i > j + 1 {
      SourceStaysEmpty(changelog, order, migrated, clock, stores, j, i - 1, source);
    }
  }

  /** Before its own turn no record gains rows. */
  lemma {:induction false} NoRowsBeforeTurn(changelog: Book, order: seq<Id>, migrated: seq<bool>, clock: int,
                                            stores: seq<Store>, k: nat, i: nat, p: Point)
    requires IsPass(changelog, order, migrated, clock, stores) && EachOnce(order) && i <= k < |order|
    ensures Key(order[k], p) in stores[i] ==> Key(order[k], p) in stores[0]
    decreases i
  {
    if i > 0 {
      NoRowsBeforeTurn(changelog, order, migrated, clock, stores, k, i - 1, p);
      assert Attempt(changelog, order[i - 1], migrated[i - 1], clock, stores[i - 1], stores[i]);
      assert order[i - 1] != order[k];
    }
  }

  /** An heir tried after another one of the same source has been migrated gains no past row, and gets its
      marker all the same if nothing raises. */
  lemma LaterHeirGainsNothing(changelog: Book, order: seq<Id>, migrated: seq<bool>, clock: int, stores: seq<Store>,
                              j: nat, k: nat, source: Id, p: Point)
    requires IsPass(changelog, order, migrated, clock, stores) && EachOnce(order) && j < k < |order|
    requires migrated[j] && HeirOf(changelog, order[j], source) && HeirOf(changelog, order[k], source)
    requires !Attempted(changelog, source) && Visible(p, clock)
    requires forall l :: k < l < |order| ==> !HeirOf(changelog, order[l], order[k])
    ensures Key(order[k], p) in stores[|order|] ==> Key(order[k], p) in stores[0]
  {
    SourceStaysEmpty(changelog, order, migrated, clock, stores, j, k, source);
    assert Attempt(changelog, order[k], migrated[k], clock, stores[k], stores[k + 1]);
    NoRowsBeforeTurn(changelog, order, migrated, clock, stores, k, k, p);
    HeirKeepsRow(changelog, order, migrated, clock, stores, k, |order|, p);
  }

  /** What a set marker means, whatever became of the earlier heirs, failed ones included: a past row that the
      heir did not have is under it after the pass if and only if the row is under the source when the
      heir's turn comes; a row of the source that is gone by then was taken by an earlier heir. */
  lemma MarkedHeirGetsWhatIsLeft(changelog: Book, order: seq<Id>, migrated: seq<bool>, clock: int,
                                 stores: seq<Store>, k: nat, source: Id, p: Point)
    requires IsPass(changelog, order, migrated, clock, stores) && EachOnce(order) && k < |order|
    requires migrated[k] && HeirOf(changelog, order[k], source)
    requires forall j :: k < j < |order| ==> !HeirOf(changelog, order[j], order[k])
    requires Visible(p, clock) && Key(order[k], p) !in stores[0]
    ensures Key(order[k], p) in stores[|order|] <==> Key(source, p) in stores[k]
    ensures Key(source, p) in stores[k] ==> stores[|order|][Key(order[k], p)] == stores[k][Key(source, p)]
    ensures Key(source, p) in stores[0] && Key(source, p) !in stores[k] ==>
              exists j :: 0 <= j < k && HeirOf(changelog, order[j], source)
  {
    assert Attempt(changelog, order[k], migrated[k], clock, stores[k], stores[k + 1]);
    NoRowsBeforeTurn(changelog, order, migrated, clock, stores, k, k, p);
    HeirKeepsRow(changelog, order, migrated, clock, stores, k, |order|, p);
    if Key(source, p) in stores[k] {
      assert RowSafe(source, order[k], stores[k], stores[k + 1], {}, p);
    } else if Key(source, p) in stores[0] && forall j :: 0 <= j < k ==> !HeirOf(changelog, order[j], source) {
      SourceKeepsRows(changelog, order, migrated, clock, stores, k, source, p);
    }
  }

  /** What a set marker means, exactly. Where no earlier heir of the source failed, the source is not itself
      being filled and the heir's rows are not moved on, a past row of the source that the heir did not have
      is under the marked heir after the pass if and only if no other heir of the source was tried before. */
  lemma MarkerMeansRowsIffFirstHeir(changelog: Book, order: seq<Id>, migrated: seq<bool>, clock: int,
                                    stores: seq<Store>, k: nat, source: Id, p: Point)
    requires IsPass(changelog, order, migrated, clock, stores) && EachOnce(order) && k < |order|
    requires migrated[k] && HeirOf(changelog, order[k], source) && !Attempted(changelog, source)
    requires forall j :: 0 <= j < k && HeirOf(changelog, order[j], source) ==> migrated[j]
    requires forall j :: k < j < |order| ==> !HeirOf(changelog, order[j], order[k])
    requires Key(source, p) in stores[0] && Visible(p, clock) && Key(order[k], p) !in stores[0]
    ensures Key(order[k], p) in stores[|order|] <==> forall j :: 0 <= j < k ==> !HeirOf(changelog, order[j], source)
  {
    if j :| 0 <= j < k && HeirOf(changelog, order[j], source) {
      LaterHeirGainsNothing(changelog, order, migrated, clock, stores, j, k, source, p);
    } else {
      FirstHeirHoldsTheRows(changelog, order, migrated, clock, stores, k, source, p);
    }
  }

  /** Two pending heirs of one source: in a pass without any failure both are marked, and the second has
      none of the rows. */
  lemma SecondHeirIsMarkedWithoutRows(x: Id, y: Id, z: Id, r: Record, p: Point, v: Value, clock: int)
    requires x != y && y != z && x != z && r.geoInheritedFrom == Some(x) && r.timeseriesMigratedAt.None?
    requires Visible(p, clock)
    ensures var changelog, db, moved := map[y := r, z := r], map[Key(x, p) := v], map[Key(y, p) := v];
            && IsPass(changelog, [y, z], [true, true], clock, [db, moved, moved])
            && Key(z, p) !in moved
  {
    var changelog, db, moved := map[y := r, z := r], map[Key(x, p) := v], map[Key(y, p) := v];
    assert Attempt(changelog, y, true, clock, db, moved);
    assert Attempt(changelog, z, true, clock, moved, moved);
  }
}
