/**
 The time-series store of one bucket and measurement, and the three operations the migrator issues
 on it (classes/InfluxDBSegmentMigrator.py). A query sees the points from the epoch to its own clock.
 */
module SegmentStore {
  import opened Changelog

  datatype Point = Point(time: int, field: string)
  datatype Value = Number(number: real) | Text(text: string) | Flag(flag: bool)
  datatype Key = Key(segment: Id, point: Point)
  type Store = map<Key, Value>

  predicate Visible(p: Point, clock: int) {
    0 <= p.time < clock
  }

  /** The points of a segment that a query at `clock` sees. */
  function PointsOf(db: Store, segment: Id, clock: int): set<Point> {
    set k | k in db && k.segment == segment && Visible(k.point, clock) :: k.point
  }

  /** Writes the chosen points of `source` back under `target`. */
  function Copied(db: Store, source: Id, target: Id, points: set<Point>): Store
    requires forall p :: p in points ==> Key(source, p) in db
  {
    db + (map p | p in points :: Key(target, p) := db[Key(source, p)])
  }

  function Without(db: Store, segment: Id, points: set<Point>): Store {
    map k | k in db && !(k.segment == segment && k.point in points) :: db[k]
  }

  lemma CopiedAt(db: Store, source: Id, target: Id, points: set<Point>)
    requires forall p :: p in points ==> Key(source, p) in db
    ensures var r := Copied(db, source, target, points);
            && (forall k :: k in r <==> k in db || (k.segment == target && k.point in points))
            && (forall k :: k in r ==>
                  r[k] == if k.segment == target && k.point in points then db[Key(source, k.point)] else db[k])
  {
    var m := map p | p in points :: Key(target, p) := db[Key(source, p)];
    assert forall p :: p in points ==> Key(target, p) in m;
    forall k | k in m
      ensures k.segment == target && k.point in points && m[k] == db[Key(source, k.point)]
    {
    }
    forall k: Key | k.segment == target && k.point in points
      ensures k in m
    {
      assert k == Key(target, k.point);
    }
  }

  lemma PointsGrowWithClock(db: Store, segment: Id, early: int, late: int)
    requires early <= late
    ensures PointsOf(db, segment, early) <= PointsOf(db, segment, late)
  {
  }

  lemma SubsetCardinality<T>(a: set<T>, b: set<T>)
    requires a <= b
    ensures |a| <= |b|
  {
    if a != {} {
      var x :| x in a;
      SubsetCardinality(a - {x}, b - {x});
    }
  }

  /** A completed re-tag leaves at least as many rows under the new id as were counted under the old. */
  lemma RetaggedCountSuffices(oldId: Id, newId: Id, db: Store, clock: int, now: int)
    requires oldId != newId && clock <= now
    ensures var copied := PointsOf(db, oldId, now);
            |PointsOf(Copied(db, oldId, newId, copied), newId, now)| >= |PointsOf(db, oldId, clock)|
  {
    var copied := PointsOf(db, oldId, now);
    CopiedAt(db, oldId, newId, copied);
    var news := PointsOf(Copied(db, oldId, newId, copied), newId, now);
    forall p | p in copied
      ensures p in news
    {
      assert Key(newId, p) in Copied(db, oldId, newId, copied);
    }
    PointsGrowWithClock(db, oldId, clock, now);
    SubsetCardinality(PointsOf(db, oldId, clock), news);
  }
}
