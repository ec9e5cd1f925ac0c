/** Sorting of real series, and the fact that sorting keeps pointwise domination. */
module Sorting {

  predicate Sorted(s: seq<real>) {
    forall i, j :: 0 <= i < j < |s| ==> s[i] <= s[j]
  }

  ghost predicate Dominated(a: seq<real>, b: seq<real>) {
    |a| == |b| && forall i :: 0 <= i < |a| ==> a[i] <= b[i]
  }

  function Insert(x: real, s: seq<real>): (r: seq<real>)
    ensures |r| == |s| + 1
  {
    if s == [] || x <= s[0] then [x] + s else [s[0]] + Insert(x, s[1..])
  }

  function Sort(s: seq<real>): (r: seq<real>)
    ensures |r| == |s|
  {
    if s == [] then [] else Insert(s[0], Sort(s[1..]))
  }

  lemma {:induction false} InsertStaysAbove(x: real, s: seq<real>, lo: real)
    requires lo <= x && forall i :: 0 <= i < |s| ==> lo <= s[i]
    ensures forall i :: 0 <= i < |s| + 1 ==> lo <= Insert(x, s)[i]
  {
    if s != [] && x > s[0] {
      InsertStaysAbove(x, s[1..], lo);
    }
  }

  lemma {:induction false} InsertSorts(x: real, s: seq<real>)
    requires Sorted(s)
    ensures Sorted(Insert(x, s))
  {
    if s != [] && x > s[0] {
      InsertSorts(x, s[1..]);
      InsertStaysAbove(x, s[1..], s[0]);
    }
  }

  lemma {:induction false} InsertPermutes(x: real, s: seq<real>)
    ensures multiset(Insert(x, s)) == multiset(s) + multiset{x}
  {
    if s != [] && x > s[0] {
      InsertPermutes(x, s[1..]);
      assert s == [s[0]] + s[1..];
    }
  }

  lemma {:induction false} SortSorts(s: seq<real>)
    ensures Sorted(Sort(s)) && multiset(Sort(s)) == multiset(s)
  {
    if s != [] {
      SortSorts(s[1..]);
      InsertSorts(s[0], Sort(s[1..]));
      InsertPermutes(s[0], Sort(s[1..]));
      assert s == [s[0]] + s[1..];
    }
  }

  lemma InsertBelowHead(s: seq<real>)
    requires s != [] && Sorted(s)
    ensures Insert(s[0], s[1..]) == s
  {
  }

  lemma ConsDominated(x: real, s: seq<real>, y: real, t: seq<real>)
    requires x <= y && Dominated(s, t)
    ensures Dominated([x] + s, [y] + t)
  {
  }

  lemma TailDominated(s: seq<real>, t: seq<real>)
    requires Dominated(s, t) && s != []
    ensures s[0] <= t[0] && Dominated(s[1..], t[1..])
  {
  }

  lemma TailSorted(s: seq<real>)
    requires Sorted(s) && s != []
    ensures Sorted(s[1..]) && s == [s[0]] + s[1..]
  {
  }

  lemma {:induction false} InsertKeepsDomination(x: real, s: seq<real>, y: real, t: seq<real>)
    requires Sorted(s) && Sorted(t) && x <= y && Dominated(s, t)
    ensures Dominated(Insert(x, s), Insert(y, t))
    decreases |s|
  {
    if s == [] {
      assert Insert(x, s) == [x] && Insert(y, t) == [y];
    } else {
      var s', t' := s[1..], t[1..];
      TailDominated(s, t);
      TailSorted(s);
      TailSorted(t);
      InsertBelowHead(s);
      InsertBelowHead(t);
      hide Sorted, Dominated;
      if x <= s[0] && y <= t[0] {
        ConsDominated(x, s, y, t);
      } else if x <= s[0] {
        InsertKeepsDomination(s[0], s', y, t');
        ConsDominated(x, s, t[0], Insert(y, t'));
      } else if y <= t[0] {
        InsertKeepsDomination(x, s', t[0], t');
        ConsDominated(s[0], Insert(x, s'), y, t);
      } else {
        InsertKeepsDomination(x, s', y, t');
        ConsDominated(s[0], Insert(x, s'), t[0], Insert(y, t'));
      }
    }
  }

  /** If a is pointwise at most b, the sorted a is pointwise at most the sorted b. */
  lemma {:induction false} SortKeepsDomination(a: seq<real>, b: seq<real>)
    requires Dominated(a, b)
    ensures Dominated(Sort(a), Sort(b))
    decreases |a|
  {
    if a != [] {
      SortKeepsDomination(a[1..], b[1..]);
      SortSorts(a[1..]);
      SortSorts(b[1..]);
      InsertKeepsDomination(a[0], Sort(a[1..]), b[0], Sort(b[1..]));
    }
  }

  lemma SortStaysWithin(s: seq<real>, lo: real, hi: real)
    requires forall i :: 0 <= i < |s| ==> lo <= s[i] <= hi
    ensures forall i :: 0 <= i < |s| ==> lo <= Sort(s)[i] <= hi
  {
    SortSorts(s);
    forall i | 0 <= i < |s|
      ensures lo <= Sort(s)[i] <= hi
    {
      assert Sort(s)[i] in multiset(s);
    }
  }
}
