/** A stable sort by an arbitrary order, standing for Python's `sorted` and `list.sort`. */
module Sorting {
  import opened Common

  ghost predicate TotalPreorder<T(!new)>(le: (T, T) -> bool) {
    && (forall a, b :: le(a, b) || le(b, a))
    && (forall a, b, c :: le(a, b) && le(b, c) ==> le(a, c))
  }

  ghost predicate Sorted<T>(s: seq<T>, le: (T, T) -> bool) {
    forall i, j :: 0 <= i < j < |s| ==> le(s[i], s[j])
  }

  /** x goes behind everything that is not above it. */
  function Insert<T>(s: seq<T>, x: T, le: (T, T) -> bool): (r: seq<T>)
    ensures |r| == |s| + 1
  {
    if s == [] || le(s[|s| - 1], x) then s + [x]
    else Insert(s[..|s| - 1], x, le) + [s[|s| - 1]]
  }

  function Sort<T>(s: seq<T>, le: (T, T) -> bool): (r: seq<T>)
    ensures |r| == |s|
  {
    if s == [] then [] else Insert(Sort(s[..|s| - 1], le), s[|s| - 1], le)
  }

  lemma {:induction false} InsertMembers<T>(s: seq<T>, x: T, le: (T, T) -> bool)
    ensures forall y :: y in Insert(s, x, le) <==> y in s || y == x
    ensures Distinct(s) && x !in s ==> Distinct(Insert(s, x, le))
    decreases |s|
  {
    if s != [] && !le(s[|s| - 1], x) {
      var n := |s| - 1;
      Snoc(s);
      InsertMembers(s[..n], x, le);
      if Distinct(s) && x !in s {
        assert s[n] !in s[..n] && s[n] !in Insert(s[..n], x, le);
      }
    }
  }

  lemma SortedSnoc<T>(s: seq<T>, x: T, le: (T, T) -> bool)
    requires Sorted(s, le) && forall y :: y in s ==> le(y, x)
    ensures Sorted(s + [x], le)
  {
    var r := s + [x];
    forall i, j | 0 <= i < j < |r| ensures le(r[i], r[j]) {
      assert r[i] in s;
    }
  }

  lemma SortedLast<T(!new)>(s: seq<T>, le: (T, T) -> bool)
    requires TotalPreorder(le) && Sorted(s, le) && s != []
    ensures Sorted(s[..|s| - 1], le) && forall y :: y in s ==> le(y, s[|s| - 1])
  {
    forall y | y in s ensures le(y, s[|s| - 1]) {
      var i :| 0 <= i < |s| && s[i] == y;
      assert le(y, y);
    }
  }

  lemma {:induction false} InsertSorts<T(!new)>(s: seq<T>, x: T, le: (T, T) -> bool)
    requires TotalPreorder(le) && Sorted(s, le)
    ensures Sorted(Insert(s, x, le), le)
    decreases |s|
  {
    hide Sorted;
    if s == [] {
      OneSorted(x, le);
      assert s + [x] == [x];
    } else {
      SortedLast(s, le);
      var n := |s| - 1;
      if le(s[n], x) {
        SortedSnoc(s, x, le);
      } else {
        InsertSorts(s[..n], x, le);
        InsertMembers(s[..n], x, le);
        assert le(x, s[n]);
        forall y | y in s[..n] ensures le(y, s[n]) { assert y in s; }
        SortedSnoc(Insert(s[..n], x, le), s[n], le);
      }
    }
  }

  lemma OneSorted<T>(x: T, le: (T, T) -> bool)
    ensures Sorted([x], le)
  {
  }

  lemma {:induction false} InsertCounts<T>(s: seq<T>, x: T, le: (T, T) -> bool)
    ensures multiset(Insert(s, x, le)) == multiset(s) + multiset{x}
    decreases |s|
  {
    if s != [] && !le(s[|s| - 1], x) {
      Snoc(s);
      InsertCounts(s[..|s| - 1], x, le);
    }
  }

  lemma EmptySorted<T>(le: (T, T) -> bool)
    ensures Sorted([], le)
  {
  }

  /** The result is in order and holds the same elements, each as often. */
  lemma {:induction false} SortSorts<T(!new)>(s: seq<T>, le: (T, T) -> bool)
    requires TotalPreorder(le)
    ensures Sorted(Sort(s, le), le)
    ensures multiset(Sort(s, le)) == multiset(s)
  {
    hide Sorted, Insert;
    if s == [] {
      EmptySorted(le);
    } else {
      var n := |s| - 1;
      Snoc(s);
      SortSorts(s[..n], le);
      InsertSorts(Sort(s[..n], le), s[n], le);
      InsertCounts(Sort(s[..n], le), s[n], le);
    }
  }

  /** Sorting keeps the members, and keeps them apart. */
  lemma {:induction false} SortMembers<T>(s: seq<T>, le: (T, T) -> bool)
    ensures forall y :: y in Sort(s, le) <==> y in s
    ensures Distinct(s) ==> Distinct(Sort(s, le))
  {
    if s != [] {
      var n := |s| - 1;
      Snoc(s);
      SortMembers(s[..n], le);
      InsertMembers(Sort(s[..n], le), s[n], le);
      assert Distinct(s) ==> s[n] !in s[..n];
    }
  }

  // ----- stability ---------------------------------------------------------------------------------------

  /** The elements that rank with p, in order. */
  function Ties<T>(s: seq<T>, p: T, le: (T, T) -> bool): seq<T> {
    if s == [] then []
    else
      var last := s[|s| - 1];
      Ties(s[..|s| - 1], p, le) + (if le(last, p) && le(p, last) then [last] else [])
  }

  lemma TiesSnoc<T>(s: seq<T>, x: T, p: T, le: (T, T) -> bool)
    ensures Ties(s + [x], p, le) == Ties(s, p, le) + (if le(x, p) && le(p, x) then [x] else [])
  {
    assert (s + [x])[..|s|] == s;
  }

  /** An element goes behind all that rank with it. */
  lemma {:induction false} InsertTies<T(!new)>(s: seq<T>, x: T, p: T, le: (T, T) -> bool)
    requires TotalPreorder(le)
    ensures Ties(Insert(s, x, le), p, le) == Ties(s + [x], p, le)
    decreases |s|
  {
    if s != [] && !le(s[|s| - 1], x) {
      var n := |s| - 1;
      var y := s[n];
      Snoc(s);
      InsertTies(s[..n], x, p, le);
      TiesSnoc(Insert(s[..n], x, le), y, p, le);
      TiesSnoc(s[..n], x, p, le);
      TiesSnoc(s[..n], y, p, le);
      TiesSnoc(s, x, p, le);
      assert !(le(x, p) && le(p, x) && le(y, p) && le(p, y));
    }
  }

  /** The sort is stable: elements of equal rank keep the order they had. */
  lemma {:induction false} SortStable<T(!new)>(s: seq<T>, p: T, le: (T, T) -> bool)
    requires TotalPreorder(le)
    ensures Ties(Sort(s, le), p, le) == Ties(s, p, le)
  {
    hide TotalPreorder;
    if s != [] {
      var n := |s| - 1;
      Snoc(s);
      SortStable(s[..n], p, le);
      InsertTies(Sort(s[..n], le), s[n], p, le);
      TiesSnoc(Sort(s[..n], le), s[n], p, le);
    }
  }
}
