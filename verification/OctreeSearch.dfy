/** The octree agrees with a linear scan: what an insertion adds, and what a search finds. */
module OctreeSearch {
  import opened Common
  import opened Octree

  /** How often q occurs. */
  function Times(os: seq<Obs>, q: Obs): nat { multiset(os)[q] }

  lemma TimesJoin(a: seq<Obs>, b: seq<Obs>, q: Obs)
    ensures Times(a + b, q) == Times(a, q) + Times(b, q)
  {
  }

  lemma TimesNone(q: Obs)
    ensures Times([], q) == 0
  {
  }

  lemma TimesMember(os: seq<Obs>, q: Obs)
    ensures Times(os, q) > 0 <==> q in os
  {
  }

  // ----- what an insertion adds --------------------------------------------------------------------------

  lemma {:induction false} FreshKidsHoldNothing(ks: seq<Tree>)
    requires forall i :: 0 <= i < |ks| ==> All(ks[i]) == []
    ensures AllOf(ks) == []
  {
    hide All;
    if ks != [] {
      FreshKidsHoldNothing(ks[..|ks| - 1]);
    }
  }

  lemma KidsHold(t: Tree)
    ensures AllOf(KidsOf(t)) == AllOf(t.kids)
  {
    hide Cube.Parts, All, KidsOf;
    if t.kids == [] {
      forall i | 0 <= i < |KidsOf(t)| ensures All(KidsOf(t)[i]) == [] { FreshWellFormed(t.cube.Parts()[i]); }
      FreshKidsHoldNothing(KidsOf(t));
    }
  }

  /** An insertion adds its copies of the observation and nothing else. */
  lemma {:induction false} InsertedCounts(t: Tree, o: Obs, depth: nat, lim: Limits, q: Obs)
    ensures Times(All(Inserted(t, o, depth, lim)), q)
         == Times(All(t), q) + (if q == o then Copies(t, o, depth, lim) else 0)
    decreases Max(0, lim.maxDepth - depth), t
  {
    hide Cube.Contains, Cube.Parts, AddTo, Listed, KidsOf, Times, AllOf;
    if t.cube.Contains(o) {
      var r := Inserted(t, o, depth, lim);
      TimesJoin(Listed(r.obs), AllOf(r.kids), q);
      TimesJoin(Listed(t.obs), AllOf(t.kids), q);
      if t.kids == [] && HasRoom(t, depth, lim) {
        AddedTimes(t.obs, o, q);
      } else {
        KidsHold(t);
        KidsAre(t);
        InsertedAllCounts(KidsOf(t), o, depth + 1, lim, q);
      }
    }
  }

  lemma AddedTimes(bs: seq<Bucket>, o: Obs, q: Obs)
    ensures Times(Listed(AddTo(bs, o)), q) == Times(Listed(bs), q) + (if q == o then 1 else 0)
  {
    hide AddTo, Listed;
    AddToCounts(bs, o);
  }

  lemma {:induction false} InsertedAllCounts(ks: seq<Tree>, o: Obs, depth: nat, lim: Limits, q: Obs)
    ensures Times(AllOf(InsertedAll(ks, o, depth, lim)), q)
         == Times(AllOf(ks), q) + (if q == o then CopiesIn(ks, o, depth, lim) else 0)
    decreases Max(0, lim.maxDepth - depth), ks
  {
    hide Inserted, Copies, Times, All;
    if ks != [] {
      var n := |ks| - 1;
      InsertedAllCounts(ks[..n], o, depth, lim, q);
      InsertedCounts(ks[n], o, depth, lim, q);
      var r := InsertedAll(ks, o, depth, lim);
      assert r[..n] == InsertedAll(ks[..n], o, depth, lim);
      TimesJoin(AllOf(r[..n]), All(r[n]), q);
      TimesJoin(AllOf(ks[..n]), All(ks[n]), q);
    }
  }

  lemma {:induction false} CopiesAt(ks: seq<Tree>, o: Obs, depth: nat, lim: Limits, i: nat)
    requires i < |ks|
    ensures CopiesIn(ks, o, depth, lim) >= Copies(ks[i], o, depth, lim)
    ensures (forall k :: 0 <= k < |ks| && k != i ==> Copies(ks[k], o, depth, lim) == 0) ==>
              CopiesIn(ks, o, depth, lim) == Copies(ks[i], o, depth, lim)
    decreases |ks|
  {
    hide Copies;
    var n := |ks| - 1;
    if i < n {
      CopiesAt(ks[..n], o, depth, lim, i);
      assert forall k :: 0 <= k < n ==> ks[..n][k] == ks[k];
    } else if forall k :: 0 <= k < |ks| && k != i ==> Copies(ks[k], o, depth, lim) == 0 {
      NoCopies(ks[..n], o, depth, lim);
    }
  }

  lemma {:induction false} NoCopies(ks: seq<Tree>, o: Obs, depth: nat, lim: Limits)
    requires forall k :: 0 <= k < |ks| ==> Copies(ks[k], o, depth, lim) == 0
    ensures CopiesIn(ks, o, depth, lim) == 0
  {
    hide Copies;
    if ks != [] { NoCopies(ks[..|ks| - 1], o, depth, lim); }
  }

  lemma {:induction false} CopiesAtTwo(ks: seq<Tree>, o: Obs, depth: nat, lim: Limits, i: nat, j: nat)
    requires i < j < |ks|
    ensures CopiesIn(ks, o, depth, lim) >= Copies(ks[i], o, depth, lim) + Copies(ks[j], o, depth, lim)
    decreases |ks|
  {
    hide Copies;
    var n := |ks| - 1;
    if j < n {
      CopiesAtTwo(ks[..n], o, depth, lim, i, j);
    } else {
      CopiesAt(ks[..n], o, depth, lim, i);
    }
  }

  /** The observation lies on no centre plane of the divided nodes around it. */
  ghost predicate OffPlanes(t: Tree, o: Obs)
    decreases t
  {
    t.cube.Contains(o) && t.kids != [] ==>
      !t.cube.Halved(o) && forall i :: 0 <= i < |t.kids| ==> OffPlanes(t.kids[i], o)
  }

  /** An observation is stored at all exactly when it lies in the cube. */
  lemma {:induction false} StoredInside(t: Tree, o: Obs, depth: nat, lim: Limits)
    requires WellFormed(t)
    ensures Copies(t, o, depth, lim) >= 1 <==> t.cube.Contains(o)
    decreases Max(0, lim.maxDepth - depth), t
  {
    hide Cube.Contains, Cube.Parts, Cube.Halved, AllInside, KidsOf, CopiesIn;
    if t.cube.Contains(o) && !(t.kids == [] && HasRoom(t, depth, lim)) {
      KidsDivided(t);
      KidsAre(t);
      var i, j := PartsCover(t.cube, o);
      assert KidsOf(t)[i].cube == t.cube.Parts()[i];
      StoredInside(KidsOf(t)[i], o, depth + 1, lim);
      CopiesAt(KidsOf(t), o, depth + 1, lim, i);
    }
  }

  /** It is stored once exactly when it lies on no centre plane of the divided nodes around it. */
  lemma {:induction false} StoredOnce(t: Tree, o: Obs, depth: nat, lim: Limits)
    requires WellFormed(t) && t.cube.Contains(o)
    ensures Copies(t, o, depth, lim) == 1 <==> OffPlanes(Inserted(t, o, depth, lim), o)
    decreases Max(0, lim.maxDepth - depth), t
  {
    hide Cube.Contains, Cube.Parts, Cube.Halved, AllInside, KidsOf, CopiesIn, AddTo, InsertedAll, Listed;
    if !(t.kids == [] && HasRoom(t, depth, lim)) {
      KidsDivided(t);
      KidsAre(t);
      var ks := KidsOf(t);
      var rs := InsertedAll(ks, o, depth + 1, lim);
      InsertedAllAt(ks, o, depth + 1, lim);
      var i, j := PartsCover(t.cube, o);
      forall k | 0 <= k < 8 ensures Copies(ks[k], o, depth + 1, lim) >= 1 <==> t.cube.Parts()[k].Contains(o) {
        StoredInside(ks[k], o, depth + 1, lim);
      }
      if t.cube.Halved(o) {
        CopiesAtTwo(ks, o, depth + 1, lim, Min(i, j), Max(i, j));
      } else {
        CopiesAt(ks, o, depth + 1, lim, i);
        StoredOnce(ks[i], o, depth + 1, lim);
        forall k | 0 <= k < 8 && k != i ensures OffPlanes(rs[k], o) {
          assert ks[k].cube == t.cube.Parts()[k];
          NotEntered(ks[k], o, depth + 1, lim);
        }
      }
    }
  }

  lemma NotEntered(t: Tree, o: Obs, depth: nat, lim: Limits)
    requires !t.cube.Contains(o)
    ensures Inserted(t, o, depth, lim) == t && OffPlanes(t, o)
  {
    hide Cube.Contains;
  }

  lemma {:induction false} InsertedAllAt(ks: seq<Tree>, o: Obs, depth: nat, lim: Limits)
    ensures forall i :: 0 <= i < |ks| ==> InsertedAll(ks, o, depth, lim)[i] == Inserted(ks[i], o, depth, lim)
    decreases |ks|
  {
    hide Inserted;
    if ks != [] { InsertedAllAt(ks[..|ks| - 1], o, depth, lim); }
  }

  // ----- what a search finds -----------------------------------------------------------------------------

  /** Everything below a node lies in the node's cube. */
  lemma {:induction false} AllInCube(t: Tree)
    requires WellFormed(t)
    ensures AllInside(All(t), t.cube)
    decreases t
  {
    hide Cube.Contains, Cube.Parts, Listed, AllOf;
    if t.kids != [] { AllOfInCube(t.kids, t.cube); }
    assert t.kids == [] ==> AllOf(t.kids) == [] by { NothingBelow(); }
  }

  lemma NothingBelow()
    ensures AllOf([]) == []
  {
  }

  lemma {:induction false} AllOfInCube(ks: seq<Tree>, c: Cube)
    requires |ks| <= 8 && Divided(ks, c)
    ensures AllInside(AllOf(ks), c)
    decreases ks
  {
    hide WellFormed, Cube.Contains, Cube.Parts, All;
    if ks != [] {
      var n := |ks| - 1;
      assert Divided(ks[..n], c);
      AllOfInCube(ks[..n], c);
      AllInCube(ks[n]);
      forall i | 0 <= i < |All(ks[n])| ensures c.Contains(All(ks[n])[i]) { PartsInside(c, n, All(ks[n])[i]); }
    }
  }

  lemma SquareOrder(a: real, b: real)
    requires 0.0 <= a <= b
    ensures Square(a) <= Square(b) && Square(-a) == Square(a)
  {
    assert a * a <= a * b <= b * b;
  }

  lemma AxisNear(v: real, c: real, h: real, p: real)
    requires Distance(c, p) <= h
    ensures Outside(v, c, h) <= Square(p - v)
  {
    if v < c - h {
      SquareOrder((c - h) - v, p - v);
      assert v - (c - h) == -((c - h) - v);
    } else if v > c + h {
      SquareOrder(v - (c + h), v - p);
      assert p - v == -(v - p);
      SquareOrder(v - p, v - p);
    } else {
      assert (p - v) * (p - v) >= 0.0;
    }
  }

  /** A cube that holds a point of the sphere is never pruned. */
  lemma NotPruned(c: Cube, s: Sphere, o: Obs)
    requires c.Contains(o) && s.Holds(o)
    ensures Overlaps(c, s)
  {
    AxisNear(s.x, c.cx, c.half, o.x);
    AxisNear(s.y, c.cy, c.half, o.y);
    AxisNear(s.z, c.cz, c.half, o.z);
    hide Outside, Square;
  }

  lemma {:induction false} NearCounts(os: seq<Obs>, s: Sphere, q: Obs)
    ensures Times(Near(os, s), q) == if s.Holds(q) then Times(os, q) else 0
  {
    hide Sphere.Holds;
    if os != [] {
      var n := |os| - 1;
      NearCounts(os[..n], s, q);
      Snoc(os);
    }
  }

  /** Pruned or not, a search finds every copy of what lies in the sphere, and nothing else. */
  lemma {:induction false} HitsAreScan(t: Tree, s: Sphere, q: Obs)
    requires WellFormed(t)
    ensures Times(Hits(t, s), q) == if s.Holds(q) then Times(All(t), q) else 0
    decreases t
  {
    hide Cube.Contains, Cube.Parts, Sphere.Holds, Listed, Near, Times, HitsAll, AllOf, Overlaps;
    if !Overlaps(t.cube, s) {
      TimesNone(q);
      AllInCube(t);
      TimesMember(All(t), q);
      if q in All(t) && s.Holds(q) { NotPruned(t.cube, s, q); }
    } else {
      TimesJoin(Near(Listed(t.obs), s), HitsAll(t.kids, s), q);
      TimesJoin(Listed(t.obs), AllOf(t.kids), q);
      NearCounts(Listed(t.obs), s, q);
      if t.kids == [] {
        NothingToSearch(s);
        TimesNone(q);
      } else {
        HitsAllAreScan(t.kids, t.cube, s, q);
      }
    }
  }

  lemma NothingToSearch(s: Sphere)
    ensures HitsAll([], s) == [] && AllOf([]) == []
  {
  }

  lemma {:induction false} HitsAllAreScan(ks: seq<Tree>, c: Cube, s: Sphere, q: Obs)
    requires |ks| <= 8 && Divided(ks, c)
    ensures Times(HitsAll(ks, s), q) == if s.Holds(q) then Times(AllOf(ks), q) else 0
    decreases ks
  {
    hide WellFormed, Cube.Contains, Cube.Parts, Sphere.Holds, Times, Hits, All;
    if ks == [] {
      TimesNone(q);
    } else {
      var n := |ks| - 1;
      assert Divided(ks[..n], c);
      HitsAllAreScan(ks[..n], c, s, q);
      HitsAreScan(ks[n], s, q);
      TimesJoin(HitsAll(ks[..n], s), Hits(ks[n], s), q);
      TimesJoin(AllOf(ks[..n]), All(ks[n]), q);
    }
  }
}
