/** How often the octree stores one observation, over insertions and prunings. */
module IndexCopies {
  import opened Common
  import opened Octree
  import opened OctreeSearch
  import opened IndexModel

  // ----- off the centre planes: exactly once -----------------------------------------------------------------

  /** Nodes are only ever divided further. */
  lemma {:induction false} OffPlanesEarlier(t: Tree, o: Obs, depth: nat, lim: Limits, q: Obs)
    requires OffPlanes(Inserted(t, o, depth, lim), q)
    ensures OffPlanes(t, q)
    decreases t
  {
    hide Cube.Contains, Cube.Parts, Cube.Halved, AddTo, InsertedAll;
    KidsAre(t);
    if t.cube.Contains(o) && t.kids != [] && t.cube.Contains(q) {
      InsertedAllAt(t.kids, o, depth + 1, lim);
      var r := Inserted(t, o, depth, lim);
      forall i | 0 <= i < |t.kids| ensures OffPlanes(t.kids[i], q) {
        assert OffPlanes(r.kids[i], q);
        OffPlanesEarlier(t.kids[i], o, depth + 1, lim, q);
      }
    }
  }

  /** What stays off the planes of the grown tree gains one copy with each insertion of it. */
  lemma {:induction false} InsertListOnce(t: Tree, os: seq<Obs>, lim: Limits, q: Obs)
    requires WellFormed(t) && t.cube.Contains(q) && OffPlanes(InsertList(t, os, lim), q)
    ensures Times(All(InsertList(t, os, lim)), q) == Times(All(t), q) + Times(os, q)
  {
    hide Inserted, WellFormed, OffPlanes, All, Cube.Contains, Copies, Times;
    if os == [] {
      TimesNone(q);
    } else {
      var n := |os| - 1;
      var before := InsertList(t, os[..n], lim);
      InsertListMembers(t, os[..n], lim);
      OffPlanesEarlier(before, os[n], 0, lim, q);
      InsertListOnce(t, os[..n], lim, q);
      InsertedCounts(before, os[n], 0, lim, q);
      TimesLast(os, q);
      if os[n] == q { StoredOnce(before, q, 0, lim); }
    }
  }

  lemma TimesLast(os: seq<Obs>, q: Obs)
    requires os != []
    ensures Times(os, q) == Times(os[..|os| - 1], q) + (if os[|os| - 1] == q then 1 else 0)
  {
    Snoc(os);
  }

  lemma {:induction false} SinceCounts(os: seq<Obs>, cutoff: real, q: Obs)
    ensures Times(Since(os, cutoff), q) == if q.timestamp >= cutoff then Times(os, q) else 0
  {
    hide Times;
    if os == [] {
      TimesNone(q);
    } else {
      var n := |os| - 1;
      SinceCounts(os[..n], cutoff, q);
      TimesLast(os, q);
      TimesJoin(Since(os[..n], cutoff), if os[n].timestamp >= cutoff then [os[n]] else [], q);
      TimesLast([os[n]], q);
      TimesNone(q);
      assert [os[n]][..0] == [];
    }
  }

  /** Pruning keeps the number of copies of what lies on no centre plane of the rebuilt tree. */
  lemma PruneKeepsCopies(i: Index, cutoff: real, lim: Limits, world: Cube, q: Obs)
    requires Good(i, world) && q in All(i.root) && q.timestamp >= cutoff
    requires OffPlanes(Pruned(i, cutoff, lim).root, q)
    ensures Times(All(Pruned(i, cutoff, lim).root), q) == Times(All(i.root), q)
  {
    hide InsertList, WellFormed, OffPlanes, All, Cube.Contains, Times, Fresh, Since;
    StoredInWorld(i, world, q);
    FreshWellFormed(world);
    FreshCube(world);
    InsertListOnce(Fresh(world), Since(All(i.root), cutoff), lim, q);
    SinceCounts(All(i.root), cutoff, q);
    TimesNone(q);
  }

  ghost predicate OnlyInserts(ops: seq<Op>) { forall k :: 0 <= k < |ops| ==> ops[k].Insert? }

  /** After insertions alone, a stored observation on no centre plane of a divided node is stored exactly once. */
  lemma {:induction false} InsertsStoreOnce(world: Cube, ops: seq<Op>, lim: Limits, q: Obs)
    requires OnlyInserts(ops)
    requires q in All(Run(world, ops, lim).root) && OffPlanes(Run(world, ops, lim).root, q)
    ensures Times(All(Run(world, ops, lim).root), q) == 1
  {
    hide Inserted, WellFormed, OffPlanes, All, Cube.Contains, Copies, Times, KeyOf;
    if ops == [] {
      FreshWellFormed(world);
    } else {
      var n := |ops| - 1;
      var before, o := Run(world, ops[..n], lim), ops[n].o;
      RunAgrees(world, ops[..n], lim);
      if KeyOf(o) in before.seen {
        InsertsStoreOnce(world, ops[..n], lim, q);
      } else {
        OffPlanesEarlier(before.root, o, 0, lim, q);
        InsertedCounts(before.root, o, 0, lim, q);
        InsertedMembers(before.root, o, 0, lim);
        if q == o {
          assert o !in AsScan(before).stored;
          TimesMember(All(before.root), q);
          StoredOnce(before.root, o, 0, lim);
        } else {
          InsertsStoreOnce(world, ops[..n], lim, q);
        }
      }
    }
  }

  // ----- on a centre plane: pruning multiplies -------------------------------------------------------------------

  /** The root passes every further observation on to children. */
  predicate Passes(t: Tree, lim: Limits) { t.kids != [] || !HasRoom(t, 0, lim) }

  lemma HalvedTwice(t: Tree, q: Obs, lim: Limits)
    requires WellFormed(t) && Passes(t, lim) && t.cube.Contains(q) && t.cube.Halved(q)
    ensures Copies(t, q, 0, lim) >= 2
  {
    hide Cube.Contains, Cube.Parts, Cube.Halved, AllInside, KidsOf, CopiesIn;
    KidsDivided(t);
    var i, j := PartsCover(t.cube, q);
    var ks := KidsOf(t);
    assert ks[i].cube == t.cube.Parts()[i] && ks[j].cube == t.cube.Parts()[j];
    StoredInside(ks[i], q, 1, lim);
    StoredInside(ks[j], q, 1, lim);
    CopiesAtTwo(ks, q, 1, lim, Min(i, j), Max(i, j));
  }

  lemma StillPasses(t: Tree, o: Obs, lim: Limits)
    requires WellFormed(t) && Passes(t, lim)
    ensures Passes(Inserted(t, o, 0, lim), lim)
  {
    hide Cube.Contains, Cube.Parts, AllInside, AddTo, Divided;
    KidsAre(t);
    if t.kids == [] && t.cube.Contains(o) {
      assert |InsertedAll(KidsOf(t), o, 1, lim)| == 8;
    }
  }

  /** Each insertion of an observation on the root's centre plane then adds at least two copies. */
  lemma {:induction false} DoublesWhenFull(t: Tree, os: seq<Obs>, lim: Limits, q: Obs)
    requires WellFormed(t) && Passes(t, lim) && t.cube.Contains(q) && t.cube.Halved(q)
    ensures Passes(InsertList(t, os, lim), lim)
    ensures Times(All(InsertList(t, os, lim)), q) >= Times(All(t), q) + 2 * Times(os, q)
  {
    hide Inserted, WellFormed, All, Cube.Contains, Cube.Halved, Copies, Times, Passes;
    if os == [] {
      TimesNone(q);
    } else {
      var n := |os| - 1;
      var before := InsertList(t, os[..n], lim);
      InsertListMembers(t, os[..n], lim);
      DoublesWhenFull(t, os[..n], lim, q);
      StillPasses(before, os[n], lim);
      InsertedCounts(before, os[n], 0, lim, q);
      TimesLast(os, q);
      if os[n] == q { HalvedTwice(before, q, lim); }
    }
  }

  lemma {:induction false} InsertListJoin(t: Tree, a: seq<Obs>, b: seq<Obs>, lim: Limits)
    ensures InsertList(t, a + b, lim) == InsertList(InsertList(t, a, lim), b, lim)
    decreases |b|
  {
    hide Inserted;
    if b == [] {
      assert a + b == a;
    } else {
      var n := |b| - 1;
      InsertListJoin(t, a, b[..n], lim);
      assert (a + b)[..|a| + n] == a + b[..n];
    }
  }

  ghost predicate DistinctEntities(os: seq<Obs>) {
    forall i, j :: 0 <= i < j < |os| ==> os[i].entityId != os[j].entityId
  }

  ghost predicate DistinctKeys(os: seq<Obs>) {
    forall i, j :: 0 <= i < j < |os| ==> KeyOf(os[i]) != KeyOf(os[j])
  }

  /** One bucket for each observation, in order. */
  ghost predicate OneEach(bs: seq<Bucket>, os: seq<Obs>) {
    |bs| == |os| && forall i :: 0 <= i < |bs| ==> bs[i] == Bucket(os[i].entityId, [os[i]])
  }

  lemma {:induction false} OneEachListed(bs: seq<Bucket>, os: seq<Obs>)
    requires OneEach(bs, os)
    ensures Listed(bs) == os
    decreases |bs|
  {
    if bs != [] {
      Snoc(os);
      OneEachListed(bs[..|bs| - 1], os[..|os| - 1]);
    }
  }

  /** Insertion of a list into a node at some depth. */
  function InsertedList(t: Tree, os: seq<Obs>, depth: nat, lim: Limits): Tree {
    if os == [] then t else Inserted(InsertedList(t, os[..|os| - 1], depth, lim), os[|os| - 1], depth, lim)
  }

  lemma {:induction false} AtTheRoot(t: Tree, os: seq<Obs>, lim: Limits)
    ensures InsertedList(t, os, 0, lim) == InsertList(t, os, lim)
  {
    hide Inserted;
    if os != [] { AtTheRoot(t, os[..|os| - 1], lim); }
  }

  /** Up to its capacity, observations of different entities stay in a leaf, in order. */
  lemma {:induction false} LeafFills(c: Cube, os: seq<Obs>, depth: nat, lim: Limits)
    requires depth < lim.maxDepth && |os| <= lim.maxPerLeaf && DistinctEntities(os)
    requires forall o :: o in os ==> c.Contains(o)
    ensures var t := InsertedList(Fresh(c), os, depth, lim); t.cube == c && t.kids == [] && OneEach(t.obs, os)
    decreases |os|
  {
    hide Cube.Contains, Place;
    if os != [] {
      var n := |os| - 1;
      Snoc(os);
      LeafFills(c, os[..n], depth, lim);
      var t := InsertedList(Fresh(c), os[..n], depth, lim);
      forall j | 0 <= j < |t.obs| ensures t.obs[j].entityId != os[n].entityId {
        assert t.obs[j] == Bucket(os[j].entityId, [os[j]]);
      }
    }
  }

  function KeySet(os: seq<Obs>): set<Key> { set o | o in os :: KeyOf(o) }

  lemma KeySetNext(os: seq<Obs>, o: Obs)
    ensures KeySet(os + [o]) == KeySet(os) + {KeyOf(o)} && KeySet([]) == {}
  {
    hide KeyOf;
    assert forall x :: x in os + [o] <==> x in os || x == o;
  }

  lemma NewKey(os: seq<Obs>, o: Obs)
    requires DistinctKeys(os + [o])
    ensures DistinctKeys(os) && KeyOf(o) !in KeySet(os)
  {
    hide KeyOf;
    var all := os + [o];
    assert forall i :: 0 <= i < |os| ==> all[i] == os[i];
    forall x | x in os ensures KeyOf(x) != KeyOf(o) {
      var i :| 0 <= i < |os| && os[i] == x;
      assert KeyOf(all[i]) != KeyOf(all[|os|]);
    }
  }

  /** Observations with different keys are all inserted. */
  lemma {:induction false} AllInserted(world: Cube, os: seq<Obs>, lim: Limits)
    requires DistinctKeys(os)
    ensures Run(world, Inserts(os), lim) == Index(InsertList(Fresh(world), os, lim), KeySet(os))
    decreases |os|
  {
    hide KeyOf, Inserted, Fresh, KeySet, DistinctKeys, Pruned;
    if os == [] {
      NoneInserted(world, lim);
    } else {
      var n := |os| - 1;
      Snoc(os);
      NewKey(os[..n], os[n]);
      KeySetNext(os[..n], os[n]);
      AllInserted(world, os[..n], lim);
      assert Inserts(os)[..n] == Inserts(os[..n]);
    }
  }

  lemma NoneInserted(world: Cube, lim: Limits)
    ensures Run(world, Inserts([]), lim) == Index(InsertList(Fresh(world), [], lim), KeySet([]))
  {
    assert KeySet([]) == {};
  }

  lemma {:induction false} SinceJoin(a: seq<Obs>, b: seq<Obs>, cutoff: real)
    ensures Since(a + b, cutoff) == Since(a, cutoff) + Since(b, cutoff)
    decreases |b|
  {
    if b == [] {
      assert a + b == a;
    } else {
      var n := |b| - 1;
      assert (a + b)[..|a| + n] == a + b[..n];
      SinceJoin(a, b[..n], cutoff);
    }
  }

  lemma {:induction false} SinceRecent(os: seq<Obs>, cutoff: real)
    requires forall o :: o in os ==> o.timestamp >= cutoff
    ensures Since(os, cutoff) == os
  {
    if os != [] {
      Snoc(os);
      SinceRecent(os[..|os| - 1], cutoff);
    }
  }

  lemma PassedOn(t: Tree, q: Obs, lim: Limits)
    requires Passes(t, lim)
    ensures Inserted(t, q, 0, lim).obs == t.obs
  {
    hide Cube.Contains, Cube.Parts, AddTo, InsertedAll;
  }

  lemma FullPasses(t: Tree, os: seq<Obs>, lim: Limits)
    requires lim.maxDepth >= 1 && OneEach(t.obs, os) && |os| == lim.maxPerLeaf
    ensures Passes(t, lim)
  {
  }

  /**
    A pruning that removes nothing can multiply what is stored, whatever the capacity of a leaf: once as
    many entities as fit are stored at the root, an observation on a centre plane of the world has at least
    two copies after its insertion, and the pruning inserts each of these again, for at least two each.
   */
  lemma PruneMultiplies(world: Cube, fillers: seq<Obs>, q: Obs, lim: Limits, cutoff: real)
    requires lim.maxDepth >= 1 && |fillers| == lim.maxPerLeaf && DistinctEntities(fillers)
    requires DistinctKeys(fillers + [q])
    requires forall o :: o in fillers + [q] ==> world.Contains(o) && o.timestamp >= cutoff
    requires world.Halved(q)
    ensures var i := Run(world, Inserts(fillers + [q]), lim);
      && Times(All(i.root), q) >= 2
      && Times(All(Pruned(i, cutoff, lim).root), q) >= 2 * Times(All(i.root), q)
  {
    hide Inserted, WellFormed, All, Cube.Contains, Cube.Halved, Copies, Times, Passes, KeyOf, Listed, Fresh, Since, OneEach;
    var os := fillers + [q];
    var i := Run(world, Inserts(os), lim);
    forall o | o in fillers ensures world.Contains(o) && o.timestamp >= cutoff && o != q {
      assert o in os;
      var k :| 0 <= k < |fillers| && fillers[k] == o;
      assert KeyOf(os[k]) != KeyOf(os[|fillers|]);
    }
    assert q in os;
    AllInserted(world, os, lim);
    assert os[..|fillers|] == fillers;
    var t := InsertList(Fresh(world), fillers, lim);
    FreshWellFormed(world);
    FreshCube(world);
    InsertListMembers(Fresh(world), fillers, lim);
    LeafFills(world, fillers, 0, lim);
    AtTheRoot(Fresh(world), fillers, lim);
    FullPasses(t, fillers, lim);
    OneEachListed(t.obs, fillers);
    AllSplits(t);
    NoKidsNothing();
    assert fillers + [] == fillers;
    TimesMember(fillers, q);
    InsertedWellFormed(t, q, 0, lim);
    InsertedCounts(t, q, 0, lim, q);
    HalvedTwice(t, q, lim);
    PassedOn(t, q, lim);
    var rest := AllOf(i.root.kids);
    AllSplits(i.root);
    SinceJoin(fillers, rest, cutoff);
    SinceRecent(fillers, cutoff);
    InsertListJoin(Fresh(world), fillers, Since(rest, cutoff), lim);
    DoublesWhenFull(t, Since(rest, cutoff), lim, q);
    SinceCounts(rest, cutoff, q);
    TimesJoin(fillers, rest, q);
  }

  lemma NoKidsNothing()
    ensures AllOf([]) == []
  {
  }

  lemma AllSplits(t: Tree)
    ensures All(t) == Listed(t.obs) + AllOf(t.kids)
  {
  }
}
