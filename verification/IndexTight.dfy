/** The grid of `IndexGrid` is exact: a run that divides the world deep enough stores any point on it twice. */
module IndexTight {
  import opened Common
  import opened Octree
  import opened OctreeSearch
  import opened IndexModel
  import opened IndexCopies
  import opened IndexGrid
  import Fusion

  lemma {:induction false} ListJoin(t: Tree, a: seq<Obs>, b: seq<Obs>, depth: nat, lim: Limits)
    ensures InsertedList(t, a + b, depth, lim) == InsertedList(InsertedList(t, a, depth, lim), b, depth, lim)
    decreases |b|
  {
    hide Inserted;
    if b == [] {
      assert a + b == a;
    } else {
      var n := |b| - 1;
      assert (a + b)[..|a| + n] == a + b[..n];
      ListJoin(t, a, b[..n], depth, lim);
    }
  }

  lemma {:induction false} SameCube(t: Tree, os: seq<Obs>, depth: nat, lim: Limits)
    ensures InsertedList(t, os, depth, lim).cube == t.cube
  {
    hide Cube.Contains, AddTo, InsertedAll, KidsOf;
    if os != [] { SameCube(t, os[..|os| - 1], depth, lim); }
  }

  // ----- fillers: the same point, other entities -----------------------------------------------------------------

  const MAX_ENTITY_ID := 64

  /** What an observation can hold once its constructor has capped it. */
  ghost predicate Held(o: Obs) {
    && 1 <= |o.entityId| <= MAX_ENTITY_ID && |o.agentId| <= 48 && 1 <= |o.frameId| <= 48 && |o.caption| <= 64
    && o.timestamp != 0.0 && Fusion.Constructed(o)
  }

  ghost predicate AllHeld(ops: seq<Op>) { forall k :: 0 <= k < |ops| && ops[k].Insert? ==> Held(ops[k].o) }

  /** n letters that tell the numbers below 2^n apart. */
  function Binary(i: nat, n: nat): (s: string)
    ensures |s| == n
  {
    if n == 0 then "" else Binary(i / 2, n - 1) + [if i % 2 == 1 then 'b' else 'a']
  }

  lemma {:induction false} BinaryApart(i: nat, j: nat, n: nat)
    requires i < Pow2(n) && j < Pow2(n) && Binary(i, n) == Binary(j, n)
    ensures i == j
  {
    if n > 0 {
      var s, t := Binary(i, n), Binary(j, n);
      assert s[..n - 1] == Binary(i / 2, n - 1) && t[..n - 1] == Binary(j / 2, n - 1);
      assert s[n - 1] == t[n - 1];
      BinaryApart(i / 2, j / 2, n - 1);
    }
  }

  function OtherLetter(s: string): char { if s != "" && s[0] == 'c' then 'd' else 'c' }

  /** A name within the cap: a letter that differs from the first one of q's, then 63 binary letters. */
  function Filler(q: Obs, i: nat): Obs {
    q.(entityId := [OtherLetter(q.entityId)] + Binary(i, MAX_ENTITY_ID - 1))
  }

  function Fillers(q: Obs, from: nat, n: nat): seq<Obs> { seq(n, k requires 0 <= k < n => Filler(q, from + k)) }

  lemma FillerIs(q: Obs, i: nat)
    ensures Filler(q, i).entityId != q.entityId
    ensures Held(q) ==> Held(Filler(q, i))
    ensures forall c: Cube :: c.Contains(Filler(q, i)) <==> c.Contains(q)
  {
    hide Binary;
    var name := Filler(q, i).entityId;
    assert name[0] == OtherLetter(q.entityId) && |name| == MAX_ENTITY_ID;
  }

  lemma FillersDiffer(q: Obs, i: nat, j: nat)
    requires i < j < Pow2(MAX_ENTITY_ID - 1)
    ensures Filler(q, i).entityId != Filler(q, j).entityId
  {
    hide Binary, Pow2;
    var s, t := Binary(i, MAX_ENTITY_ID - 1), Binary(j, MAX_ENTITY_ID - 1);
    if Filler(q, i).entityId == Filler(q, j).entityId {
      assert Filler(q, i).entityId[1..] == s && Filler(q, j).entityId[1..] == t;
      BinaryApart(i, j, MAX_ENTITY_ID - 1);
    }
  }

  lemma FillersApart(q: Obs, from: nat, n: nat)
    requires from + n <= Pow2(MAX_ENTITY_ID - 1)
    ensures DistinctEntities(Fillers(q, from, n)) && DistinctKeys(Fillers(q, from, n) + [q])
    ensures forall c: Cube, o :: o in Fillers(q, from, n) ==> (c.Contains(o) <==> c.Contains(q))
  {
    hide Round6, Filler, Cube.Contains, Pow2;
    var os := Fillers(q, from, n);
    forall i | 0 <= i < n
      ensures os[i].entityId != q.entityId
      ensures forall c: Cube :: c.Contains(os[i]) <==> c.Contains(q)
    {
      FillerIs(q, from + i);
    }
    forall i, j | 0 <= i < j < n ensures os[i].entityId != os[j].entityId { FillersDiffer(q, from + i, from + j); }
    forall c: Cube, o | o in os ensures c.Contains(o) <==> c.Contains(q) {
      var i :| 0 <= i < n && os[i] == o;
    }
  }

  lemma FillersSplit(q: Obs, from: nat, m: nat, n: nat)
    requires m <= n
    ensures Fillers(q, from, n) == Fillers(q, from, m) + Fillers(q, from + m, n - m)
  {
    hide Filler;
  }

  /** A node that keeps nothing more for itself passes a list on to every child. */
  lemma {:induction false} PassedDown(t: Tree, os: seq<Obs>, depth: nat, lim: Limits)
    requires os != [] && (t.kids != [] || !HasRoom(t, depth, lim))
    requires forall o :: o in os ==> t.cube.Contains(o)
    ensures var r := InsertedList(t, os, depth, lim);
      && r.cube == t.cube && |r.kids| == |KidsOf(t)| > 0
      && forall i :: 0 <= i < |r.kids| ==> r.kids[i] == InsertedList(KidsOf(t)[i], os, depth + 1, lim)
    decreases |os|
  {
    hide Cube.Contains, Cube.Parts, AddTo, InsertedAll, KidsOf;
    var n := |os| - 1;
    Snoc(os);
    KidsAre(t);
    KidsThere(t);
    var before := InsertedList(t, os[..n], depth, lim);
    if n > 0 { PassedDown(t, os[..n], depth, lim); }
    KidsAre(before);
    InsertedAllAt(KidsOf(before), os[n], depth + 1, lim);
    assert os[n] in os;
    assert n == 0 ==> os[..n] == [];
  }

  lemma KidsThere(t: Tree)
    ensures |KidsOf(t)| > 0
  {
  }

  // ----- saturation -----------------------------------------------------------------------------------------------------

  /** Every node around the point is divided, n levels down. */
  ghost predicate Saturated(t: Tree, q: Obs, n: nat)
    decreases n
  {
    t.cube.Contains(q) && n >= 1 ==> t.kids != [] && forall i :: 0 <= i < |t.kids| ==> Saturated(t.kids[i], q, n - 1)
  }

  function Enough(n: nat, capacity: nat): nat { if n == 0 then 1 else capacity + Enough(n - 1, capacity) }

  lemma {:induction false} EnoughGrows(n: nat, capacity: nat)
    ensures Enough(n, capacity) >= 1
  {
    if n > 0 { EnoughGrows(n - 1, capacity); }
  }

  lemma {:induction false} EnoughIs(n: nat, capacity: nat)
    ensures Enough(n, capacity) == n * capacity + 1
  {
    if n > 0 { EnoughIs(n - 1, capacity); }
  }

  lemma {:induction false} Pow2Grows(m: nat, n: nat)
    requires m <= n
    ensures Pow2(m) <= Pow2(n)
  {
    if m < n { Pow2Grows(m, n - 1); }
  }

  /** The names suffice for the depth of 8 and the capacity of 1000 that are the defaults. */
  lemma DefaultsFit()
    ensures Enough(8, 1000) <= Pow2(MAX_ENTITY_ID - 1)
  {
    EnoughIs(8, 1000);
    assert Pow2(3) == 8 && Pow2(5) == 4 * Pow2(3) && Pow2(7) == 4 * Pow2(5) && Pow2(9) == 4 * Pow2(7);
    assert Pow2(11) == 4 * Pow2(9) && Pow2(13) == 4 * Pow2(11);
    Pow2Grows(13, MAX_ENTITY_ID - 1);
  }

  lemma {:induction false} Saturates(c: Cube, q: Obs, depth: nat, lim: Limits, from: nat, count: nat)
    requires lim.maxPerLeaf >= 1 && count >= Enough(Levels(depth, lim), lim.maxPerLeaf)
    requires from + count <= Pow2(MAX_ENTITY_ID - 1)
    ensures Saturated(InsertedList(Fresh(c), Fillers(q, from, count), depth, lim), q, Levels(depth, lim))
    decreases Levels(depth, lim)
  {
    hide Cube.Contains, Cube.Parts, Fillers, InsertedList, OneEach, DistinctEntities, DistinctKeys, Pow2;
    SameCube(Fresh(c), Fillers(q, from, count), depth, lim);
    if c.Contains(q) && Levels(depth, lim) >= 1 {
      var m := lim.maxPerLeaf;
      EnoughGrows(Levels(depth + 1, lim), m);
      FillersApart(q, from, m);
      FillersApart(q, from + m, count - m);
      FillersSplit(q, from, m, count);
      FillersCount(q, from, m);
      FillersCount(q, from + m, count - m);
      var os, rest := Fillers(q, from, m), Fillers(q, from + m, count - m);
      LeafFills(c, os, depth, lim);
      var leaf := InsertedList(Fresh(c), os, depth, lim);
      LeafFull(leaf, os, depth, lim);
      ListJoin(Fresh(c), os, rest, depth, lim);
      PassedDown(leaf, rest, depth, lim);
      var t := InsertedList(leaf, rest, depth, lim);
      forall i | 0 <= i < |t.kids| ensures Saturated(t.kids[i], q, Levels(depth, lim) - 1) {
        Saturates(c.Parts()[i], q, depth + 1, lim, from + m, count - m);
      }
    }
  }

  lemma FillersCount(q: Obs, from: nat, n: nat)
    ensures |Fillers(q, from, n)| == n
  {
  }

  lemma LeafFull(t: Tree, os: seq<Obs>, depth: nat, lim: Limits)
    requires depth < lim.maxDepth && OneEach(t.obs, os) && |os| == lim.maxPerLeaf
    ensures !HasRoom(t, depth, lim)
  {
  }

  lemma {:induction false} OnGridCut(t: Tree, q: Obs, n: nat)
    requires WellFormed(t) && Saturated(t, q, n) && t.cube.Contains(q) && !OffGrid(t.cube, n, q)
    ensures !OffPlanes(t, q)
    decreases n
  {
    hide Cube.Contains, Cube.Parts, Cube.Halved, OffGrid, AllInside, Listed;
    if n == 0 {
      NoLevels(t.cube, q);
    } else if !t.cube.Halved(q) {
      PointCube(t.cube, n, q);
      var i, j := PartsCover(t.cube, q);
      GridOfPart(t.cube, n, q, i);
      assert t.kids[i].cube == t.cube.Parts()[i];
      OnGridCut(t.kids[i], q, n - 1);
    }
  }

  lemma NoLevels(c: Cube, q: Obs)
    ensures OffGrid(c, 0, q)
  {
  }

  /** Some insertions divide the world around a point on the grid, and then it is stored twice. */
  lemma OnGridMultiplies(world: Cube, q: Obs, lim: Limits) returns (ops: seq<Op>)
    requires lim.maxPerLeaf >= 1 && world.Contains(q) && !OffGrid(world, Levels(0, lim), q)
    requires Held(q) && Enough(Levels(0, lim), lim.maxPerLeaf) <= Pow2(MAX_ENTITY_ID - 1)
    ensures OnlyInserts(ops) && AllHeld(ops) && Times(All(Run(world, ops, lim).root), q) >= 2
  {
    hide Inserted, WellFormed, OffPlanes, All, Cube.Contains, Copies, Times, KeyOf, OffGrid, Levels, Saturated, Fillers,
         InsertedList, Fresh, Pow2, Held;
    var count := Enough(Levels(0, lim), lim.maxPerLeaf);
    var os := Fillers(q, 0, count);
    ops := Inserts(os + [q]);
    FillersHeld(q, count);
    OnlyThose(os + [q]);
    FillersApart(q, 0, count);
    AllInserted(world, os + [q], lim);
    assert (os + [q])[..|os|] == os;
    Saturates(world, q, 0, lim, 0, count);
    AtTheRoot(Fresh(world), os, lim);
    FreshWellFormed(world);
    FreshCube(world);
    InsertListMembers(Fresh(world), os, lim);
    var t := InsertList(Fresh(world), os, lim);
    OnGridCut(t, q, Levels(0, lim));
    if OffPlanes(Inserted(t, q, 0, lim), q) { OffPlanesEarlier(t, q, 0, lim, q); }
    StoredOnce(t, q, 0, lim);
    StoredInside(t, q, 0, lim);
    InsertedCounts(t, q, 0, lim, q);
  }

  lemma FillersHeld(q: Obs, n: nat)
    requires Held(q)
    ensures forall o :: o in Fillers(q, 0, n) + [q] ==> Held(o)
  {
    hide Filler, Held;
    forall i: nat ensures Held(Filler(q, i)) { FillerIs(q, i); }
  }

  lemma {:induction false} OnlyThose(os: seq<Obs>)
    requires forall o :: o in os ==> Held(o)
    ensures OnlyInserts(Inserts(os)) && AllHeld(Inserts(os))
  {
    hide Held;
    if os != [] {
      Snoc(os);
      OnlyThose(os[..|os| - 1]);
    }
  }

  /** Through every run of observations that the constructor lets through, no more than one copy is stored. */
  ghost predicate NeverTwice(world: Cube, q: Obs, lim: Limits) {
    forall ops :: AllHeld(ops) ==> Times(All(Run(world, ops, lim).root), q) <= 1
  }

  /**
    No run stores an observation twice if and only if it lies off the grid -- as long as there are enough
    entity names for the leaves around a point, which takes a capacity and a depth beyond any use to break.
   */
  lemma NeverTwiceExactly(world: Cube, q: Obs, lim: Limits)
    requires lim.maxPerLeaf >= 1 && world.Contains(q) && Held(q)
    requires Enough(Levels(0, lim), lim.maxPerLeaf) <= Pow2(MAX_ENTITY_ID - 1)
    ensures NeverTwice(world, q, lim) <==> OffGrid(world, Levels(0, lim), q)
  {
    hide Run, All, Times, OffGrid, Levels, Cube.Contains, Held, Pow2, Enough;
    if OffGrid(world, Levels(0, lim), q) {
      forall ops ensures Times(All(Run(world, ops, lim).root), q) <= 1 {
        TimesMember(All(Run(world, ops, lim).root), q);
        if q in All(Run(world, ops, lim).root) { StoredOnceAlways(world, ops, lim, q); }
      }
    } else {
      var ops := OnGridMultiplies(world, q, lim);
    }
  }
}
