/**
  Which observations the octree of `spatial.py` can store more than once, told from their coordinates:
  those on a plane that a division of the world may cut along.
 */
module IndexGrid {
  import opened Common
  import opened Octree
  import opened OctreeSearch
  import opened IndexModel
  import opened IndexCopies

  function Pow2(n: nat): (r: nat)
    ensures r >= 1
  {
    if n == 0 then 1 else 2 * Pow2(n - 1)
  }

  /** The m-th mark of an axis that n levels of division cut along; 0 is the centre. */
  function Mark(c: real, half: real, n: nat, m: int): real
    requires n >= 1
  {
    c + m as real * (half / Pow2(n - 1) as real)
  }

  /** The marks strictly inside the cube. */
  predicate Inner(n: nat, m: int)
    requires n >= 1
  {
    var p: int := Pow2(n - 1);
    -p < m < p
  }

  /** The coordinate is none of them. */
  ghost predicate OffAxis(c: real, half: real, n: nat, v: real) {
    n >= 1 ==> forall m: int :: Inner(n, m) ==> v != Mark(c, half, n, m)
  }

  /** No coordinate is a multiple of the finest divided node's half width, faces of the world apart. */
  ghost predicate OffGrid(cube: Cube, n: nat, o: Obs) {
    OffAxis(cube.cx, cube.half, n, o.x) && OffAxis(cube.cy, cube.half, n, o.y) && OffAxis(cube.cz, cube.half, n, o.z)
  }

  function Levels(depth: nat, lim: Limits): nat { Max(0, lim.maxDepth - depth) }

  // ----- the marks of a half are marks of the whole ---------------------------------------------------------------

  lemma CentreMark(c: real, half: real, n: nat)
    requires n >= 1
    ensures Mark(c, half, n, 0) == c
  {
  }

  lemma SameStep(half: real, p: real)
    requires p > 0.0
    ensures half / 2.0 / p == half / (2.0 * p)
    ensures p * (half / (2.0 * p)) == half / 2.0
  {
    var s := half / (2.0 * p);
    assert s * (2.0 * p) == half;
    assert half / 2.0 == s * p;
    assert (s * p) / p == s;
  }

  lemma Shifted(m: real, p: real, s: real)
    ensures p * s + m * s == (m + p) * s && -(p * s) + m * s == (m - p) * s
  {
  }

  /** Mark m of the upper or lower half is mark m plus or minus half their number of the whole. */
  lemma HalfMark(c: real, half: real, n: nat, m: int, upper: bool)
    requires n >= 2
    ensures Pow2(n - 1) == 2 * Pow2(n - 2)
    ensures Mark(c + Sign(upper) * (half / 2.0), half / 2.0, n - 1, m)
         == Mark(c, half, n, if upper then m + Pow2(n - 2) else m - Pow2(n - 2))
  {
    var p := Pow2(n - 2) as real;
    SameStep(half, p);
    var s := half / (2.0 * p);
    Shifted(m as real, p, s);
    assert Pow2(n - 1) as real == 2.0 * p;
    assert Sign(upper) * (half / 2.0) == if upper then half / 2.0 else -(half / 2.0);
  }

  /** Off the axis means off the centre and off the axis of the half the coordinate lies in. */
  lemma OffHalf(c: real, half: real, n: nat, v: real, upper: bool)
    requires n >= 1 && half > 0.0 && (if upper then v >= c else v <= c)
    ensures OffAxis(c, half, n, v) <==> v != c && OffAxis(c + Sign(upper) * (half / 2.0), half / 2.0, n - 1, v)
  {
    hide Mark, Sign;
    CentreMark(c, half, n);
    if OffAxis(c, half, n, v) {
      assert v != Mark(c, half, n, 0);
      if n >= 2 {
        var c', half', n' := c + Sign(upper) * (half / 2.0), half / 2.0, n - 1;
        forall m: int | Inner(n', m) ensures v != Mark(c', half', n', m) {
          HalfMark(c, half, n, m, upper);
          assert Inner(n, if upper then m + Pow2(n - 2) else m - Pow2(n - 2));
        }
      }
    } else {
      var m: int :| Inner(n, m) && v == Mark(c, half, n, m);
      MarkSide(c, half, n, m);
      if m != 0 {
        assert n >= 2;
        var k := if upper then m - Pow2(n - 2) else m + Pow2(n - 2);
        HalfMark(c, half, n, k, upper);
        assert Inner(n - 1, k);
      }
    }
  }

  /** The marks lie on the sides of the centre that their signs say. */
  lemma MarkSide(c: real, half: real, n: nat, m: int)
    requires n >= 1 && half > 0.0
    ensures (m > 0 <==> Mark(c, half, n, m) > c) && (m < 0 <==> Mark(c, half, n, m) < c)
  {
    var s := half / Pow2(n - 1) as real;
    assert s > 0.0;
    assert m > 0 ==> m as real * s > 0.0;
    assert m < 0 ==> m as real * s < 0.0;
  }

  // ----- trees are divided no deeper than the limit ------------------------------------------------------------------

  ghost predicate Shallow(t: Tree, n: nat)
    decreases t
  {
    t.kids != [] ==> n >= 1 && forall i :: 0 <= i < |t.kids| ==> Shallow(t.kids[i], n - 1)
  }

  lemma FreshShallow(c: Cube, n: nat)
    ensures Shallow(Fresh(c), n)
  {
  }

  lemma {:induction false} InsertedShallow(t: Tree, o: Obs, depth: nat, lim: Limits)
    requires Shallow(t, Levels(depth, lim))
    ensures Shallow(Inserted(t, o, depth, lim), Levels(depth, lim))
    decreases Max(0, lim.maxDepth - depth), t
  {
    hide Cube.Contains, Cube.Parts, AddTo, InsertedAll;
    if t.cube.Contains(o) && !(t.kids == [] && HasRoom(t, depth, lim)) {
      var ks := KidsOf(t);
      InsertedAllAt(ks, o, depth + 1, lim);
      forall i | 0 <= i < |ks| ensures Shallow(Inserted(ks[i], o, depth + 1, lim), Levels(depth + 1, lim)) {
        if t.kids == [] { FreshShallow(t.cube.Parts()[i], Levels(depth + 1, lim)); }
        InsertedShallow(ks[i], o, depth + 1, lim);
      }
    }
  }

  lemma {:induction false} InsertListShallow(t: Tree, os: seq<Obs>, lim: Limits)
    requires Shallow(t, Levels(0, lim))
    ensures Shallow(InsertList(t, os, lim), Levels(0, lim))
  {
    hide Inserted, Shallow, Levels;
    if os != [] {
      var n := |os| - 1;
      InsertListShallow(t, os[..n], lim);
      InsertedShallow(InsertList(t, os[..n], lim), os[n], 0, lim);
    }
  }

  lemma {:induction false} RunShallow(world: Cube, ops: seq<Op>, lim: Limits)
    ensures Shallow(Run(world, ops, lim).root, Levels(0, lim))
  {
    hide Inserted, Shallow, Levels, InsertList, Since, All, KeyOf;
    if ops == [] {
      FreshShallow(world, Levels(0, lim));
    } else {
      var n := |ops| - 1;
      var i := Run(world, ops[..n], lim);
      RunShallow(world, ops[..n], lim);
      match ops[n]
      case Insert(o) => InsertedShallow(i.root, o, 0, lim);
      case Prune(cutoff) =>
        FreshShallow(i.root.cube, Levels(0, lim));
        InsertListShallow(Fresh(i.root.cube), Since(All(i.root), cutoff), lim);
    }
  }

  // ----- off the grid: exactly once, through any run -------------------------------------------------------------------

  lemma PartCentre(c: Cube, x: bool, y: bool, z: bool)
    ensures var p := c.Parts()[PartAt(x, y, z)];
      && p.cx == c.cx + Sign(x) * (c.half / 2.0) && p.cy == c.cy + Sign(y) * (c.half / 2.0)
      && p.cz == c.cz + Sign(z) * (c.half / 2.0) && p.half == c.half / 2.0
  {
    PartIs(c, x, y, z);
  }

  /** Off the grid of a cube means off its centre planes and off the grid of every part that holds the point. */
  lemma GridOfPart(c: Cube, n: nat, o: Obs, i: nat)
    requires n >= 1 && c.half > 0.0 && i < 8 && c.Parts()[i].Contains(o)
    ensures OffGrid(c, n, o) <==> !c.Halved(o) && OffGrid(c.Parts()[i], n - 1, o)
  {
    hide OffAxis, Cube.Parts, Cube.Contains, PartAt;
    var x, y, z := IndexIsPart(i);
    PartContains(c, o, x, y, z);
    PartCentre(c, x, y, z);
    OffHalf(c.cx, c.half, n, o.x, x);
    OffHalf(c.cy, c.half, n, o.y, y);
    OffHalf(c.cz, c.half, n, o.z, z);
  }

  /** A cube of no extent that holds a point is halved by it. */
  lemma PointCube(c: Cube, n: nat, o: Obs)
    requires c.Contains(o) && n >= 1
    ensures c.half >= 0.0 && (c.half == 0.0 ==> c.Halved(o) && !OffGrid(c, n, o))
  {
    hide Mark;
    if c.half == 0.0 {
      CentreMark(c.cx, c.half, n);
      assert !OffAxis(c.cx, c.half, n, o.x) by { assert o.x == Mark(c.cx, c.half, n, 0); }
    }
  }

  lemma {:induction false} OffGridOffPlanes(t: Tree, n: nat, o: Obs)
    requires WellFormed(t) && Shallow(t, n) && OffGrid(t.cube, n, o)
    ensures OffPlanes(t, o)
    decreases t
  {
    hide Cube.Contains, Cube.Parts, Cube.Halved, OffGrid, AllInside, Listed;
    if t.cube.Contains(o) && t.kids != [] {
      PointCube(t.cube, n, o);
      var a, b := PartsCover(t.cube, o);
      GridOfPart(t.cube, n, o, a);
      forall i | 0 <= i < |t.kids| ensures OffPlanes(t.kids[i], o) {
        if t.cube.Parts()[i].Contains(o) {
          GridOfPart(t.cube, n, o, i);
          OffGridOffPlanes(t.kids[i], n - 1, o);
        }
      }
    }
  }

  /**
    An observation off the grid of the world is stored exactly once, through any run of insertions and
    prunings.
   */
  lemma {:induction false} StoredOnceAlways(world: Cube, ops: seq<Op>, lim: Limits, q: Obs)
    requires OffGrid(world, Levels(0, lim), q) && q in All(Run(world, ops, lim).root)
    ensures Times(All(Run(world, ops, lim).root), q) == 1
    decreases |ops|, 0
  {
    hide Inserted, WellFormed, OffPlanes, All, Cube.Contains, Copies, Times, KeyOf, OffGrid, Levels, Shallow;
    var i := Run(world, ops, lim);
    RunAgrees(world, ops, lim);
    RunShallow(world, ops, lim);
    OffGridOffPlanes(i.root, Levels(0, lim), q);
    if ops == [] {
      FreshWellFormed(world);
    } else {
      var n := |ops| - 1;
      RunAgrees(world, ops[..n], lim);
      var before := Run(world, ops[..n], lim);
      match ops[n]
      case Insert(o) => InsertStoresOnce(world, ops[..n], o, lim, q);
      case Prune(cutoff) =>
        PruneAgrees(before, cutoff, lim, world);
        assert q in AsScan(i).stored;
        StoredOnceAlways(world, ops[..n], lim, q);
        PruneKeepsCopies(before, cutoff, lim, world, q);
    }
  }

  lemma {:induction false} InsertStoresOnce(world: Cube, ops: seq<Op>, o: Obs, lim: Limits, q: Obs)
    requires OffGrid(world, Levels(0, lim), q)
    requires var i := Put(Run(world, ops, lim), o, lim); q in All(i.root) && OffPlanes(i.root, q)
    ensures Times(All(Put(Run(world, ops, lim), o, lim).root), q) == 1
    decreases |ops|, 1
  {
    hide Inserted, WellFormed, OffPlanes, All, Cube.Contains, Copies, Times, KeyOf, OffGrid, Levels;
    var before := Run(world, ops, lim);
    RunAgrees(world, ops, lim);
    InsertedCounts(before.root, o, 0, lim, q);
    InsertedMembers(before.root, o, 0, lim);
    TimesMember(All(before.root), q);
    if KeyOf(o) in before.seen {
      StoredOnceAlways(world, ops, lim, q);
    } else if q == o {
      assert o !in AsScan(before).stored;
      StoredOnce(before.root, o, 0, lim);
    } else {
      StoredOnceAlways(world, ops, lim, q);
    }
  }
}
