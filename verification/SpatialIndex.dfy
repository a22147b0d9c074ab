/** `SpatialIndex` of `spatial.py`: the octree on the heap, the seen keys and the counters. */
module SpatialIndexes {
  import opened Common
  import opened Octree
  import opened OctreeSearch
  import opened OctreeHeap
  import opened IndexModel
  import Fusion

  datatype Stats = Stats(inserts: nat, queries: nat, fusions: nat, removedExpired: nat, duplicatesSkipped: nat)

  function OfEntity(os: seq<Obs>, entityId: string): seq<Obs> {
    if os == [] then []
    else
      var last := os[|os| - 1];
      OfEntity(os[..|os| - 1], entityId) + (if last.entityId == entityId then [last] else [])
  }

  /** It lists what belongs to the entity, as often as it is listed, and nothing else. */
  lemma {:induction false} OfEntityCounts(os: seq<Obs>, entityId: string, q: Obs)
    ensures Times(OfEntity(os, entityId), q) == if q.entityId == entityId then Times(os, q) else 0
  {
    if os != [] {
      OfEntityCounts(os[..|os| - 1], entityId, q);
      Snoc(os);
    }
  }

  class SpatialIndex {
    var root: OctreeNode
    var seen: set<Key>
    var stats: Stats
    const half: real
    const lim: Limits
    const decay: real

    function World(): Cube { Cube(0.0, 0.0, 0.0, half) }

    ghost function Value(): Index
      reads this, root
    {
      Index(root.tree, seen)
    }

    /** What a linear scan would hold. */
    ghost function Stored(): Scan
      reads this, root
    {
      AsScan(Value())
    }

    ghost predicate Valid()
      reads this, root, root.Repr
    {
      this !in root.Repr && root.Valid() && Good(Value(), World())
    }

    constructor (worldSize: real, maxDepth: int, maxPerLeaf: int, decay: real)
      ensures Valid() && fresh(root.Repr) && Stored() == Scan({}, {})
      ensures half == worldSize / 2.0 && lim == Limits(Max(3, maxDepth), Max(1, maxPerLeaf))
      ensures this.decay == MaxR(0.1, decay)
    {
      half, lim := worldSize / 2.0, Limits(Max(3, maxDepth), Max(1, maxPerLeaf));
      this.decay := MaxR(0.1, decay);
      root := new OctreeNode(0.0, 0.0, 0.0, worldSize / 2.0);
      seen, stats := {}, Stats(0, 0, 0, 0, 0);
      new;
      hide Good, AsScan, Fresh;
      EmptyAgrees(World());
    }

    /** `insert`: a key seen before is skipped, a new one is remembered even when the point lies outside the world. */
    method Insert(o: Obs)
      requires Valid()
      modifies this, root.Repr
      ensures Valid() && root == old(root) && fresh(root.Repr - old(root.Repr))
      ensures Value() == Put(old(Value()), o, lim)
      ensures Stored() == ScanPut(old(Stored()), o, World())
      ensures stats == if KeyOf(o) in old(seen) then old(stats).(duplicatesSkipped := old(stats).duplicatesSkipped + 1)
                       else old(stats).(inserts := old(stats).inserts + 1)
    {
      hide Good, AsScan, KeyOf, Inserted, ScanPut;
      PutAgrees(Value(), o, lim, World());
      var key := KeyOf(o);
      if key in seen {
        stats := stats.(duplicatesSkipped := stats.duplicatesSkipped + 1);
        return;
      }
      seen := seen + {key};
      root.Insert(o, 0, lim);
      stats := stats.(inserts := stats.inserts + 1);
    }

    /** `query_sphere`: as often as it is stored, every stored observation in the sphere and no other. */
    method QuerySphere(s: Sphere) returns (out: seq<Obs>)
      requires Valid()
      modifies `stats
      ensures Valid() && out == Hits(root.tree, s)
      ensures forall q :: Times(out, q) == if s.Holds(q) then Times(All(root.tree), q) else 0
      ensures forall q :: q in out <==> q in Stored().stored && s.Holds(q)
      ensures stats == old(stats).(queries := old(stats).queries + 1)
    {
      hide Hits, All, Sphere.Holds, WellFormed, KeysApart, Times;
      var none: seq<Obs> := [];
      out := root.QuerySphere(s, none);
      assert out == Hits(root.tree, s);
      forall q ensures Times(out, q) == if s.Holds(q) then Times(All(root.tree), q) else 0 {
        HitsAreScan(root.tree, s, q);
      }
      forall q ensures q in out <==> q in All(root.tree) && s.Holds(q) {
        TimesMember(out, q);
        TimesMember(All(root.tree), q);
      }
      stats := stats.(queries := stats.queries + 1);
    }

    /** `query_aabb`, given the exact length of the box's diagonal. */
    method QueryAabb(b: Box, diagonal: real) returns (out: seq<Obs>)
      requires Valid() && diagonal >= 0.0 && Square(diagonal) == b.DiagonalSquared()
      modifies `stats
      ensures Valid()
      ensures forall q :: Times(out, q) == if b.Holds(q) then Times(All(root.tree), q) else 0
      ensures forall q :: q in out <==> q in Stored().stored && b.Holds(q)
      ensures stats == old(stats).(queries := old(stats).queries + 1)
    {
      hide Hits, All, Sphere.Holds, Box.Holds, WellFormed, KeysApart, Times, Square, Boxed;
      var candidates := QuerySphere(b.Around(diagonal));
      out := Boxed(candidates, b);
      forall q ensures Times(out, q) == if b.Holds(q) then Times(All(root.tree), q) else 0 {
        BoxIsScan(root.tree, b, diagonal, q);
      }
      forall q ensures q in out <==> q in All(root.tree) && b.Holds(q) {
        TimesMember(out, q);
        TimesMember(All(root.tree), q);
      }
    }

    /** `fuse_entity`, at a reading of the clock; only a merged result counts as a fusion. */
    method FuseEntity(entityId: string, now: real) returns (r: Fusion.Fused)
      requires Valid() && decay > 0.0
      modifies `stats
      ensures Valid() && r == Fusion.Fuse(OfEntity(All(root.tree), entityId), now, decay)
      ensures forall q :: q in OfEntity(All(root.tree), entityId) <==> q in Stored().stored && q.entityId == entityId
      ensures stats == old(stats).(fusions := old(stats).fusions + if r.Merged? then 1 else 0)
    {
      hide All, Fusion.Fuse, OfEntity, WellFormed, KeysApart, Times;
      var none: seq<Obs> := [];
      var all := root.CollectAll(none);
      assert all == All(root.tree);
      r := Fusion.Fuse(OfEntity(all, entityId), now, decay);
      forall q ensures q in OfEntity(all, entityId) <==> q in all && q.entityId == entityId {
        OfEntityCounts(all, entityId, q);
        TimesMember(all, q);
        TimesMember(OfEntity(all, entityId), q);
      }
      if r.Merged? { stats := stats.(fusions := stats.fusions + 1); }
    }

    /** `_rebuild` */
    method Rebuild(os: seq<Obs>)
      modifies this
      ensures root.Valid() && fresh(root) && fresh(root.Repr) && stats == old(stats)
      ensures Value() == Rebuilt(World(), os, lim)
    {
      hide Inserted, KeyOf;
      root := new OctreeNode(0.0, 0.0, 0.0, half);
      seen := set o | o in os :: KeyOf(o);
      for k := 0 to |os|
        invariant root.Valid() && fresh(root) && fresh(root.Repr) && this !in root.Repr
        invariant root.tree == InsertList(Fresh(World()), os[..k], lim)
        invariant seen == (set o | o in os :: KeyOf(o)) && stats == old(stats)
      {
        assert os[..k + 1][..k] == os[..k];
        root.Insert(os[k], 0, lim);
      }
      assert os[..|os|] == os;
    }

    /** `prune_expired`: what is left is what a scan would keep, and it is counted as stored, copies included. */
    method PruneExpired(maxAge: real, now: real) returns (removed: int)
      requires Valid()
      modifies this
      ensures Valid() && fresh(root.Repr)
      ensures Value() == Pruned(old(Value()), now - maxAge, lim)
      ensures Stored() == ScanPrune(old(Stored()), now - maxAge)
      ensures removed == |All(old(root.tree))| - |Since(All(old(root.tree)), now - maxAge)| >= 0
      ensures stats == old(stats).(removedExpired := old(stats).removedExpired + removed)
    {
      hide Good, AsScan, InsertList, KeyOf, Since, All, ScanPrune;
      PruneAgrees(Value(), now - maxAge, lim, World());
      CubeIsWorld();
      var none: seq<Obs> := [];
      var all := root.CollectAll(none);
      assert all == All(root.tree);
      var kept := Since(all, now - maxAge);
      SinceShorter(all, now - maxAge);
      removed := |all| - |kept|;
      Rebuild(kept);
      stats := stats.(removedExpired := stats.removedExpired + removed);
    }

    lemma CubeIsWorld()
      requires Valid()
      ensures root.tree.cube == World()
    {
    }
  }

  lemma {:induction false} SinceShorter(os: seq<Obs>, cutoff: real)
    ensures |Since(os, cutoff)| <= |os|
  {
    if os != [] { SinceShorter(os[..|os| - 1], cutoff); }
  }

  /** Different stored observations always have different keys. */
  lemma StoredKeysApart(i: SpatialIndex, a: Obs, b: Obs)
    requires i.Valid() && a in i.Stored().stored && b in i.Stored().stored && a != b
    ensures KeyOf(a) != KeyOf(b) && KeyOf(a) in i.seen && i.World().Contains(a)
  {
    hide KeyOf, All, WellFormed, Cube.Contains;
    StoredInWorld(i.Value(), i.World(), a);
  }
}
