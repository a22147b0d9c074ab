/**
  `SpatialIndex` of `spatial.py` as a value, beside the linear scan it has to agree with: a set of
  stored observations and the set of keys that have been seen.
 */
module IndexModel {
  import opened Common
  import opened Octree
  import opened OctreeSearch

  /** `round(v, 6)`, in millionths: to the nearest one, halves to the even one. */
  function Round6(v: real): int {
    var scaled := v * 1000000.0;
    var below := scaled.Floor;
    var rest := scaled - below as real;
    if rest < 0.5 || (rest == 0.5 && below % 2 == 0) then below else below + 1
  }

  /** It is the nearest multiple, and it keeps the order. */
  lemma Round6Nearest(v: real, w: real)
    ensures -1.0 <= 2.0 * (Round6(v) as real - v * 1000000.0) <= 1.0
    ensures v <= w ==> Round6(v) <= Round6(w)
    ensures v * 1000000.0 - (v * 1000000.0).Floor as real == 0.5 ==> Round6(v) % 2 == 0
  {
    var a, b := v * 1000000.0, w * 1000000.0;
    assert v <= w ==> a <= b;
    assert a <= b ==> a.Floor <= b.Floor;
  }

  datatype Key = Key(entityId: string, agentId: string, x: int, y: int, z: int,
                     confidence: int, timestamp: int, frameId: string, caption: string)

  /** `_dedup_key` */
  function KeyOf(o: Obs): Key {
    Key(o.entityId, o.agentId, Round6(o.x), Round6(o.y), Round6(o.z),
        Round6(o.confidence), Round6(o.timestamp), o.frameId, o.caption)
  }

  /** Equal to the nearest millionth. */
  ghost predicate Close(v: real, w: real) { Round6(v) == Round6(w) }

  lemma CloseMeans(v: real, w: real)
    ensures v == w ==> Close(v, w)
    ensures Close(v, w) ==> -1.0 <= (v - w) * 1000000.0 <= 1.0
  {
    Round6Nearest(v, w);
    Round6Nearest(w, v);
  }

  /**
    Two observations are duplicates of one another exactly when entity, agent, frame and caption are the same
    and place, confidence and time agree to the nearest millionth. What else they carry does not count.
   */
  lemma DuplicatesExactly(a: Obs, b: Obs)
    ensures KeyOf(a) == KeyOf(b) <==>
      && a.entityId == b.entityId && a.agentId == b.agentId && a.frameId == b.frameId && a.caption == b.caption
      && Close(a.x, b.x) && Close(a.y, b.y) && Close(a.z, b.z)
      && Close(a.confidence, b.confidence) && Close(a.timestamp, b.timestamp)
    ensures KeyOf(a) == KeyOf(b) ==> -1.0 <= (a.timestamp - b.timestamp) * 1000000.0 <= 1.0
    ensures a.(rest := b.rest) == b ==> KeyOf(a) == KeyOf(b)
  {
    CloseMeans(a.timestamp, b.timestamp);
    hide Round6;
  }

  datatype Index = Index(root: Tree, seen: set<Key>)

  function Empty(world: Cube): Index { Index(Fresh(world), {}) }

  /** `insert` */
  function Put(i: Index, o: Obs, lim: Limits): Index {
    if KeyOf(o) in i.seen then i else Index(Inserted(i.root, o, 0, lim), i.seen + {KeyOf(o)})
  }

  function InsertList(t: Tree, os: seq<Obs>, lim: Limits): Tree {
    if os == [] then t else Inserted(InsertList(t, os[..|os| - 1], lim), os[|os| - 1], 0, lim)
  }

  function Since(os: seq<Obs>, cutoff: real): seq<Obs> {
    if os == [] then []
    else
      var last := os[|os| - 1];
      Since(os[..|os| - 1], cutoff) + (if last.timestamp >= cutoff then [last] else [])
  }

  /** `_rebuild` */
  function Rebuilt(world: Cube, os: seq<Obs>, lim: Limits): Index {
    Index(InsertList(Fresh(world), os, lim), (set o | o in os :: KeyOf(o)))
  }

  /** `prune_expired`, from the cutoff on */
  function Pruned(i: Index, cutoff: real, lim: Limits): Index {
    Rebuilt(i.root.cube, Since(All(i.root), cutoff), lim)
  }

  // ----- the linear scan -----------------------------------------------------------------------------------

  datatype Scan = Scan(stored: set<Obs>, seen: set<Key>)

  function ScanPut(s: Scan, o: Obs, world: Cube): Scan {
    if KeyOf(o) in s.seen then s
    else Scan(if world.Contains(o) then s.stored + {o} else s.stored, s.seen + {KeyOf(o)})
  }

  function Recent(os: set<Obs>, cutoff: real): set<Obs> { set o | o in os && o.timestamp >= cutoff }

  function Keys(os: set<Obs>): set<Key> { set o | o in os :: KeyOf(o) }

  function ScanPrune(s: Scan, cutoff: real): Scan {
    Scan(Recent(s.stored, cutoff), Keys(Recent(s.stored, cutoff)))
  }

  function AsScan(i: Index): Scan { Scan((set o | o in All(i.root)), i.seen) }

  /** Different stored observations have different keys, and every one of these has been seen. */
  ghost predicate KeysApart(s: Scan) {
    && (forall a, b :: a in s.stored && b in s.stored && KeyOf(a) == KeyOf(b) ==> a == b)
    && (forall a :: a in s.stored ==> KeyOf(a) in s.seen)
  }

  ghost predicate Good(i: Index, world: Cube) {
    i.root.cube == world && WellFormed(i.root) && KeysApart(AsScan(i))
  }

  // ----- one step ------------------------------------------------------------------------------------------

  lemma InsertedMembers(t: Tree, o: Obs, depth: nat, lim: Limits)
    requires WellFormed(t)
    ensures forall q :: q in All(Inserted(t, o, depth, lim)) <==> q in All(t) || (q == o && t.cube.Contains(o))
  {
    hide All, Inserted, WellFormed, Cube.Contains, Copies, Times;
    StoredInside(t, o, depth, lim);
    forall q ensures q in All(Inserted(t, o, depth, lim)) <==> q in All(t) || (q == o && t.cube.Contains(o)) {
      InsertedCounts(t, o, depth, lim, q);
      TimesMember(All(t), q);
      TimesMember(All(Inserted(t, o, depth, lim)), q);
    }
  }

  lemma EmptyAgrees(world: Cube)
    ensures Good(Empty(world), world) && AsScan(Empty(world)) == Scan({}, {})
  {
    FreshWellFormed(world);
  }

  /** Inserting into the octree is inserting into the scanned set. */
  lemma PutAgrees(i: Index, o: Obs, lim: Limits, world: Cube)
    requires Good(i, world)
    ensures Good(Put(i, o, lim), world)
    ensures AsScan(Put(i, o, lim)) == ScanPut(AsScan(i), o, world)
  {
    hide Inserted, WellFormed, All, Cube.Contains, KeyOf;
    InsertedWellFormed(i.root, o, 0, lim);
    InsertedMembers(i.root, o, 0, lim);
    if KeyOf(o) !in i.seen {
      var r := Put(i, o, lim);
      assert AsScan(r).stored == ScanPut(AsScan(i), o, world).stored;
    }
  }

  lemma {:induction false} InsertListMembers(t: Tree, os: seq<Obs>, lim: Limits)
    requires WellFormed(t)
    ensures WellFormed(InsertList(t, os, lim)) && InsertList(t, os, lim).cube == t.cube
    ensures forall q :: q in All(InsertList(t, os, lim)) <==> q in All(t) || (q in os && t.cube.Contains(q))
  {
    hide Inserted, WellFormed, All, Cube.Contains;
    if os != [] {
      var n := |os| - 1;
      Snoc(os);
      InsertListMembers(t, os[..n], lim);
      var before := InsertList(t, os[..n], lim);
      InsertedWellFormed(before, os[n], 0, lim);
      InsertedMembers(before, os[n], 0, lim);
    }
  }

  lemma {:induction false} SinceMembers(os: seq<Obs>, cutoff: real)
    ensures forall q :: q in Since(os, cutoff) <==> q in os && q.timestamp >= cutoff
  {
    if os != [] {
      Snoc(os);
      SinceMembers(os[..|os| - 1], cutoff);
    }
  }

  /** Everything stored lies in the world. */
  lemma StoredInWorld(i: Index, world: Cube, o: Obs)
    requires Good(i, world) && o in All(i.root)
    ensures world.Contains(o)
  {
    hide All, WellFormed, Cube.Contains;
    AllInCube(i.root);
  }

  /** Pruning stores exactly the recent observations, and the seen keys are exactly theirs. */
  lemma PruneAgrees(i: Index, cutoff: real, lim: Limits, world: Cube)
    requires Good(i, world)
    ensures Good(Pruned(i, cutoff, lim), world)
    ensures AsScan(Pruned(i, cutoff, lim)) == ScanPrune(AsScan(i), cutoff)
  {
    hide InsertList, WellFormed, All, Cube.Contains, KeyOf, Since, Fresh;
    var os := Since(All(i.root), cutoff);
    var r := Pruned(i, cutoff, lim);
    FreshWellFormed(world);
    FreshCube(world);
    InsertListMembers(Fresh(world), os, lim);
    SinceMembers(All(i.root), cutoff);
    forall o | o in os ensures world.Contains(o) { StoredInWorld(i, world, o); }
    assert forall q :: q in All(r.root) <==> q in os;
    assert AsScan(r).stored == Recent(AsScan(i).stored, cutoff);
    assert r.seen == Keys(AsScan(r).stored);
  }

  lemma FreshCube(c: Cube)
    ensures Fresh(c).cube == c
  {
  }

  // ----- whole runs ------------------------------------------------------------------------------------------

  datatype Op = Insert(o: Obs) | Prune(cutoff: real)

  function Run(world: Cube, ops: seq<Op>, lim: Limits): Index {
    if ops == [] then Empty(world)
    else
      var i := Run(world, ops[..|ops| - 1], lim);
      match ops[|ops| - 1]
      case Insert(o) => Put(i, o, lim)
      case Prune(cutoff) => Pruned(i, cutoff, lim)
  }

  function ScanRun(world: Cube, ops: seq<Op>): Scan {
    if ops == [] then Scan({}, {})
    else
      var s := ScanRun(world, ops[..|ops| - 1]);
      match ops[|ops| - 1]
      case Insert(o) => ScanPut(s, o, world)
      case Prune(cutoff) => ScanPrune(s, cutoff)
  }

  /** After any run of insertions and prunings the index holds what the linear scan holds. */
  lemma {:induction false} RunAgrees(world: Cube, ops: seq<Op>, lim: Limits)
    ensures Good(Run(world, ops, lim), world)
    ensures AsScan(Run(world, ops, lim)) == ScanRun(world, ops)
  {
    hide Good, AsScan, Put, Pruned, ScanPut, ScanPrune;
    if ops == [] {
      EmptyAgrees(world);
    } else {
      var n := |ops| - 1;
      RunAgrees(world, ops[..n], lim);
      match ops[n]
      case Insert(o) => PutAgrees(Run(world, ops[..n], lim), o, lim, world);
      case Prune(cutoff) => PruneAgrees(Run(world, ops[..n], lim), cutoff, lim, world);
    }
  }

  /** In every reachable index, each node files its observations by entity. */
  lemma {:induction false} RunBucketed(world: Cube, ops: seq<Op>, lim: Limits)
    ensures AllBucketed(Run(world, ops, lim).root)
  {
    hide AllBucketed, Inserted, All, Since, KeyOf;
    FreshBucketed(world);
    if ops != [] {
      var i := Run(world, ops[..|ops| - 1], lim);
      RunBucketed(world, ops[..|ops| - 1], lim);
      match ops[|ops| - 1]
      case Insert(o) => InsertedBucketed(i.root, o, 0, lim);
      case Prune(cutoff) =>
        FreshBucketed(i.root.cube);
        ListBucketed(Fresh(i.root.cube), Since(All(i.root), cutoff), lim);
    }
  }

  lemma FreshBucketed(c: Cube)
    ensures AllBucketed(Fresh(c))
  {
  }

  lemma {:induction false} ListBucketed(t: Tree, os: seq<Obs>, lim: Limits)
    requires AllBucketed(t)
    ensures AllBucketed(InsertList(t, os, lim))
  {
    hide AllBucketed, Inserted;
    if os != [] {
      ListBucketed(t, os[..|os| - 1], lim);
      InsertedBucketed(InsertList(t, os[..|os| - 1], lim), os[|os| - 1], 0, lim);
    }
  }

  /** A search answers, as a set, exactly what a scan of everything stored would. */
  lemma SearchIsScan(world: Cube, ops: seq<Op>, lim: Limits, s: Sphere)
    ensures (set o | o in Hits(Run(world, ops, lim).root, s)) == set o | o in ScanRun(world, ops).stored && s.Holds(o)
  {
    hide Run, ScanRun, Hits, WellFormed, All, Sphere.Holds, Times;
    RunAgrees(world, ops, lim);
    var i := Run(world, ops, lim);
    forall o ensures o in Hits(i.root, s) <==> o in AsScan(i).stored && s.Holds(o) {
      HitsAreScan(i.root, s, o);
      TimesMember(Hits(i.root, s), o);
      TimesMember(All(i.root), o);
    }
  }

  // ----- boxes -------------------------------------------------------------------------------------------------

  datatype Box = Box(x1: real, y1: real, z1: real, x2: real, y2: real, z2: real) {
    predicate Holds(o: Obs) { x1 <= o.x <= x2 && y1 <= o.y <= y2 && z1 <= o.z <= z2 }

    function DiagonalSquared(): real { Square(x2 - x1) + Square(y2 - y1) + Square(z2 - z1) }

    /** The sphere around the box, given the exact length of its diagonal. */
    function Around(diagonal: real): Sphere {
      Sphere((x1 + x2) / 2.0, (y1 + y2) / 2.0, (z1 + z2) / 2.0, diagonal / 2.0)
    }
  }

  function Boxed(os: seq<Obs>, b: Box): seq<Obs> {
    if os == [] then []
    else
      var last := os[|os| - 1];
      Boxed(os[..|os| - 1], b) + (if b.Holds(last) then [last] else [])
  }

  lemma {:induction false} BoxedCounts(os: seq<Obs>, b: Box, q: Obs)
    ensures Times(Boxed(os, b), q) == if b.Holds(q) then Times(os, q) else 0
  {
    hide Box.Holds;
    if os != [] {
      BoxedCounts(os[..|os| - 1], b, q);
      Snoc(os);
    }
  }

  /** A point between two ends is no farther from the middle than half their distance. */
  lemma AxisMiddle(a: real, b: real, v: real)
    requires a <= v <= b
    ensures Square(v - (a + b) / 2.0) <= Square(b - a) / 4.0
  {
    var d, h := v - (a + b) / 2.0, (b - a) / 2.0;
    assert -h <= d <= h;
    assert (h - d) * (h + d) >= 0.0;
    assert (h - d) * (h + d) == h * h - d * d;
    assert h * h == Square(b - a) / 4.0;
  }

  lemma BoxInSphere(b: Box, diagonal: real, o: Obs)
    requires Square(diagonal) == b.DiagonalSquared() && b.Holds(o)
    ensures b.Around(diagonal).Holds(o)
  {
    AxisMiddle(b.x1, b.x2, o.x);
    AxisMiddle(b.y1, b.y2, o.y);
    AxisMiddle(b.z1, b.z2, o.z);
    assert Square(diagonal / 2.0) == Square(diagonal) / 4.0;
    hide Square;
  }

  /** A box query finds every copy of what lies in the box, and nothing else. */
  lemma BoxIsScan(t: Tree, b: Box, diagonal: real, q: Obs)
    requires WellFormed(t) && Square(diagonal) == b.DiagonalSquared()
    ensures Times(Boxed(Hits(t, b.Around(diagonal)), b), q) == if b.Holds(q) then Times(All(t), q) else 0
  {
    hide WellFormed, Hits, All, Sphere.Holds, Box.Holds, Times, Square, Boxed;
    BoxedCounts(Hits(t, b.Around(diagonal)), b, q);
    HitsAreScan(t, b.Around(diagonal), q);
    if b.Holds(q) { BoxInSphere(b, diagonal, q); }
  }

  // ----- pruning is building anew --------------------------------------------------------------------------------

  function Inserts(os: seq<Obs>): (ops: seq<Op>)
    ensures |ops| == |os|
  {
    if os == [] then [] else Inserts(os[..|os| - 1]) + [Insert(os[|os| - 1])]
  }

  lemma KeysNext(before: set<Obs>, o: Obs)
    ensures Keys(before + {o}) == Keys(before) + {KeyOf(o)}
  {
    hide KeyOf;
  }

  /** Inserting once more adds the observation, or finds that it is there already. */
  lemma ScanNext(before: set<Obs>, o: Obs, world: Cube)
    requires world.Contains(o)
    requires forall a :: a in before && KeyOf(a) == KeyOf(o) ==> a == o
    ensures ScanPut(Scan(before, Keys(before)), o, world) == Scan(before + {o}, Keys(before + {o}))
  {
    hide KeyOf, Cube.Contains;
    KeysNext(before, o);
    if KeyOf(o) in Keys(before) {
      assert o in before;
      assert before + {o} == before;
    }
  }

  lemma {:induction false} ScanOfInserts(world: Cube, os: seq<Obs>, all: set<Obs>)
    requires forall o :: o in os ==> o in all && world.Contains(o)
    requires forall a, b :: a in all && b in all && KeyOf(a) == KeyOf(b) ==> a == b
    ensures ScanRun(world, Inserts(os)) == Scan((set o | o in os), Keys(set o | o in os))
  {
    hide KeyOf, Cube.Contains, ScanPut, Keys;
    if os == [] {
      NoKeys();
      assert (set o | o in os) == {};
    } else {
      var n := |os| - 1;
      Snoc(os);
      ScanOfInserts(world, os[..n], all);
      assert Inserts(os)[..n] == Inserts(os[..n]);
      var before := set o | o in os[..n];
      assert (set o | o in os) == before + {os[n]};
      ScanNext(before, os[n], world);
    }
  }

  lemma NoKeys()
    ensures Keys({}) == {}
  {
  }

  /**
    After a pruning the index answers as if only the surviving observations had been inserted, in any
    order and any number of times, into an empty one.
   */
  lemma PruneIsRebuild(world: Cube, ops: seq<Op>, lim: Limits, cutoff: real, os: seq<Obs>)
    requires forall o :: o in os <==> o in ScanRun(world, ops).stored && o.timestamp >= cutoff
    ensures AsScan(Run(world, ops + [Prune(cutoff)], lim)) == AsScan(Run(world, Inserts(os), lim))
  {
    hide KeyOf, Cube.Contains, All;
    var i := Run(world, ops, lim);
    RunAgrees(world, ops, lim);
    RunAgrees(world, ops + [Prune(cutoff)], lim);
    RunAgrees(world, Inserts(os), lim);
    assert (ops + [Prune(cutoff)])[..|ops|] == ops;
    forall o | o in os ensures world.Contains(o) { StoredInWorld(i, world, o); }
    ScanOfInserts(world, os, ScanRun(world, ops).stored);
    assert (set o | o in os) == Recent(ScanRun(world, ops).stored, cutoff);
  }
}
