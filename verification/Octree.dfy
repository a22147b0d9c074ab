/**
  The octree of `spatial.py` as a value: insertion, pruned search and collection.

  A node keeps its own observations when it is divided, children are closed cubes, and a point on a
  face shared by several children is stored in each of them.
 */
module Octree {
  import opened Common

  /** `caption` is the label; `rest` stands for orientation, size and metadata, which nothing here looks at. */
  datatype Obs = Obs(entityId: string, agentId: string, x: real, y: real, z: real,
                     confidence: real, timestamp: real, frameId: string, caption: string, rest: string)

  function Distance(a: real, b: real): real { if a >= b then a - b else b - a }

  datatype Cube = Cube(cx: real, cy: real, cz: real, half: real) {
    /** `_contains`: faces, edges and corners belong to the cube. */
    predicate Contains(o: Obs) {
      Distance(cx, o.x) <= half && Distance(cy, o.y) <= half && Distance(cz, o.z) <= half
    }

    /** The point lies on one of the three planes through the centre. */
    predicate Halved(o: Obs) { o.x == cx || o.y == cy || o.z == cz }

    function Part(dx: real, dy: real, dz: real): Cube {
      Cube(cx + dx * (half / 2.0), cy + dy * (half / 2.0), cz + dz * (half / 2.0), half / 2.0)
    }

    /** The eight cubes of `_subdivide`, in its order. */
    function Parts(): (cs: seq<Cube>)
      ensures |cs| == 8
    {
      [Part(-1.0, -1.0, -1.0), Part(-1.0, -1.0, 1.0), Part(-1.0, 1.0, -1.0), Part(-1.0, 1.0, 1.0),
       Part(1.0, -1.0, -1.0), Part(1.0, -1.0, 1.0), Part(1.0, 1.0, -1.0), Part(1.0, 1.0, 1.0)]
    }
  }

  /** An entry of a node's `obs` dict. */
  datatype Bucket = Bucket(entityId: string, list: seq<Obs>)

  datatype Tree = Node(cube: Cube, obs: seq<Bucket>, kids: seq<Tree>, size: nat)

  datatype Limits = Limits(maxDepth: int, maxPerLeaf: int)

  datatype Sphere = Sphere(x: real, y: real, z: real, radius: real) {
    predicate Holds(o: Obs) {
      Square(o.x - x) + Square(o.y - y) + Square(o.z - z) <= Square(radius)
    }
  }

  function Square(r: real): real { r * r }

  function Fresh(c: Cube): Tree { Node(c, [], [], 0) }

  /** The position of the entity's bucket, or of the one it would get. */
  function Place(bs: seq<Bucket>, entityId: string): (i: nat)
    ensures i <= |bs| && (i < |bs| ==> bs[i].entityId == entityId)
    ensures i == |bs| ==> forall j :: 0 <= j < |bs| ==> bs[j].entityId != entityId
  {
    if bs == [] then 0 else if bs[0].entityId == entityId then 0 else Place(bs[1..], entityId) + 1
  }

  /** `obs.setdefault(entity_id, []).append(o)` */
  function AddTo(bs: seq<Bucket>, o: Obs): seq<Bucket> {
    var i := Place(bs, o.entityId);
    if i == |bs| then bs + [Bucket(o.entityId, [o])] else bs[i := bs[i].(list := bs[i].list + [o])]
  }

  function Listed(bs: seq<Bucket>): seq<Obs> {
    if bs == [] then [] else Listed(bs[..|bs| - 1]) + bs[|bs| - 1].list
  }

  /** Whether a leaf still takes an observation itself. The capacity counts entities, not observations. */
  predicate HasRoom(t: Tree, depth: nat, lim: Limits) {
    depth >= lim.maxDepth || |t.obs| < lim.maxPerLeaf
  }

  /** The children an insertion goes on to. */
  function KidsOf(t: Tree): (ks: seq<Tree>)
    ensures t.kids != [] ==> ks == t.kids
    ensures t.kids == [] ==> |ks| == 8 && forall i :: 0 <= i < 8 ==> ks[i] == Fresh(t.cube.Parts()[i])
  {
    if t.kids != [] then t.kids else seq(8, i requires 0 <= i < 8 => Fresh(t.cube.Parts()[i]))
  }

  /** `insert` */
  function Inserted(t: Tree, o: Obs, depth: nat, lim: Limits): (r: Tree)
    decreases Max(0, lim.maxDepth - depth), t
  {
    if !t.cube.Contains(o) then t
    else if t.kids == [] && HasRoom(t, depth, lim) then t.(obs := AddTo(t.obs, o), size := t.size + 1)
    else t.(kids := InsertedAll(KidsOf(t), o, depth + 1, lim))
  }

  function InsertedAll(ks: seq<Tree>, o: Obs, depth: nat, lim: Limits): (r: seq<Tree>)
    ensures |r| == |ks|
    decreases Max(0, lim.maxDepth - depth), ks
  {
    if ks == [] then []
    else InsertedAll(ks[..|ks| - 1], o, depth, lim) + [Inserted(ks[|ks| - 1], o, depth, lim)]
  }

  function Outside(v: real, c: real, h: real): real {
    if v < c - h then Square(v - (c - h)) else if v > c + h then Square(v - (c + h)) else 0.0
  }

  /** `_overlaps_sphere` */
  predicate Overlaps(c: Cube, s: Sphere) {
    Outside(s.x, c.cx, c.half) + Outside(s.y, c.cy, c.half) + Outside(s.z, c.cz, c.half) <= Square(s.radius)
  }

  function Near(os: seq<Obs>, s: Sphere): seq<Obs> {
    if os == [] then []
    else
      var last := os[|os| - 1];
      Near(os[..|os| - 1], s) + (if s.Holds(last) then [last] else [])
  }

  /** What `query_sphere` appends to its output. */
  function Hits(t: Tree, s: Sphere): seq<Obs>
    decreases t
  {
    if !Overlaps(t.cube, s) then [] else Near(Listed(t.obs), s) + HitsAll(t.kids, s)
  }

  function HitsAll(ks: seq<Tree>, s: Sphere): seq<Obs>
    decreases ks
  {
    if ks == [] then [] else HitsAll(ks[..|ks| - 1], s) + Hits(ks[|ks| - 1], s)
  }

  /** What `collect_all` appends to its output. */
  function All(t: Tree): seq<Obs>
    decreases t
  {
    Listed(t.obs) + AllOf(t.kids)
  }

  function AllOf(ks: seq<Tree>): seq<Obs>
    decreases ks
  {
    if ks == [] then [] else AllOf(ks[..|ks| - 1]) + All(ks[|ks| - 1])
  }

  /** How many copies an insertion stores. */
  function Copies(t: Tree, o: Obs, depth: nat, lim: Limits): nat
    decreases Max(0, lim.maxDepth - depth), t
  {
    if !t.cube.Contains(o) then 0
    else if t.kids == [] && HasRoom(t, depth, lim) then 1
    else CopiesIn(KidsOf(t), o, depth + 1, lim)
  }

  function CopiesIn(ks: seq<Tree>, o: Obs, depth: nat, lim: Limits): nat
    decreases Max(0, lim.maxDepth - depth), ks
  {
    if ks == [] then 0 else CopiesIn(ks[..|ks| - 1], o, depth, lim) + Copies(ks[|ks| - 1], o, depth, lim)
  }

  // ----- the shape of a tree -----------------------------------------------------------------------------

  ghost predicate AllInside(os: seq<Obs>, c: Cube) {
    forall i :: 0 <= i < |os| ==> c.Contains(os[i])
  }

  /** A node holds only what lies in its cube, and its children divide it. */
  ghost predicate WellFormed(t: Tree)
    decreases t
  {
    && AllInside(Listed(t.obs), t.cube)
    && t.size == |Listed(t.obs)|
    && (t.kids == [] || (|t.kids| == 8 && Divided(t.kids, t.cube)))
  }

  ghost predicate Divided(ks: seq<Tree>, c: Cube)
    requires |ks| <= 8
    decreases ks
  {
    forall i :: 0 <= i < |ks| ==> ks[i].cube == c.Parts()[i] && WellFormed(ks[i])
  }

  /** Which of the eight parts lies on which side: bit 2 of the index is x, bit 1 is y, bit 0 is z. */
  function Sign(bit: bool): real { if bit then 1.0 else -1.0 }

  function PartAt(x: bool, y: bool, z: bool): nat {
    (if x then 4 else 0) + (if y then 2 else 0) + (if z then 1 else 0)
  }

  lemma PartIs(c: Cube, x: bool, y: bool, z: bool)
    ensures c.Parts()[PartAt(x, y, z)] == c.Part(Sign(x), Sign(y), Sign(z))
  {
  }

  lemma IndexIsPart(i: nat) returns (x: bool, y: bool, z: bool)
    requires i < 8
    ensures i == PartAt(x, y, z)
  {
    x, y, z := i >= 4, i % 4 >= 2, i % 2 == 1;
  }

  /** Along one axis, a half holds what the whole holds on its side of the centre. */
  lemma AxisHalf(c: real, h: real, v: real, upper: bool)
    ensures Distance(c + Sign(upper) * (h / 2.0), v) <= h / 2.0
       <==> Distance(c, v) <= h && (if upper then v >= c else v <= c)
  {
    if upper {
      assert Sign(upper) * (h / 2.0) == h / 2.0;
    } else {
      assert Sign(upper) * (h / 2.0) == -(h / 2.0);
    }
  }

  /** A part contains a point of the cube exactly when the point is on the part's side, planes included. */
  lemma PartContains(c: Cube, o: Obs, x: bool, y: bool, z: bool)
    ensures c.Parts()[PartAt(x, y, z)].Contains(o) <==>
            c.Contains(o) && (if x then o.x >= c.cx else o.x <= c.cx)
            && (if y then o.y >= c.cy else o.y <= c.cy) && (if z then o.z >= c.cz else o.z <= c.cz)
  {
    PartIs(c, x, y, z);
    AxisHalf(c.cx, c.half, o.x, x);
    AxisHalf(c.cy, c.half, o.y, y);
    AxisHalf(c.cz, c.half, o.z, z);
    hide Distance, Cube.Parts;
  }

  /** The parts lie in the cube. */
  lemma PartsInside(c: Cube, i: nat, o: Obs)
    requires i < 8 && c.Parts()[i].Contains(o)
    ensures c.Contains(o)
  {
    var x, y, z := IndexIsPart(i);
    PartContains(c, o, x, y, z);
  }

  /** The parts cover the cube, and off the centre planes they are apart; on one, at least two parts meet. */
  lemma PartsCover(c: Cube, o: Obs) returns (i: nat, j: nat)
    requires c.Contains(o)
    ensures i < 8 && j < 8 && c.Parts()[i].Contains(o) && c.Parts()[j].Contains(o)
    ensures i != j <==> c.Halved(o)
    ensures !c.Halved(o) ==> forall k :: 0 <= k < 8 && c.Parts()[k].Contains(o) ==> k == i
  {
    i := PartAt(o.x >= c.cx, o.y >= c.cy, o.z >= c.cz);
    j := PartAt(o.x > c.cx, o.y > c.cy, o.z > c.cz);
    PartContains(c, o, o.x >= c.cx, o.y >= c.cy, o.z >= c.cz);
    PartContains(c, o, o.x > c.cx, o.y > c.cy, o.z > c.cz);
    if !c.Halved(o) {
      forall k | 0 <= k < 8 && c.Parts()[k].Contains(o) ensures k == i {
        var x, y, z := IndexIsPart(k);
        PartContains(c, o, x, y, z);
      }
    }
  }

  // ----- insertion ---------------------------------------------------------------------------------------

  lemma {:induction false} ListedUpdate(bs: seq<Bucket>, i: nat, o: Obs)
    requires i < |bs|
    ensures multiset(Listed(bs[i := bs[i].(list := bs[i].list + [o])])) == multiset(Listed(bs)) + multiset{o}
    decreases |bs|
  {
    var n := |bs| - 1;
    var bs' := bs[i := bs[i].(list := bs[i].list + [o])];
    if i < n {
      ListedUpdate(bs[..n], i, o);
      assert bs'[..n] == bs[..n][i := bs[i].(list := bs[i].list + [o])];
    } else {
      assert bs'[..n] == bs[..n];
    }
  }

  /** Appending to a dict of lists adds one observation to what is listed. */
  lemma AddToCounts(bs: seq<Bucket>, o: Obs)
    ensures multiset(Listed(AddTo(bs, o))) == multiset(Listed(bs)) + multiset{o}
  {
    hide Place;
    var i := Place(bs, o.entityId);
    if i < |bs| {
      ListedUpdate(bs, i, o);
    } else {
      assert AddTo(bs, o)[..|bs|] == bs;
    }
  }

  /** Elements of equal multisets. */
  lemma SameMembers<T>(a: seq<T>, b: seq<T>, x: T)
    requires multiset(a) == multiset(b) + multiset{x}
    ensures |a| == |b| + 1
    ensures forall y :: y in a ==> y in b || y == x
  {
    assert |multiset(a)| == |a| && |multiset(b)| == |b|;
    forall y | y in a ensures y in b || y == x { assert y in multiset(a); }
  }

  lemma AddToInside(t: Tree, o: Obs)
    requires AllInside(Listed(t.obs), t.cube) && t.size == |Listed(t.obs)| && t.cube.Contains(o)
    ensures AllInside(Listed(AddTo(t.obs, o)), t.cube) && t.size + 1 == |Listed(AddTo(t.obs, o))|
  {
    hide AddTo, Listed, Cube.Contains;
    AddToCounts(t.obs, o);
    var a, b := Listed(AddTo(t.obs, o)), Listed(t.obs);
    SameMembers(a, b, o);
    forall i | 0 <= i < |a| ensures t.cube.Contains(a[i]) { assert a[i] in a; }
  }

  lemma KidsDivided(t: Tree)
    requires WellFormed(t)
    ensures |KidsOf(t)| == 8 && Divided(KidsOf(t), t.cube)
  {
    hide Cube.Contains, Cube.Parts;
    if t.kids == [] {
      forall i | 0 <= i < 8 ensures KidsOf(t)[i].cube == t.cube.Parts()[i] && WellFormed(KidsOf(t)[i]) {
        FreshWellFormed(t.cube.Parts()[i]);
      }
    }
  }

  lemma FreshWellFormed(c: Cube)
    ensures WellFormed(Fresh(c)) && All(Fresh(c)) == []
  {
  }

  /** Insertion keeps the shape: nothing leaves its cube. */
  lemma {:induction false} InsertedWellFormed(t: Tree, o: Obs, depth: nat, lim: Limits)
    requires WellFormed(t)
    ensures WellFormed(Inserted(t, o, depth, lim)) && Inserted(t, o, depth, lim).cube == t.cube
    decreases Max(0, lim.maxDepth - depth), t
  {
    hide Cube.Contains, Cube.Parts, AddTo, Listed, AllInside, KidsOf;
    if t.cube.Contains(o) {
      if t.kids == [] && HasRoom(t, depth, lim) {
        AddToInside(t, o);
      } else {
        KidsDivided(t);
        KidsAre(t);
        InsertedAllDivided(KidsOf(t), t.cube, o, depth + 1, lim);
      }
    }
  }

  lemma KidsAre(t: Tree)
    ensures t.kids != [] ==> KidsOf(t) == t.kids
  {
  }

  lemma {:induction false} InsertedAllDivided(ks: seq<Tree>, c: Cube, o: Obs, depth: nat, lim: Limits)
    requires |ks| <= 8 && Divided(ks, c)
    ensures Divided(InsertedAll(ks, o, depth, lim), c)
    decreases Max(0, lim.maxDepth - depth), ks
  {
    hide WellFormed, Cube.Contains, Cube.Parts, Inserted;
    if ks != [] {
      var n := |ks| - 1;
      assert Divided(ks[..n], c);
      InsertedAllDivided(ks[..n], c, o, depth, lim);
      InsertedWellFormed(ks[n], o, depth, lim);
    }
  }

  // ----- when a leaf is divided --------------------------------------------------------------------------

  /** One bucket per entity, none empty. */
  ghost predicate Bucketed(bs: seq<Bucket>) {
    && (forall i, j :: 0 <= i < j < |bs| ==> bs[i].entityId != bs[j].entityId)
    && (forall i :: 0 <= i < |bs| ==> bs[i].list != [] && forall o :: o in bs[i].list ==> o.entityId == bs[i].entityId)
  }

  ghost predicate AllBucketed(t: Tree)
    decreases t
  {
    Bucketed(t.obs) && forall k :: 0 <= k < |t.kids| ==> AllBucketed(t.kids[k])
  }

  lemma AddToBucketed(bs: seq<Bucket>, o: Obs)
    requires Bucketed(bs)
    ensures Bucketed(AddTo(bs, o))
  {
    hide Place;
  }

  /** Insertion files every observation under its own entity. */
  lemma {:induction false} InsertedBucketed(t: Tree, o: Obs, depth: nat, lim: Limits)
    requires AllBucketed(t)
    ensures AllBucketed(Inserted(t, o, depth, lim))
    decreases Max(0, lim.maxDepth - depth), t
  {
    hide Cube.Contains, AddTo, Bucketed, Cube.Parts;
    if t.cube.Contains(o) {
      if t.kids == [] && HasRoom(t, depth, lim) {
        AddToBucketed(t.obs, o);
      } else {
        forall k | 0 <= k < |KidsOf(t)| ensures AllBucketed(KidsOf(t)[k]) { KidBucketed(t, k); }
        KidsAre(t);
        InsertedAllBucketed(KidsOf(t), o, depth + 1, lim);
      }
    }
  }

  lemma KidBucketed(t: Tree, k: nat)
    requires AllBucketed(t) && k < |KidsOf(t)|
    ensures AllBucketed(KidsOf(t)[k])
  {
  }

  lemma {:induction false} InsertedAllBucketed(ks: seq<Tree>, o: Obs, depth: nat, lim: Limits)
    requires forall k :: 0 <= k < |ks| ==> AllBucketed(ks[k])
    ensures forall k :: 0 <= k < |ks| ==> AllBucketed(InsertedAll(ks, o, depth, lim)[k])
    decreases Max(0, lim.maxDepth - depth), ks
  {
    hide AllBucketed, Inserted;
    if ks != [] {
      var n := |ks| - 1;
      InsertedAllBucketed(ks[..n], o, depth, lim);
      InsertedBucketed(ks[n], o, depth, lim);
    }
  }

  ghost function Entities(os: seq<Obs>): set<string> { set o | o in os :: o.entityId }

  ghost function Names(bs: seq<Bucket>): set<string> {
    if bs == [] then {} else Names(bs[..|bs| - 1]) + {bs[|bs| - 1].entityId}
  }

  lemma {:induction false} NameOf(bs: seq<Bucket>, e: string)
    ensures e in Names(bs) ==> exists i :: 0 <= i < |bs| && bs[i].entityId == e
  {
    if bs != [] && e in Names(bs) {
      var n := |bs| - 1;
      if bs[n].entityId != e {
        NameOf(bs[..n], e);
        var i :| 0 <= i < n && bs[..n][i].entityId == e;
        assert bs[i].entityId == e;
      }
    }
  }

  lemma BucketedInit(bs: seq<Bucket>)
    requires Bucketed(bs) && bs != []
    ensures Bucketed(bs[..|bs| - 1])
    ensures bs[|bs| - 1].list != [] && forall o :: o in bs[|bs| - 1].list ==> o.entityId == bs[|bs| - 1].entityId
    ensures forall i :: 0 <= i < |bs| - 1 ==> bs[i].entityId != bs[|bs| - 1].entityId
  {
  }

  lemma {:induction false} OneBucketEach(bs: seq<Bucket>)
    requires Bucketed(bs)
    ensures Entities(Listed(bs)) == Names(bs) && |Names(bs)| == |bs|
  {
    hide Bucketed, Entities;
    if bs == [] {
      NoEntities();
    } else {
      var n := |bs| - 1;
      BucketedInit(bs);
      OneBucketEach(bs[..n]);
      EntitiesJoin(Listed(bs[..n]), bs[n].list, bs[n].entityId);
      NameOf(bs[..n], bs[n].entityId);
      assert bs[n].entityId !in Names(bs[..n]);
    }
  }

  lemma NoEntities()
    ensures Entities([]) == {}
  {
  }

  lemma EntitiesJoin(a: seq<Obs>, b: seq<Obs>, e: string)
    requires b != [] && forall o :: o in b ==> o.entityId == e
    ensures Entities(a + b) == Entities(a) + {e}
  {
    assert b[0] in a + b && b[0].entityId == e;
  }

  /**
    A leaf that an observation reaches is divided exactly when it is above the depth limit and already holds
    as many entities as a leaf may; how many observations these have does not count.
   */
  lemma DividesExactly(t: Tree, o: Obs, depth: nat, lim: Limits)
    requires AllBucketed(t) && t.kids == [] && t.cube.Contains(o)
    ensures Inserted(t, o, depth, lim).kids != [] <==> depth < lim.maxDepth && |Entities(Listed(t.obs))| >= lim.maxPerLeaf
  {
    hide Cube.Contains, Cube.Parts, AddTo, Listed;
    OneBucketEach(t.obs);
  }
}
