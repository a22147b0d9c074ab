/** `_OctreeNode` of `spatial.py` on the heap: nodes that grow children in place, proved against the tree value. */
module OctreeHeap {
  import opened Common
  import opened Octree
  import opened OctreeSearch

  class OctreeNode {
    const cx: real
    const cy: real
    const cz: real
    const half: real
    var obs: seq<Bucket>
    var children: seq<OctreeNode>
    var size: nat
    /** The tree below this node, and the objects it consists of. */
    ghost var tree: Tree
    ghost var Repr: set<object>

    function Box(): Cube { Cube(cx, cy, cz, half) }

    ghost predicate Valid()
      reads this, Repr
      ensures Valid() ==> this in Repr
      decreases Repr + {this}
    {
      && this in Repr
      && tree.cube == Box() && tree.obs == obs && tree.size == size && |tree.kids| == |children|
      && (forall i :: 0 <= i < |children| ==>
            && children[i] in Repr && children[i].Repr <= Repr && this !in children[i].Repr
            && children[i].Valid() && children[i].tree == tree.kids[i])
      && (forall i, j :: 0 <= i < j < |children| ==> children[i].Repr !! children[j].Repr)
    }

    constructor (cx: real, cy: real, cz: real, half: real)
      ensures Valid() && fresh(Repr) && tree == Fresh(Cube(cx, cy, cz, half))
      ensures Repr == {this} && Box() == Cube(cx, cy, cz, half)
    {
      this.cx, this.cy, this.cz, this.half := cx, cy, cz, half;
      obs, children, size := [], [], 0;
      tree, Repr := Fresh(Cube(cx, cy, cz, half)), {this};
    }

    static method FreshNodes(parts: seq<Cube>) returns (nodes: seq<OctreeNode>)
      ensures |nodes| == |parts|
      ensures forall i :: 0 <= i < |nodes| ==> fresh(nodes[i]) && nodes[i].Valid() && nodes[i].Repr == {nodes[i]}
      ensures forall i :: 0 <= i < |nodes| ==> nodes[i].tree == Fresh(parts[i])
      ensures forall i, j :: 0 <= i < j < |nodes| ==> nodes[i] != nodes[j]
    {
      hide Fresh;
      nodes := [];
      for k := 0 to |parts|
        invariant |nodes| == k
        invariant forall i :: 0 <= i < k ==> fresh(nodes[i]) && nodes[i].Valid() && nodes[i].Repr == {nodes[i]}
        invariant forall i :: 0 <= i < k ==> nodes[i].tree == Fresh(parts[i])
        invariant forall i, j :: 0 <= i < j < k ==> nodes[i] != nodes[j]
      {
        var node := new OctreeNode(parts[k].cx, parts[k].cy, parts[k].cz, parts[k].half);
        nodes := nodes + [node];
      }
    }

    /** `_subdivide`: the three nested loops over the signs, in their order. */
    method Subdivide()
      requires Valid() && children == []
      modifies this
      ensures Valid() && fresh(Repr - old(Repr))
      ensures tree == old(tree).(kids := KidsOf(old(tree)))
    {
      hide Cube.Parts, Fresh;
      children := FreshNodes(Box().Parts());
      tree := tree.(kids := KidsOf(tree));
      Repr := Repr + set c | c in children;
    }

    /** `insert` */
    method Insert(o: Obs, depth: nat, lim: Limits)
      requires Valid()
      modifies Repr
      ensures Valid() && fresh(Repr - old(Repr))
      ensures tree == Inserted(old(tree), o, depth, lim)
      decreases Max(0, lim.maxDepth - depth), tree
    {
      hide Cube.Parts, Cube.Contains, AddTo, InsertedAll;
      if !Box().Contains(o) { return; }
      if children == [] {
        if depth >= lim.maxDepth || |obs| < lim.maxPerLeaf {
          obs, size := AddTo(obs, o), size + 1;
          tree := tree.(obs := AddTo(tree.obs, o), size := tree.size + 1);
          return;
        }
        Subdivide();
      }
      InsertBelow(o, depth, lim);
    }

    /** The loop over the children. */
    method InsertBelow(o: Obs, depth: nat, lim: Limits)
      requires Valid()
      modifies Repr
      ensures Valid() && fresh(Repr - old(Repr))
      ensures tree == old(tree).(kids := InsertedAll(old(tree).kids, o, depth + 1, lim))
      decreases Max(0, lim.maxDepth - depth - 1), tree.kids, 1
    {
      hide Cube.Parts, Cube.Contains, AddTo, InsertedAll, Inserted, Listed, KidsOf;
      ghost var grown := InsertEach(children, tree.kids, Repr - {this}, o, depth + 1, lim);
      InsertedAllAt(tree.kids, o, depth + 1, lim);
      tree := tree.(kids := InsertedAll(tree.kids, o, depth + 1, lim));
      Repr := {this} + grown;
    }

    static method InsertEach(nodes: seq<OctreeNode>, ghost ks: seq<Tree>, ghost space: set<object>, o: Obs, depth: nat, lim: Limits)
      returns (ghost grown: set<object>)
      requires |nodes| == |ks|
      requires forall j :: 0 <= j < |nodes| ==> nodes[j].Valid() && nodes[j].Repr <= space && nodes[j].tree == ks[j]
      requires forall j, k :: 0 <= j < k < |nodes| ==> nodes[j].Repr !! nodes[k].Repr
      modifies space
      ensures forall j :: 0 <= j < |nodes| ==> nodes[j].Valid() && nodes[j].tree == Inserted(ks[j], o, depth, lim)
      ensures forall j :: 0 <= j < |nodes| ==> nodes[j].Repr <= grown
      ensures space <= grown && fresh(grown - space)
      ensures forall j, k :: 0 <= j < k < |nodes| ==> nodes[j].Repr !! nodes[k].Repr
      decreases Max(0, lim.maxDepth - depth), ks, 0
    {
      hide Cube.Parts, Cube.Contains, AddTo, InsertedAll, Inserted, Listed, KidsOf;
      grown := space;
      for i := 0 to |nodes|
        invariant space <= grown && fresh(grown - space)
        invariant forall j :: 0 <= j < |nodes| ==> nodes[j].Repr <= grown
        invariant forall j :: 0 <= j < |nodes| ==> nodes[j].Valid()
        invariant forall j :: 0 <= j < i ==> nodes[j].tree == Inserted(ks[j], o, depth, lim)
        invariant forall j :: i <= j < |nodes| ==> nodes[j].tree == ks[j] && nodes[j].Repr == old(nodes[j].Repr)
        invariant forall j :: 0 <= j < |nodes| ==> fresh(nodes[j].Repr - old(nodes[j].Repr))
        invariant forall j, k :: 0 <= j < k < |nodes| ==> nodes[j].Repr !! nodes[k].Repr
      {
        nodes[i].Insert(o, depth, lim);
        grown := grown + nodes[i].Repr;
      }
    }

    /** The observations a node keeps itself, as far as they lie in the sphere. */
    static method NearOwn(bs: seq<Bucket>, s: Sphere, found: seq<Obs>) returns (r: seq<Obs>)
      ensures r == found + Near(Listed(bs), s)
    {
      hide Sphere.Holds, Near;
      r := found;
      var none: seq<Obs> := [];
      NearJoin(none, none, s);
      for i := 0 to |bs|
        invariant r == found + Near(Listed(bs[..i]), s)
      {
        assert bs[..i + 1][..i] == bs[..i];
        var list := bs[i].list;
        NearJoin(Listed(bs[..i]), list, s);
        assert list[..0] == none;
        for j := 0 to |list|
          invariant r == found + (Near(Listed(bs[..i]), s) + Near(list[..j], s))
        {
          NearNext(list, j, s);
          if s.Holds(list[j]) { r := r + [list[j]]; }
        }
        assert list[..|list|] == list;
      }
      assert bs[..|bs|] == bs;
    }

    /** `query_sphere`, appending to `found`. */
    method QuerySphere(s: Sphere, found: seq<Obs>) returns (r: seq<Obs>)
      requires Valid()
      ensures r == found + Hits(tree, s)
      decreases tree, 0
    {
      hide Outside, Square, Sphere.Holds, Near, Listed, HitsAll;
      var d := 0.0;
      d := d + Outside(s.x, cx, half);
      d := d + Outside(s.y, cy, half);
      d := d + Outside(s.z, cz, half);
      if d > Square(s.radius) { return found; }
      r := NearOwn(obs, s, found);
      r := QueryBelow(s, r);
    }

    method QueryBelow(s: Sphere, found: seq<Obs>) returns (r: seq<Obs>)
      requires Valid()
      ensures r == found + HitsAll(tree.kids, s)
      decreases tree.kids
    {
      hide Hits;
      r := found;
      for i := 0 to |children|
        invariant r == found + HitsAll(tree.kids[..i], s)
      {
        assert tree.kids[..i + 1][..i] == tree.kids[..i];
        r := children[i].QuerySphere(s, r);
      }
      assert tree.kids[..|children|] == tree.kids;
    }

    static method ListOwn(bs: seq<Bucket>, found: seq<Obs>) returns (r: seq<Obs>)
      ensures r == found + Listed(bs)
    {
      r := found;
      for i := 0 to |bs|
        invariant r == found + Listed(bs[..i])
      {
        assert bs[..i + 1][..i] == bs[..i];
        r := r + bs[i].list;
      }
      assert bs[..|bs|] == bs;
    }

    /** `collect_all`, appending to `found`. */
    method CollectAll(found: seq<Obs>) returns (r: seq<Obs>)
      requires Valid()
      ensures r == found + All(tree)
      decreases tree
    {
      hide Listed, All;
      r := ListOwn(obs, found);
      for i := 0 to |children|
        invariant r == found + (Listed(obs) + AllOf(tree.kids[..i]))
      {
        assert tree.kids[..i + 1][..i] == tree.kids[..i];
        r := children[i].CollectAll(r);
      }
      assert tree.kids[..|children|] == tree.kids;
      AllIs(tree);
    }
  }

  lemma AllIs(t: Tree)
    ensures All(t) == Listed(t.obs) + AllOf(t.kids)
  {
  }

  lemma NearNext(os: seq<Obs>, j: nat, s: Sphere)
    requires j < |os|
    ensures Near(os[..j + 1], s) == Near(os[..j], s) + (if s.Holds(os[j]) then [os[j]] else [])
  {
    assert os[..j + 1][..j] == os[..j];
  }

  lemma {:induction false} NearJoin(a: seq<Obs>, b: seq<Obs>, s: Sphere)
    ensures Near(a + b, s) == Near(a, s) + Near(b, s)
    ensures Near([], s) == []
    decreases |b|
  {
    hide Sphere.Holds;
    if b == [] {
      assert a + b == a;
    } else {
      var n := |b| - 1;
      NearJoin(a, b[..n], s);
      assert (a + b)[..|a| + n] == a + b[..n];
    }
  }
}
