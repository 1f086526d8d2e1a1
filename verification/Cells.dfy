/** The values an octree is made of, and the per-node invariant that makes it the
    canonical bucket octree of its items.

    Every node carries a ghost `Cell` with the ids routed through it, in insertion
    order. The invariant is local: a node is checked against its own cell and its
    children's cells only, so a change at one node is a change to one check. */
module Cells {
  import opened Geometry

  datatype Link = NoNode | Node(id: nat)

  /** `bucket` names the leaf's bucket; an internal node has none. */
  datatype OctreeNode = OctreeNode(center: Point, halfSize: real, children: seq<Link>, bucket: Link) {
    predicate IsLeaf() {
      bucket != NoNode
    }
  }

  datatype Item = Item(point: Point, payloadOffset: nat, payloadLen: nat)

  /** Ghost: the ids below a node, and the link that reaches it. */
  datatype Cell = Cell(ids: seq<nat>, parent: nat, octant: nat)

  datatype Shape = Shape(nodes: seq<OctreeNode>, buckets: seq<seq<nat>>, cells: seq<Cell>)

  /** Subdivision policy: bucket capacity and the half size at which it stops. */
  datatype Policy = Policy(capacity: nat, minHalf: real)

  const NO_CHILDREN: seq<Link> := [NoNode, NoNode, NoNode, NoNode, NoNode, NoNode, NoNode, NoNode]

  function LeafNode(center: Point, half: real, bucketId: nat): OctreeNode {
    OctreeNode(center, half, NO_CHILDREN, Node(bucketId))
  }

  function PointOf(items: seq<Item>, id: nat): Point {
    if id < |items| then items[id].point else ORIGIN
  }

  /** The ids whose point selects octant `o` of a cube centred at `center`, in order. */
  function InOctant(ids: seq<nat>, items: seq<Item>, center: Point, o: nat): seq<nat> {
    if ids == [] then []
    else
      var rest := InOctant(ids[..|ids| - 1], items, center, o);
      var last := ids[|ids| - 1];
      if OctantIndex(center, PointOf(items, last)) == o then rest + [last] else rest
  }

  /** The first `n` item ids, in insertion order. */
  function FirstIds(n: nat): (ids: seq<nat>)
    ensures |ids| == n && forall k :: 0 <= k < n ==> ids[k] == k
  {
    if n == 0 then [] else FirstIds(n - 1) + [n - 1]
  }

  // -- the invariant ---------------------------------------------------------

  ghost predicate Sized(s: Shape) {
    && 0 < |s.nodes| == |s.buckets| == |s.cells|
    && forall i :: 0 <= i < |s.nodes| ==> |s.nodes[i].children| == 8 && s.nodes[i].halfSize > 0.0
  }

  ghost predicate ChildOk(s: Shape, items: seq<Item>, i: nat, o: nat, ids: seq<nat>)
    requires Sized(s) && i < |s.nodes| && o < 8
  {
    var n := s.nodes[i];
    var inside := InOctant(ids, items, n.center, o);
    match n.children[o]
    case NoNode => inside == []
    case Node(c) =>
      && i < c < |s.nodes|
      && inside != []
      && s.cells[c] == Cell(inside, i, o)
      && s.nodes[c].center == ChildCenter(n.center, n.halfSize, o)
      && s.nodes[c].halfSize == n.halfSize * 0.5
  }

  /** Node `i` holds exactly `ids`: in its bucket if it is a leaf, otherwise spread
      over one child per non-empty octant. */
  ghost predicate NodeOk(s: Shape, items: seq<Item>, p: Policy, i: nat, ids: seq<nat>)
    requires Sized(s) && i < |s.nodes|
  {
    var n := s.nodes[i];
    match n.bucket
    case Node(b) =>
      && b == i
      && s.buckets[i] == ids
      && n.children == NO_CHILDREN
      && (|ids| <= p.capacity || n.halfSize <= p.minHalf)
    case NoNode =>
      && s.buckets[i] == []
      && n.halfSize > p.minHalf
      && |s.cells[i].ids| > p.capacity
      && forall o :: 0 <= o < 8 ==> ChildOk(s, items, i, o, ids)
  }

  /** Every node but the root hangs from exactly the link its cell records. */
  ghost predicate Linked(s: Shape)
    requires Sized(s)
  {
    forall i :: 0 < i < |s.nodes| ==>
      && s.cells[i].parent < i
      && s.cells[i].octant < 8
      && s.nodes[s.cells[i].parent].children[s.cells[i].octant] == Node(i)
  }

  ghost predicate Rooted(s: Shape, world: real) {
    Sized(s) && Linked(s) && s.nodes[0].center == ORIGIN && s.nodes[0].halfSize == world
  }

  ghost predicate OthersOk(s: Shape, items: seq<Item>, p: Policy, except: nat)
    requires Sized(s)
  {
    forall i :: 0 <= i < |s.nodes| && i != except ==> NodeOk(s, items, p, i, s.cells[i].ids)
  }

  ghost predicate AllOk(s: Shape, items: seq<Item>, p: Policy)
    requires Sized(s)
  {
    forall i :: 0 <= i < |s.nodes| ==> NodeOk(s, items, p, i, s.cells[i].ids)
  }

  ghost predicate PointsInside(items: seq<Item>, n: nat, world: real) {
    n <= |items| && forall id :: 0 <= id < n ==> InCube(items[id].point, ORIGIN, world)
  }

  /** The shape is a well-formed octree of the first `n` items. */
  ghost predicate Holds(s: Shape, items: seq<Item>, p: Policy, world: real, n: nat) {
    && world > 0.0 && p.minHalf > 0.0
    && Rooted(s, world)
    && AllOk(s, items, p)
    && s.cells[0].ids == FirstIds(n)
    && PointsInside(items, n, world)
  }

  /** Item `id` is on its way down: every cell from the root to `cur` already counts
      it, but no bucket does, so `cur` alone is one item short. */
  ghost predicate Pending(s: Shape, items: seq<Item>, p: Policy, world: real, cur: nat, id: nat) {
    && world > 0.0 && p.minHalf > 0.0
    && PointsInside(items, id + 1, world)
    && Rooted(s, world)
    && cur < |s.nodes|
    && OthersOk(s, items, p, cur)
    && s.cells[0].ids == FirstIds(id + 1)
    && s.cells[cur].ids != [] && s.cells[cur].ids[|s.cells[cur].ids| - 1] == id
    && NodeOk(s, items, p, cur, Settled(s, cur))
  }

  ghost function Settled(s: Shape, cur: nat): seq<nat>
    requires cur < |s.cells| && s.cells[cur].ids != []
  {
    s.cells[cur].ids[..|s.cells[cur].ids| - 1]
  }

  // -- facts about InOctant ----------------------------------------------------

  lemma InOctantAppend(ids: seq<nat>, id: nat, items: seq<Item>, center: Point, o: nat)
    ensures InOctant(ids + [id], items, center, o)
         == InOctant(ids, items, center, o) + (if OctantIndex(center, PointOf(items, id)) == o then [id] else [])
  {
    assert (ids + [id])[..|ids|] == ids;
  }

  lemma {:induction false} InOctantMembers(ids: seq<nat>, items: seq<Item>, center: Point, o: nat)
    ensures |InOctant(ids, items, center, o)| <= |ids|
    ensures forall id :: id in InOctant(ids, items, center, o) <==> (id in ids && OctantIndex(center, PointOf(items, id)) == o)
  {
    if ids == [] {
    } else {
      InOctantMembers(ids[..|ids| - 1], items, center, o);
      assert ids == ids[..|ids| - 1] + [ids[|ids| - 1]];
    }
  }

  lemma {:induction false} InOctantFrame(ids: seq<nat>, items: seq<Item>, more: seq<Item>, center: Point, o: nat)
    requires forall id :: id in ids ==> id < |items|
    requires items <= more
    ensures InOctant(ids, items, center, o) == InOctant(ids, more, center, o)
  {
    if ids == [] {
    } else {
      var front := ids[..|ids| - 1];
      forall id | id in front
        ensures id < |items|
      {
        assert id in ids;
      }
      InOctantFrame(front, items, more, center, o);
      assert ids[|ids| - 1] in ids;
    }
  }
}
