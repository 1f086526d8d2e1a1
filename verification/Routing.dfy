/** The steps of routing one item, each as a fact about shapes. */
module Routing {
  import opened Geometry
  import opened Cells

  /** A single empty root leaf is the octree of no items. */
  lemma EmptyHolds(items: seq<Item>, p: Policy, world: real)
    requires world > 0.0 && p.minHalf > 0.0
    ensures Holds(Shape([LeafNode(ORIGIN, world, 0)], [[]], [Cell([], 0, 0)]), items, p, world, 0)
  {
  }

  ghost predicate Ascending(ids: seq<nat>) {
    forall j, k :: 0 <= j < k < |ids| ==> ids[j] < ids[k]
  }

  lemma {:induction false} InOctantAscending(ids: seq<nat>, items: seq<Item>, center: Point, o: nat)
    requires Ascending(ids)
    ensures Ascending(InOctant(ids, items, center, o))
  {
    if ids == [] {
    } else {
      var front := ids[..|ids| - 1];
      InOctantAscending(front, items, center, o);
      InOctantMembers(front, items, center, o);
      var rest := InOctant(front, items, center, o);
      forall j | 0 <= j < |rest|
        ensures rest[j] < ids[|ids| - 1]
      {
        assert rest[j] in rest;
        assert rest[j] in front;
      }
    }
  }

  /** Every item routed through a node lies in the node's closed cube, and a cell
      lists each of its items once, in insertion order. */
  lemma {:induction false} CellFacts(s: Shape, items: seq<Item>, p: Policy, world: real, n: nat, i: nat)
    requires Holds(s, items, p, world, n) && i < |s.nodes|
    ensures forall id :: id in s.cells[i].ids ==> id < n && InCube(PointOf(items, id), s.nodes[i].center, s.nodes[i].halfSize)
    ensures Ascending(s.cells[i].ids)
    decreases i
  {
    hide NodeOk, ChildOk, AllOk, InOctant;
    if i == 0 {
    } else {
      var up, o := s.cells[i].parent, s.cells[i].octant;
      ChildCell(s, items, p, i);
      CellFacts(s, items, p, world, n, up);
      OctantFacts(s.cells[up].ids, items, s.nodes[up].center, s.nodes[up].halfSize, n, o);
    }
  }

  /** A cell is the octant of its parent's cell it is linked under. */
  lemma ChildCell(s: Shape, items: seq<Item>, p: Policy, i: nat)
    requires Sized(s) && Linked(s) && AllOk(s, items, p) && 0 < i < |s.nodes|
    ensures var up, o := s.cells[i].parent, s.cells[i].octant;
      && up < i && o < 8
      && s.cells[i].ids == InOctant(s.cells[up].ids, items, s.nodes[up].center, o)
      && s.nodes[i].center == ChildCenter(s.nodes[up].center, s.nodes[up].halfSize, o)
      && s.nodes[i].halfSize == s.nodes[up].halfSize * 0.5
  {
    var up, o := s.cells[i].parent, s.cells[i].octant;
    assert NodeOk(s, items, p, up, s.cells[up].ids);
    assert ChildOk(s, items, up, o, s.cells[up].ids);
    hide InOctant;
  }

  /** What lies in a cube and is routed to an octant of it lies in that octant's cube. */
  lemma OctantFacts(ids: seq<nat>, items: seq<Item>, center: Point, half: real, n: nat, o: nat)
    requires o < 8 && Ascending(ids)
    requires forall id :: id in ids ==> id < n && InCube(PointOf(items, id), center, half)
    ensures Ascending(InOctant(ids, items, center, o))
    ensures forall id :: id in InOctant(ids, items, center, o) ==>
      id < n && InCube(PointOf(items, id), ChildCenter(center, half, o), half * 0.5)
  {
    InOctantAscending(ids, items, center, o);
    InOctantMembers(ids, items, center, o);
    forall id | id in InOctant(ids, items, center, o)
      ensures InCube(PointOf(items, id), ChildCenter(center, half, o), half * 0.5)
    {
      OctantContains(center, half, PointOf(items, id));
    }
  }

  /** Appending an item leaves the index of the earlier ones intact. */
  lemma AppendKeepsIndex(s: Shape, before: seq<Item>, after: seq<Item>, p: Policy, world: real, n: nat)
    requires Holds(s, before, p, world, n) && before <= after
    ensures Holds(s, after, p, world, n)
  {
    forall i | 0 <= i < |s.nodes|
      ensures NodeOk(s, after, p, i, s.cells[i].ids)
    {
      CellFacts(s, before, p, world, n, i);
      assert NodeOk(s, before, p, i, s.cells[i].ids);
      if s.nodes[i].bucket == NoNode {
        forall o | 0 <= o < 8
          ensures ChildOk(s, after, i, o, s.cells[i].ids)
        {
          assert ChildOk(s, before, i, o, s.cells[i].ids);
          InOctantFrame(s.cells[i].ids, before, after, s.nodes[i].center, o);
        }
      }
    }
  }

  lemma BeginRouting(s: Shape, items: seq<Item>, p: Policy, world: real, id: nat)
    requires Holds(s, items, p, world, id) && PointsInside(items, id + 1, world)
    ensures Pending(s.(cells := s.cells[0 := s.cells[0].(ids := s.cells[0].ids + [id])]), items, p, world, 0, id)
  {
    var t := s.(cells := s.cells[0 := s.cells[0].(ids := s.cells[0].ids + [id])]);
    assert Settled(t, 0) == s.cells[0].ids;
    forall i | 0 <= i < |t.nodes|
      ensures NodeOk(t, items, p, i, s.cells[i].ids)
    {
      assert NodeOk(s, items, p, i, s.cells[i].ids);
      ChildrenKeep(s, t, items, p, i, s.cells[i].ids);
    }
  }

  /** What the routing loop reads off a pending shape at the current node. */
  lemma PendingNode(s: Shape, items: seq<Item>, p: Policy, world: real, cur: nat, id: nat)
    requires Pending(s, items, p, world, cur, id)
    ensures Sized(s) && cur < |s.nodes| && id < |items| && p.minHalf > 0.0 && s.nodes[cur].halfSize > 0.0
    ensures s.nodes[cur].bucket == NoNode || s.nodes[cur].bucket == Node(cur)
    ensures forall o :: 0 <= o < 8 && s.nodes[cur].children[o] != NoNode ==> s.nodes[cur].children[o].id < |s.nodes|
  {
    forall o | 0 <= o < 8 && s.nodes[cur].children[o] != NoNode
      ensures s.nodes[cur].children[o].id < |s.nodes|
    {
      assert NO_CHILDREN[o] == NoNode;
      assert ChildOk(s, items, cur, o, Settled(s, cur));
    }
  }

  /** Node `i` is untouched by a change that leaves it and its children's cells alone. */
  lemma ChildrenKeep(s: Shape, t: Shape, items: seq<Item>, p: Policy, i: nat, ids: seq<nat>)
    requires Sized(s) && Sized(t) && i < |s.nodes| <= |t.nodes|
    requires NodeOk(s, items, p, i, ids)
    requires t.nodes[i] == s.nodes[i] && t.buckets[i] == s.buckets[i]
    requires |t.cells[i].ids| >= |s.cells[i].ids|
    requires forall c :: i < c < |s.nodes| && s.cells[c].parent == i ==>
      t.cells[c] == s.cells[c] && t.nodes[c].center == s.nodes[c].center && t.nodes[c].halfSize == s.nodes[c].halfSize
    ensures NodeOk(t, items, p, i, ids)
  {
    if s.nodes[i].bucket == NoNode {
      forall o | 0 <= o < 8
        ensures ChildOk(t, items, i, o, ids)
      {
        assert ChildOk(s, items, i, o, ids);
      }
    }
  }

  function Counted(s: Shape, c: nat, id: nat): Shape
    requires c < |s.cells|
  {
    s.(cells := s.cells[c := s.cells[c].(ids := s.cells[c].ids + [id])])
  }

  /** Following an existing child link. */
  lemma DescendKeepsPending(s: Shape, items: seq<Item>, p: Policy, world: real, cur: nat, id: nat, c: nat)
    requires Pending(s, items, p, world, cur, id)
    requires s.nodes[cur].bucket == NoNode
    requires s.nodes[cur].children[OctantIndex(s.nodes[cur].center, PointOf(items, id))] == Node(c)
    ensures cur < c < |s.nodes|
    ensures Halvings(s.nodes[c].halfSize, p.minHalf) < Halvings(s.nodes[cur].halfSize, p.minHalf)
    ensures Pending(Counted(s, c, id), items, p, world, c, id)
  {
    var n := s.nodes[cur];
    assert s.cells[cur].ids == Settled(s, cur) + [id];
    assert ChildOk(s, items, cur, OctantIndex(n.center, PointOf(items, id)), Settled(s, cur));
    var t := Counted(s, c, id);
    assert Settled(t, c) == s.cells[c].ids;
    HalvingDecreases(n.halfSize, p.minHalf);
    DescendKeepsOthers(s, items, p, cur, c, id);
    DescendCompletesParent(s, items, p, cur, c, id);
  }

  lemma DescendKeepsOthers(s: Shape, items: seq<Item>, p: Policy, cur: nat, c: nat, id: nat)
    requires Sized(s) && cur < |s.nodes| && OthersOk(s, items, p, cur)
    requires 0 < c < |s.nodes| && s.cells[c].parent == cur
    ensures Sized(Counted(s, c, id)) &&
      forall i :: 0 <= i < |s.nodes| && i != cur ==> NodeOk(Counted(s, c, id), items, p, i, s.cells[i].ids)
  {
    forall i | 0 <= i < |s.nodes| && i != cur
      ensures NodeOk(Counted(s, c, id), items, p, i, s.cells[i].ids)
    {
      ChildrenKeep(s, Counted(s, c, id), items, p, i, s.cells[i].ids);
    }
  }

  lemma DescendCompletesParent(s: Shape, items: seq<Item>, p: Policy, cur: nat, c: nat, id: nat)
    requires Sized(s) && cur < c < |s.nodes| && s.cells[cur].ids != []
    requires NodeOk(s, items, p, cur, Settled(s, cur))
    requires s.nodes[cur].bucket == NoNode && s.cells[cur].ids == Settled(s, cur) + [id]
    requires s.nodes[cur].children[OctantIndex(s.nodes[cur].center, PointOf(items, id))] == Node(c)
    ensures Sized(Counted(s, c, id)) && NodeOk(Counted(s, c, id), items, p, cur, s.cells[cur].ids)
  {
    var n, t := s.nodes[cur], Counted(s, c, id);
    assert ChildOk(s, items, cur, OctantIndex(n.center, PointOf(items, id)), Settled(s, cur));
    forall o | 0 <= o < 8
      ensures ChildOk(t, items, cur, o, s.cells[cur].ids)
    {
      assert ChildOk(s, items, cur, o, Settled(s, cur));
      InOctantAppend(Settled(s, cur), id, items, n.center, o);
    }
  }

  /** `t` is `s` with a fresh leaf linked under octant `o` of `cur`, for item `id`. */
  ghost predicate Creates(s: Shape, t: Shape, cur: nat, o: nat, id: nat)
    requires Sized(s) && cur < |s.nodes| && o < 8
  {
    var n, c := s.nodes[cur], |s.nodes|;
    && t.nodes == s.nodes[cur := n.(children := n.children[o := Node(c)])]
                  + [LeafNode(ChildCenter(n.center, n.halfSize, o), n.halfSize * 0.5, c)]
    && t.buckets == s.buckets + [[]]
    && t.cells == s.cells + [Cell([id], cur, o)]
  }

  lemma CreateCompletesParent(s: Shape, t: Shape, items: seq<Item>, p: Policy, cur: nat, id: nat)
    requires Sized(s) && cur < |s.nodes| && s.cells[cur].ids != []
    requires NodeOk(s, items, p, cur, Settled(s, cur)) && s.nodes[cur].bucket == NoNode
    requires s.cells[cur].ids == Settled(s, cur) + [id]
    requires var o := OctantIndex(s.nodes[cur].center, PointOf(items, id));
      s.nodes[cur].children[o] == NoNode && Creates(s, t, cur, o, id)
    ensures Sized(t) && NodeOk(t, items, p, cur, t.cells[cur].ids)
  {
    var n := s.nodes[cur];
    var o := OctantIndex(n.center, PointOf(items, id));
    assert ChildOk(s, items, cur, o, Settled(s, cur));
    forall o' | 0 <= o' < 8
      ensures ChildOk(t, items, cur, o', t.cells[cur].ids)
    {
      assert ChildOk(s, items, cur, o', Settled(s, cur));
      InOctantAppend(Settled(s, cur), id, items, n.center, o');
    }
  }

  /** Creating the child an item needs, lazily. */
  lemma CreateKeepsPending(s: Shape, items: seq<Item>, p: Policy, world: real, cur: nat, id: nat, t: Shape)
    requires Pending(s, items, p, world, cur, id)
    requires s.nodes[cur].bucket == NoNode
    requires var o := OctantIndex(s.nodes[cur].center, PointOf(items, id));
      s.nodes[cur].children[o] == NoNode && Creates(s, t, cur, o, id)
    ensures Pending(t, items, p, world, |s.nodes|, id)
    ensures Halvings(t.nodes[|s.nodes|].halfSize, p.minHalf) < Halvings(s.nodes[cur].halfSize, p.minHalf)
  {
    var o := OctantIndex(s.nodes[cur].center, PointOf(items, id));
    assert s.cells[cur].ids == Settled(s, cur) + [id];
    CreateCompletesParent(s, t, items, p, cur, id);
    assert Settled(t, |s.nodes|) == [];
    CreateKeepsOthers(s, items, p, cur, o, id, t);
    CreateKeepsLinks(s, cur, o, t);
    HalvingDecreases(s.nodes[cur].halfSize, p.minHalf);
  }

  lemma CreateKeepsOthers(s: Shape, items: seq<Item>, p: Policy, cur: nat, o: nat, id: nat, t: Shape)
    requires Sized(s) && Sized(t) && cur < |s.nodes| && o < 8 && Creates(s, t, cur, o, id)
    requires OthersOk(s, items, p, cur)
    ensures forall i :: 0 <= i < |s.nodes| && i != cur ==> NodeOk(t, items, p, i, s.cells[i].ids)
  {
    forall i | 0 <= i < |s.nodes| && i != cur
      ensures NodeOk(t, items, p, i, s.cells[i].ids)
    {
      ChildrenKeep(s, t, items, p, i, s.cells[i].ids);
    }
  }

  lemma CreateKeepsLinks(s: Shape, cur: nat, o: nat, t: Shape)
    requires Sized(s) && Linked(s) && Sized(t) && cur < |s.nodes| && o < 8
    requires s.nodes[cur].children[o] == NoNode
    requires |t.nodes| == |s.nodes| + 1
    requires forall i :: 0 <= i < |s.nodes| && i != cur ==> t.nodes[i].children == s.nodes[i].children
    requires t.nodes[cur].children == s.nodes[cur].children[o := Node(|s.nodes|)]
    requires forall i :: 0 <= i < |s.nodes| ==> t.cells[i].parent == s.cells[i].parent && t.cells[i].octant == s.cells[i].octant
    requires t.cells[|s.nodes|].parent == cur && t.cells[|s.nodes|].octant == o
    ensures Linked(t)
  {
  }

  /** Settling in a leaf with room, or in one too small to divide. */
  lemma PushCompletes(s: Shape, items: seq<Item>, p: Policy, world: real, cur: nat, id: nat)
    requires Pending(s, items, p, world, cur, id)
    requires s.nodes[cur].bucket != NoNode
    requires |s.buckets[cur]| < p.capacity || s.nodes[cur].halfSize <= p.minHalf
    ensures var t := s.(buckets := s.buckets[cur := s.buckets[cur] + [id]]);
      Holds(t, items, p, world, id + 1)
  {
    var t := s.(buckets := s.buckets[cur := s.buckets[cur] + [id]]);
    assert s.cells[cur].ids == Settled(s, cur) + [id];
    forall i | 0 <= i < |t.nodes|
      ensures NodeOk(t, items, p, i, t.cells[i].ids)
    {
      if i != cur {
        ChildrenKeep(s, t, items, p, i, s.cells[i].ids);
      }
    }
  }

  // -- subdivision -------------------------------------------------------------

  ghost predicate SplitChildOk(s: Shape, t: Shape, items: seq<Item>, cur: nat, o: nat, done: seq<nat>)
    requires Sized(s) && Sized(t) && cur < |s.nodes| <= |t.nodes| && o < 8
  {
    var n := s.nodes[cur];
    var inside := InOctant(done, items, n.center, o);
    match t.nodes[cur].children[o]
    case NoNode => inside == []
    case Node(c) =>
      && |s.nodes| <= c < |t.nodes|
      && inside != []
      && t.cells[c] == Cell(inside, cur, o)
      && t.buckets[c] == inside
      && t.nodes[c] == LeafNode(ChildCenter(n.center, n.halfSize, o), n.halfSize * 0.5, c)
  }

  /** `t` is `s` with leaf `cur` opened and `done` already handed to its children. */
  ghost predicate Splitting(s: Shape, t: Shape, items: seq<Item>, cur: nat, done: seq<nat>) {
    && Sized(s) && Sized(t) && cur < |s.nodes| <= |t.nodes|
    && t.nodes[cur].center == s.nodes[cur].center
    && t.nodes[cur].halfSize == s.nodes[cur].halfSize
    && t.nodes[cur].bucket == NoNode
    && t.buckets[cur] == []
    && (forall i :: 0 <= i < |s.nodes| && i != cur ==> t.nodes[i] == s.nodes[i] && t.buckets[i] == s.buckets[i])
    && (forall i :: 0 <= i < |s.nodes| ==> t.cells[i] == s.cells[i])
    && (forall o :: 0 <= o < 8 ==> SplitChildOk(s, t, items, cur, o, done))
    && (forall i :: |s.nodes| <= i < |t.nodes| ==>
          && t.cells[i].parent == cur && t.cells[i].octant < 8
          && t.nodes[cur].children[t.cells[i].octant] == Node(i))
  }

  /** `u` is `t` after filing item `id` in the child of its octant, existing or new. */
  ghost predicate Files(t: Shape, u: Shape, items: seq<Item>, cur: nat, id: nat)
    requires Sized(t) && cur < |t.nodes|
  {
    var n := t.nodes[cur];
    var o := OctantIndex(n.center, PointOf(items, id));
    match n.children[o]
    case NoNode => Creates(t, u.(buckets := t.buckets + [[]]), cur, o, id) && u.buckets == t.buckets + [[id]]
    case Node(c) =>
      && c < |t.nodes|
      && u == t.(buckets := t.buckets[c := t.buckets[c] + [id]],
                 cells := t.cells[c := t.cells[c].(ids := t.cells[c].ids + [id])])
  }

  lemma SplitStep(s: Shape, t: Shape, u: Shape, items: seq<Item>, cur: nat, done: seq<nat>, id: nat)
    requires Splitting(s, t, items, cur, done)
    requires Files(t, u, items, cur, id)
    ensures Splitting(s, u, items, cur, done + [id])
  {
    hide InOctant;
    var o := OctantIndex(t.nodes[cur].center, PointOf(items, id));
    assert SplitChildOk(s, t, items, cur, o, done);
    forall o' | 0 <= o' < 8
      ensures SplitChildOk(s, u, items, cur, o', done + [id])
    {
      SplitStepOctant(s, t, u, items, cur, done, id, o');
    }
  }

  lemma SplitStepOctant(s: Shape, t: Shape, u: Shape, items: seq<Item>, cur: nat, done: seq<nat>, id: nat, o: nat)
    requires Splitting(s, t, items, cur, done) && Files(t, u, items, cur, id) && o < 8
    requires Sized(u) && |t.nodes| <= |u.nodes|
    ensures SplitChildOk(s, u, items, cur, o, done + [id])
  {
    var n := t.nodes[cur];
    assert SplitChildOk(s, t, items, cur, o, done);
    assert SplitChildOk(s, t, items, cur, OctantIndex(n.center, PointOf(items, id)), done);
    InOctantAppend(done, id, items, n.center, o);
  }

  /** The children of a leaf being split are leaves that own the bucket of their id. */
  lemma SplitChildBucket(s: Shape, t: Shape, items: seq<Item>, cur: nat, done: seq<nat>, o: nat)
    requires Splitting(s, t, items, cur, done) && o < 8
    ensures match t.nodes[cur].children[o]
      case NoNode => true
      case Node(c) => cur < c < |t.nodes| && t.nodes[c].bucket == Node(c)
  {
    assert SplitChildOk(s, t, items, cur, o, done);
  }

  /** Opening a full leaf hands every item to a leaf child and keeps the rest. */
  lemma SplitKeepsPending(s: Shape, t: Shape, items: seq<Item>, p: Policy, world: real, cur: nat, id: nat)
    requires Pending(s, items, p, world, cur, id)
    requires s.nodes[cur].bucket != NoNode
    requires |s.buckets[cur]| >= p.capacity && s.nodes[cur].halfSize > p.minHalf
    requires Splitting(s, t, items, cur, s.buckets[cur])
    ensures Pending(t, items, p, world, cur, id)
    ensures t.nodes[cur].bucket == NoNode && t.nodes[cur].halfSize == s.nodes[cur].halfSize
  {
    var held := s.buckets[cur];
    assert Settled(t, cur) == held;
    forall o | 0 <= o < 8
      ensures ChildOk(t, items, cur, o, held)
    {
      assert SplitChildOk(s, t, items, cur, o, held);
    }
    forall i | 0 <= i < |t.nodes| && i != cur
      ensures NodeOk(t, items, p, i, t.cells[i].ids)
    {
      if i < |s.nodes| {
        ChildrenKeep(s, t, items, p, i, s.cells[i].ids);
      } else {
        var o := t.cells[i].octant;
        assert SplitChildOk(s, t, items, cur, o, held);
        InOctantMembers(held, items, s.nodes[cur].center, o);
      }
    }
    SplitKeepsLinks(s, t, items, cur, held);
  }

  lemma SplitKeepsLinks(s: Shape, t: Shape, items: seq<Item>, cur: nat, done: seq<nat>)
    requires Splitting(s, t, items, cur, done) && Linked(s)
    requires s.nodes[cur].children == NO_CHILDREN
    ensures Linked(t)
  {
    forall i | 0 < i < |s.nodes|
      ensures s.cells[i].parent != cur
    {
    }
  }

  lemma OneMore(ids: seq<nat>, k: nat)
    requires k < |ids|
    ensures ids[..k + 1] == ids[..k] + [ids[k]]
  {
  }
}
