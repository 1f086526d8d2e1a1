/** What a branch-and-bound descent may rely on: the children of an internal node
    split its items, in whatever order they are visited. */
module Descent {
  import opened Geometry
  import opened ItemIds
  import opened Cells
  import opened Knn
  import Routing
  import Sorting

  function Distances(items: seq<Item>, point: Point): (d: seq<real>)
    ensures |d| == |items| && forall id :: 0 <= id < |d| ==> d[id] == Dist2(point, items[id].point)
  {
    if items == [] then [] else Distances(items[..|items| - 1], point) + [Dist2(point, items[|items| - 1].point)]
  }

  /** The answer to "the k nearest items of `point`". */
  ghost predicate IsKNearest(hits: seq<Hit>, k: nat, point: Point, items: seq<Item>) {
    KBest(hits, k, AllIds(|items|), Distances(items, point)) && Ascending(hits)
  }

  /** The same, written out: distinct items with their own squared distances, nearest first,
      as many as asked for or all, and no other item nearer than any of them. */
  lemma NearestWritten(hits: seq<Hit>, k: nat, point: Point, items: seq<Item>)
    ensures IsKNearest(hits, k, point, items) <==>
      && |hits| == (if k < |items| then k else |items|)
      && (forall j :: 0 <= j < |hits| ==>
            && hits[j].0 < |items|
            && var q := items[hits[j].0].point;
               hits[j].1 == (point.x - q.x) * (point.x - q.x) + (point.y - q.y) * (point.y - q.y) + (point.z - q.z) * (point.z - q.z))
      && (forall i, j :: 0 <= i < j < |hits| ==> hits[i].0 != hits[j].0 && hits[i].1 <= hits[j].1)
      && (forall id: nat, j :: id < |items| && 0 <= j < |hits| && !Has(hits, id) ==>
            var q := items[id].point;
            hits[j].1 <= (point.x - q.x) * (point.x - q.x) + (point.y - q.y) * (point.y - q.y) + (point.z - q.z) * (point.z - q.z))
  {
    hide Dist2, Distances, AllIds;
    AllIdsSize(|items|);
    forall id: nat | id < |items|
      ensures var q := items[id].point;
        Distances(items, point)[id]
        == (point.x - q.x) * (point.x - q.x) + (point.y - q.y) * (point.y - q.y) + (point.z - q.z) * (point.z - q.z)
    {
      Dist2Is(point, items[id].point);
    }
  }

  ghost function IdsUnder(s: Shape, i: nat): set<nat>
    requires i < |s.cells|
  {
    SetOf(s.cells[i].ids)
  }

  // -- visiting the children of a node ------------------------------------------

  /** A visiting order: every existing child once, with its cube's lower bound. */
  ghost predicate VisitsChildren(s: Shape, order: seq<(real, nat)>, i: nat, point: Point)
    requires Sized(s) && i < |s.nodes|
  {
    && (forall j :: 0 <= j < |order| ==> IsChild(s, order[j], i, point))
    && (forall o :: 0 <= o < 8 && s.nodes[i].children[o] != NoNode ==> Visited(order, s.nodes[i].children[o].id))
    && (forall j, k :: 0 <= j < k < |order| ==> order[j].1 != order[k].1)
  }

  /** Nearest cube first, and equally near ones by octant. */
  ghost predicate NearestFirst(s: Shape, order: seq<(real, nat)>) {
    forall j, k :: 0 <= j < k < |order| && order[j].1 < |s.cells| && order[k].1 < |s.cells| ==>
      || order[j].0 < order[k].0
      || (order[j].0 == order[k].0 && s.cells[order[j].1].octant < s.cells[order[k].1].octant)
  }

  ghost predicate IsChild(s: Shape, entry: (real, nat), i: nat, point: Point)
    requires Sized(s) && i < |s.nodes|
  {
    && entry.1 < |s.nodes|
    && (exists o :: 0 <= o < 8 && s.nodes[i].children[o] == Node(entry.1))
    && entry.0 == CubeMinDist2(point, s.nodes[entry.1].center, s.nodes[entry.1].halfSize)
  }

  ghost predicate Visited(order: seq<(real, nat)>, c: nat) {
    exists j :: 0 <= j < |order| && order[j].1 == c
  }

  ghost function Covered(s: Shape, order: seq<(real, nat)>, j: nat): set<nat>
    requires j <= |order| && forall k :: 0 <= k < |order| ==> order[k].1 < |s.cells|
  {
    if j == 0 then {} else Covered(s, order, j - 1) + IdsUnder(s, order[j - 1].1)
  }

  lemma {:induction false} CoveredMember(s: Shape, order: seq<(real, nat)>, j: nat, k: nat)
    requires j < k <= |order| && forall k :: 0 <= k < |order| ==> order[k].1 < |s.cells|
    ensures IdsUnder(s, order[j].1) <= Covered(s, order, k)
  {
    if j < k - 1 {
      CoveredMember(s, order, j, k - 1);
    }
  }

  lemma CoveredStep(s: Shape, order: seq<(real, nat)>, j: nat, seen: set<nat>)
    requires j < |order| && forall k :: 0 <= k < |order| ==> order[k].1 < |s.cells|
    ensures seen + Covered(s, order, j) + IdsUnder(s, order[j].1) == seen + Covered(s, order, j + 1)
  {
  }

  /** A child holds the items of its octant, so two children share none. */
  lemma ChildItems(s: Shape, items: seq<Item>, p: Policy, i: nat, c: nat)
    requires Sized(s) && i < |s.nodes| && NodeOk(s, items, p, i, s.cells[i].ids)
    requires exists o :: 0 <= o < 8 && s.nodes[i].children[o] == Node(c)
    ensures i < c < |s.nodes| && s.cells[c].octant < 8
    ensures s.nodes[i].bucket == NoNode && s.nodes[i].children[s.cells[c].octant] == Node(c)
    ensures forall id :: id in IdsUnder(s, c) <==>
      (id in IdsUnder(s, i) && OctantIndex(s.nodes[i].center, PointOf(items, id)) == s.cells[c].octant)
  {
    var o :| 0 <= o < 8 && s.nodes[i].children[o] == Node(c);
    assert NO_CHILDREN[o] == NoNode;
    assert ChildOk(s, items, i, o, s.cells[i].ids);
    InOctantMembers(s.cells[i].ids, items, s.nodes[i].center, o);
  }

  /** The next child in a visiting order brings only items not offered yet. */
  lemma {:induction false} NextChildIsFresh(s: Shape, items: seq<Item>, p: Policy, world: real, order: seq<(real, nat)>, i: nat, point: Point, j: nat, k: nat)
    requires Holds(s, items, p, world, |items|) && i < |s.nodes|
    requires VisitsChildren(s, order, i, point) && k <= j < |order|
    ensures i < order[j].1 < |s.nodes|
    ensures IdsUnder(s, order[j].1) <= IdsUnder(s, i)
    ensures IdsUnder(s, order[j].1) !! Covered(s, order, k)
  {
    assert IsChild(s, order[j], i, point) && NodeOk(s, items, p, i, s.cells[i].ids);
    ChildItems(s, items, p, i, order[j].1);
    if k == 0 {
    } else {
      NextChildIsFresh(s, items, p, world, order, i, point, j, k - 1);
      assert IsChild(s, order[k - 1], i, point);
      ChildItems(s, items, p, i, order[k - 1].1);
    }
  }

  lemma {:induction false} CoveredInside(s: Shape, items: seq<Item>, p: Policy, world: real, order: seq<(real, nat)>, i: nat, point: Point, k: nat)
    requires Holds(s, items, p, world, |items|) && i < |s.nodes|
    requires VisitsChildren(s, order, i, point) && k <= |order|
    ensures Covered(s, order, k) <= IdsUnder(s, i)
  {
    hide Holds;
    if k == 0 {
    } else {
      CoveredInside(s, items, p, world, order, i, point, k - 1);
      NextChildIsFresh(s, items, p, world, order, i, point, k - 1, 0);
    }
  }

  /** Visiting every child covers the node. */
  lemma AllCovered(s: Shape, items: seq<Item>, p: Policy, world: real, order: seq<(real, nat)>, i: nat, point: Point)
    requires Holds(s, items, p, world, |items|) && i < |s.nodes|
    requires s.nodes[i].bucket == NoNode && VisitsChildren(s, order, i, point)
    ensures Covered(s, order, |order|) == IdsUnder(s, i)
  {
    CoveredInside(s, items, p, world, order, i, point, |order|);
    forall id | id in IdsUnder(s, i)
      ensures id in Covered(s, order, |order|)
    {
      var o := OctantIndex(s.nodes[i].center, PointOf(items, id));
      assert NodeOk(s, items, p, i, s.cells[i].ids);
      assert ChildOk(s, items, i, o, s.cells[i].ids);
      InOctantMembers(s.cells[i].ids, items, s.nodes[i].center, o);
      var c := s.nodes[i].children[o].id;
      assert Visited(order, c);
      var j :| 0 <= j < |order| && order[j].1 == c;
      CoveredMember(s, order, j, |order|);
      assert id in IdsUnder(s, c);
    }
  }

  /** No item below a node is closer than the node's cube. */
  lemma BoundHolds(s: Shape, items: seq<Item>, p: Policy, world: real, i: nat, point: Point)
    requires Holds(s, items, p, world, |items|) && i < |s.nodes|
    ensures forall id :: id in IdsUnder(s, i) ==>
      id < |items| && CubeMinDist2(point, s.nodes[i].center, s.nodes[i].halfSize) <= Distances(items, point)[id]
  {
    Routing.CellFacts(s, items, p, world, |items|, i);
    forall id | id in IdsUnder(s, i)
      ensures CubeMinDist2(point, s.nodes[i].center, s.nodes[i].halfSize) <= Distances(items, point)[id]
    {
      CubeBoundAdmissible(point, items[id].point, s.nodes[i].center, s.nodes[i].halfSize);
    }
  }

  lemma FirstIdsAreAll(n: nat)
    ensures SetOf(FirstIds(n)) == AllIds(n)
  {
    forall id: nat | id < n
      ensures id in FirstIds(n)
    {
      assert FirstIds(n)[id] == id;
    }
  }

  lemma VisitedAppend(before: seq<(real, nat)>, after: seq<(real, nat)>)
    requires |after| == |before| + 1 && after[..|before|] == before
    ensures Visited(after, after[|before|].1)
    ensures forall c :: Visited(before, c) ==> Visited(after, c)
  {
    assert forall j :: 0 <= j < |before| ==> after[j] == before[j];
  }

  /** Sorting a visiting order leaves a visiting order. */
  lemma SortedVisits(s: Shape, found: seq<(real, nat)>, order: seq<(real, nat)>, i: nat, point: Point)
    requires Sized(s) && i < |s.nodes| && VisitsChildren(s, found, i, point)
    requires multiset(order) == multiset(found)
    ensures VisitsChildren(s, order, i, point)
  {
    forall j | 0 <= j < |order|
      ensures order[j] in found
    {
      assert order[j] in multiset(order);
    }
    forall c | Visited(found, c)
      ensures Visited(order, c)
    {
      var j :| 0 <= j < |found| && found[j].1 == c;
      assert found[j] in multiset(order);
      assert found[j] in order;
    }
    Sorting.PermutationDistinct(found, order);
    forall j, k | 0 <= j < k < |order|
      ensures order[j].1 != order[k].1
    {
      var j', k' :| 0 <= j' < |found| && 0 <= k' < |found| && found[j'] == order[j] && found[k'] == order[k];
      assert j' != k';
    }
  }

  /** The bucket of a leaf is its cell: stored ids, each once. */
  lemma LeafBucket(s: Shape, items: seq<Item>, p: Policy, world: real, i: nat)
    requires Holds(s, items, p, world, |items|) && i < |s.nodes| && s.nodes[i].bucket != NoNode
    ensures s.nodes[i].bucket == Node(i) && s.buckets[i] == s.cells[i].ids
    ensures Routing.Ascending(s.buckets[i]) && forall id :: id in s.buckets[i] ==> id < |items|
  {
    Routing.CellFacts(s, items, p, world, |items|, i);
    assert NodeOk(s, items, p, i, s.cells[i].ids);
  }

  /** A child whose cube bound reaches the worst distance held may be skipped. */
  lemma SkipIsSound(s: Shape, items: seq<Item>, p: Policy, world: real, point: Point, entry: (real, nat), i: nat,
                    best: seq<Hit>, k: nat, offered: set<nat>)
    requires Holds(s, items, p, world, |items|) && i < |s.nodes| && IsChild(s, entry, i, point)
    requires KBest(best, k, offered, Distances(items, point)) && best != [] && |best| >= k
    requires entry.0 >= best[MaxIndex(best)].1
    ensures KBest(best, k, offered + IdsUnder(s, entry.1), Distances(items, point))
  {
    BoundHolds(s, items, p, world, entry.1, point);
    PrunedIsBest(best, k, offered, Distances(items, point), IdsUnder(s, entry.1));
  }
}
