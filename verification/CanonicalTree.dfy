/** The octree as a mathematical tree: what the indexed node array means, and the
    claim that it is determined by the stored items alone. */
module CanonicalTree {
  import opened Reals
  import opened Wrappers
  import opened Geometry
  import opened ItemIds
  import opened Cells
  import opened Knn
  import opened Descent
  import Octree
  import Routing
  import Sorting

  datatype Tree =
    | Leaf(center: Point, half: real, ids: seq<nat>)
    | Branch(center: Point, half: real, kids: seq<Option<Tree>>)

  /** The bucket octree of `ids`, built top-down with no node array: a cell stays a
      leaf while it fits its bucket or cannot shrink, and otherwise has one child per
      non-empty octant. */
  function Canonical(ids: seq<nat>, items: seq<Item>, p: Policy, center: Point, half: real): Tree
    requires half > 0.0 && p.minHalf > 0.0
    decreases Halvings(half, p.minHalf)
  {
    if |ids| <= p.capacity || half <= p.minHalf then Leaf(center, half, ids)
    else
      HalvingDecreases(half, p.minHalf);
      Branch(center, half, seq(8, o requires 0 <= o < 8 =>
        var inside := InOctant(ids, items, center, o);
        if inside == [] then None
        else Some(Canonical(inside, items, p, ChildCenter(center, half, o), half * 0.5))))
  }

  /** The tree stored in the node array below node `i`. */
  function Stored(nodes: seq<OctreeNode>, buckets: seq<seq<nat>>, i: nat): Tree
    requires i < |nodes| == |buckets| && forall j :: 0 <= j < |nodes| ==> |nodes[j].children| == 8
    decreases |nodes| - i
  {
    var n := nodes[i];
    if n.IsLeaf() then Leaf(n.center, n.halfSize, buckets[i])
    else Branch(n.center, n.halfSize, seq(8, o requires 0 <= o < 8 =>
      match n.children[o]
      case NoNode => None
      case Node(c) => if i < c < |nodes| then Some(Stored(nodes, buckets, c)) else None))
  }

  lemma {:induction false} SubtreeIsCanonical(s: Shape, items: seq<Item>, p: Policy, world: real, n: nat, i: nat)
    requires Holds(s, items, p, world, n) && i < |s.nodes|
    ensures Stored(s.nodes, s.buckets, i) == Canonical(s.cells[i].ids, items, p, s.nodes[i].center, s.nodes[i].halfSize)
    decreases |s.nodes| - i
  {
    assert NodeOk(s, items, p, i, s.cells[i].ids);
    var node, ids := s.nodes[i], s.cells[i].ids;
    if node.IsLeaf() {
    } else {
      var a, b := Stored(s.nodes, s.buckets, i), Canonical(ids, items, p, node.center, node.halfSize);
      forall o | 0 <= o < 8
        ensures a.kids[o] == b.kids[o]
      {
        assert ChildOk(s, items, i, o, ids);
        if node.children[o] != NoNode {
          SubtreeIsCanonical(s, items, p, world, n, node.children[o].id);
        }
      }
      assert a.kids == b.kids;
    }
  }

  /** The node array of a valid engine stores exactly the canonical octree of its
      items, whatever the history of growth, rebuilds and subdivisions. */
  lemma TreeIsCanonical(m: Octree.FractalMemory3D)
    requires m.Valid()
    ensures |m.nodes| == |m.leafBuckets| > 0 && forall j :: 0 <= j < |m.nodes| ==> |m.nodes[j].children| == 8
    ensures Stored(m.nodes, m.leafBuckets, 0) == Canonical(FirstIds(|m.items|), m.items, m.Policy(), ORIGIN, m.worldHalfSize)
  {
    SubtreeIsCanonical(m.Shape(), m.items, m.Policy(), m.worldHalfSize, |m.items|, 0);
  }

  // -- every item has exactly one place ------------------------------------------

  /** The leaf an item's octants lead to from node `i`. */
  function LeafOf(nodes: seq<OctreeNode>, point: Point, i: nat): nat
    requires i < |nodes| && forall j :: 0 <= j < |nodes| ==> |nodes[j].children| == 8
    decreases |nodes| - i
  {
    if nodes[i].IsLeaf() then i
    else match nodes[i].children[OctantIndex(nodes[i].center, point)]
      case NoNode => i
      case Node(c) => if i < c < |nodes| then LeafOf(nodes, point, c) else i
  }

  lemma {:induction false} LeafFromRoot(s: Shape, items: seq<Item>, p: Policy, world: real, n: nat, i: nat, id: nat)
    requires Holds(s, items, p, world, n) && i < |s.nodes| && id in s.cells[i].ids
    ensures LeafOf(s.nodes, PointOf(items, id), 0) == LeafOf(s.nodes, PointOf(items, id), i)
    decreases i
  {
    if i == 0 {
    } else {
      var up, o := s.cells[i].parent, s.cells[i].octant;
      assert NodeOk(s, items, p, up, s.cells[up].ids);
      assert ChildOk(s, items, up, o, s.cells[up].ids);
      InOctantMembers(s.cells[up].ids, items, s.nodes[up].center, o);
      assert NO_CHILDREN[o] == NoNode;
      LeafFromRoot(s, items, p, world, n, up, id);
    }
  }

  lemma {:induction false} LeafReached(s: Shape, items: seq<Item>, p: Policy, world: real, n: nat, i: nat, id: nat)
    requires Holds(s, items, p, world, n) && i < |s.nodes| && id in s.cells[i].ids
    ensures var leaf := LeafOf(s.nodes, PointOf(items, id), i);
      leaf < |s.nodes| && s.nodes[leaf].IsLeaf() && id in s.cells[leaf].ids
    decreases |s.nodes| - i
  {
    assert NodeOk(s, items, p, i, s.cells[i].ids);
    if s.nodes[i].IsLeaf() {
    } else {
      var o := OctantIndex(s.nodes[i].center, PointOf(items, id));
      assert ChildOk(s, items, i, o, s.cells[i].ids);
      InOctantMembers(s.cells[i].ids, items, s.nodes[i].center, o);
      LeafReached(s, items, p, world, n, s.nodes[i].children[o].id, id);
    }
  }

  /** A stored item sits in one bucket only, the bucket of the leaf its octants lead
      to; that leaf's closed cube contains its point, and internal nodes keep none. */
  lemma ItemHasOnePlace(m: Octree.FractalMemory3D, id: nat, i: nat)
    requires m.Valid() && id < |m.items| && i < |m.nodes|
    ensures |m.leafBuckets| == |m.nodes| && forall j :: 0 <= j < |m.nodes| ==> |m.nodes[j].children| == 8
    ensures id in m.leafBuckets[i] <==> i == LeafOf(m.nodes, m.items[id].point, 0)
    ensures id in m.leafBuckets[i] ==>
      m.nodes[i].IsLeaf() && multiset(m.leafBuckets[i])[id] == 1
      && InCube(m.items[id].point, m.nodes[i].center, m.nodes[i].halfSize)
  {
    var s, p := m.Shape(), m.Policy();
    assert FirstIds(|m.items|)[id] == id;
    LeafReached(s, m.items, p, m.worldHalfSize, |m.items|, 0, id);
    var leaf := LeafOf(m.nodes, m.items[id].point, 0);
    assert NodeOk(s, m.items, p, leaf, s.cells[leaf].ids);
    assert NodeOk(s, m.items, p, i, s.cells[i].ids);
    Routing.CellFacts(s, m.items, p, m.worldHalfSize, |m.items|, i);
    if id in m.leafBuckets[i] {
      LeafFromRoot(s, m.items, p, m.worldHalfSize, |m.items|, i, id);
      Sorting.DistinctMultiplicity(m.leafBuckets[i]);
      assert id in multiset(m.leafBuckets[i]);
    }
  }

  // -- the world is determined by the largest coordinate -------------------------

  function Largest(items: seq<Item>): real {
    if items == [] then 0.0 else Max(Largest(items[..|items| - 1]), MaxCoord(items[|items| - 1].point))
  }

  /** The world after inserting the items one by one, growing whenever one lies outside. */
  function GrownBy(world: real, items: seq<Item>): (grown: real)
    requires world > 0.0
    ensures grown > 0.0
  {
    if items == [] then world
    else Octree.Grow(GrownBy(world, items[..|items| - 1]), MaxCoord(items[|items| - 1].point))
  }

  lemma {:induction false} GrowTwice(world: real, a: real, b: real)
    requires world > 0.0
    ensures Octree.Grow(Octree.Grow(world, a), b) == Octree.Grow(world, Max(a, b))
    decreases if world < a then Halvings(a, world) else 0
  {
    if world < a {
      Octree.DoublingDecreases(world, a);
      GrowTwice(world * 2.0, a, b);
    } else {
      GrowNoop(world, a, b);
    }
  }

  lemma GrowNoop(world: real, a: real, b: real)
    requires world >= a && world > 0.0
    ensures Octree.Grow(world, b) == Octree.Grow(world, Max(a, b))
  {
  }

  /** Growth is path-independent: inserting in any order ends in the world that one
      growth to the largest coordinate gives. */
  lemma {:induction false} WorldIsOneGrowth(world: real, items: seq<Item>)
    requires world > 0.0
    ensures GrownBy(world, items) == Octree.Grow(world, Largest(items))
  {
    if items == [] {
    } else {
      var front, last := items[..|items| - 1], MaxCoord(items[|items| - 1].point);
      WorldIsOneGrowth(world, front);
      GrowTwice(world, Largest(front), last);
    }
  }

  // -- the nearest neighbours ------------------------------------------------------

  /** Every item with its distance, in id order. */
  function AllHits(dist: seq<real>): (hits: seq<Hit>)
    ensures |hits| == |dist| && forall id :: 0 <= id < |dist| ==> hits[id] == (id, dist[id])
  {
    if dist == [] then [] else AllHits(dist[..|dist| - 1]) + [(|dist| - 1, dist[|dist| - 1])]
  }

  function FullRanking(point: Point, items: seq<Item>): seq<Hit> {
    Sorting.SortBy(AllHits(Distances(items, point)), CloserFirst)
  }

  /** The full ranking lists every id once, with its distance, in ascending order. */
  lemma RankedEntries(dist: seq<real>)
    ensures var r := Sorting.SortBy(AllHits(dist), CloserFirst);
      && |r| == |dist| && Ascending(r)
      && (forall j :: 0 <= j < |r| ==> r[j].0 < |dist| && r[j].1 == dist[r[j].0])
      && (forall i, j :: 0 <= i < j < |r| ==> r[i].0 != r[j].0)
  {
    var hits, r := AllHits(dist), Sorting.SortBy(AllHits(dist), CloserFirst);
    Sorting.SortByMultiset(hits, CloserFirst);
    Sorting.SortBySorted(hits, CloserFirst);
    Sorting.PermutationDistinct(hits, r);
    forall j | 0 <= j < |r|
      ensures r[j].0 < |dist| && r[j].1 == dist[r[j].0]
    {
      Sorting.SortByElement(hits, CloserFirst, r[j]);
    }
  }

  lemma RankedPosition(dist: seq<real>, id: nat)
    requires id < |dist|
    ensures (id, dist[id]) in Sorting.SortBy(AllHits(dist), CloserFirst)
  {
    Sorting.SortByElement(AllHits(dist), CloserFirst, (id, dist[id]));
    assert AllHits(dist)[id] == (id, dist[id]);
  }

  lemma RankedPrefixIsBest(dist: seq<real>, k: nat)
    ensures var r := Sorting.SortBy(AllHits(dist), CloserFirst);
      |r| == |dist| && KBest(r[..Min(k, |dist|)], k, AllIds(|dist|), dist) && Ascending(r[..Min(k, |dist|)])
  {
    var r := Sorting.SortBy(AllHits(dist), CloserFirst);
    RankedEntries(dist);
    AllIdsSize(|dist|);
    forall id: nat | id < |dist|
      ensures Has(r, id)
    {
      RankedPosition(dist, id);
    }
    PrefixIsBest(r, k, dist);
  }

  lemma PrefixIsBest(r: seq<Hit>, k: nat, dist: seq<real>)
    requires |r| == |dist| == |AllIds(|dist|)| && Ascending(r)
    requires forall j :: 0 <= j < |r| ==> r[j].0 < |dist| && r[j].1 == dist[r[j].0]
    requires forall i, j :: 0 <= i < j < |r| ==> r[i].0 != r[j].0
    requires forall id: nat :: id < |dist| ==> Has(r, id)
    ensures KBest(r[..Min(k, |dist|)], k, AllIds(|dist|), dist)
  {
    var m := Min(k, |dist|);
    var top := r[..m];
    forall id, j | id in AllIds(|dist|) && !Has(top, id) && 0 <= j < |top|
      ensures top[j].1 <= dist[id]
    {
      BeyondPrefix(r, m, dist, id, j);
    }
  }

  lemma BeyondPrefix(r: seq<Hit>, m: nat, dist: seq<real>, id: nat, j: nat)
    requires j < m <= |r| && Ascending(r) && Has(r, id) && !Has(r[..m], id) && id < |dist|
    requires forall l :: 0 <= l < |r| ==> r[l].0 < |dist| && r[l].1 == dist[r[l].0]
    ensures r[j].1 <= dist[id]
  {
    var l :| 0 <= l < |r| && r[l].0 == id;
    if l < m {
      PrefixHas(r, m, l);
    }
  }

  lemma PrefixHas(r: seq<Hit>, m: nat, l: nat)
    requires l < m <= |r|
    ensures Has(r[..m], r[l].0)
  {
    assert r[..m][l].0 == r[l].0;
  }

  /** Any answer to the k-nearest question has the distances of the first k entries
      of the fully sorted item list, and the same ids below the k-th distance. */
  lemma NearestIsRankingPrefix(hits: seq<Hit>, k: nat, point: Point, items: seq<Item>)
    requires IsKNearest(hits, k, point, items)
    ensures |hits| == Min(k, |items|) <= |FullRanking(point, items)|
    ensures forall i :: 0 <= i < |hits| ==> hits[i].1 == FullRanking(point, items)[i].1
    ensures forall i :: 0 <= i < |hits| && hits[i].1 < hits[|hits| - 1].1 ==> Has(FullRanking(point, items)[..|hits|], hits[i].0)
  {
    RankedPrefixIsBest(Distances(items, point), k);
    AllIdsSize(|items|);
    var top := FullRanking(point, items)[..Min(k, |items|)];
    KBestUnique(hits, top, k, AllIds(|items|), Distances(items, point));
  }

  /** The pruned descent and the linear scan agree, up to ties at the last distance. */
  lemma DescentMatchesScan(a: seq<Hit>, b: seq<Hit>, k: nat, point: Point, items: seq<Item>)
    requires IsKNearest(a, k, point, items) && IsKNearest(b, k, point, items)
    ensures |a| == |b| == Min(k, |items|)
    ensures forall i :: 0 <= i < |a| ==> a[i].1 == b[i].1
    ensures forall i :: 0 <= i < |a| && a[i].1 < a[|a| - 1].1 ==> Has(b, a[i].0)
  {
    AllIdsSize(|items|);
    KBestUnique(a, b, k, AllIds(|items|), Distances(items, point));
  }
}
