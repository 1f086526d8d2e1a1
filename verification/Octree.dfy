/** The bucket octree engine: `FractalMemory3D` with insertion and world growth. */
module Octree {
  import opened Wrappers
  import opened Bytes
  import opened Geometry
  import opened ItemIds
  import opened Cells
  import opened Knn
  import opened Descent
  import opened Vectors
  import Routing
  import Sorting

  /** Smallest doubling of `world` that reaches `coord`. */
  function Grow(world: real, coord: real): (grown: real)
    requires world > 0.0
    ensures grown >= world && grown >= coord
    decreases if world < coord then Halvings(coord, world) else 0
  {
    if world < coord then
      DoublingDecreases(world, coord);
      Grow(world * 2.0, coord)
    else world
  }

  lemma DoublingDecreases(world: real, coord: real)
    requires 0.0 < world < coord
    ensures Halvings(coord, world * 2.0) < Halvings(coord, world)
  {
    HalvingDecreases(coord, world);
    assert coord / (world * 2.0) == coord * 0.5 / world;
  }

  /** `world` doubled `k` times. */
  function Doubled(world: real, k: nat): real {
    if k == 0 then world else 2.0 * Doubled(world, k - 1)
  }

  lemma {:induction false} DoubledFirst(world: real, k: nat)
    ensures Doubled(world * 2.0, k) == Doubled(world, k + 1)
  {
    if k == 0 {
    } else {
      DoubledFirst(world, k - 1);
    }
  }

  /** `grown` is the `k`-th doubling, it reaches `coord`, and no smaller one does. */
  ghost predicate FirstDoubling(world: real, coord: real, k: nat, grown: real) {
    grown == Doubled(world, k) && grown >= coord && (k > 0 ==> Doubled(world, k - 1) < coord)
  }

  /** The grown world is the first doubling that reaches the coordinate. */
  lemma {:induction false} GrowIsFirst(world: real, coord: real)
    requires world > 0.0
    ensures exists k: nat :: FirstDoubling(world, coord, k, Grow(world, coord))
    decreases if world < coord then Halvings(coord, world) else 0
  {
    if world < coord {
      DoublingDecreases(world, coord);
      GrowIsFirst(world * 2.0, coord);
      var k: nat :| FirstDoubling(world * 2.0, coord, k, Grow(world * 2.0, coord));
      DoubledFirst(world, k);
      if k > 0 {
        DoubledFirst(world, k - 1);
      }
      assert FirstDoubling(world, coord, k + 1, Grow(world, coord));
    } else {
      assert FirstDoubling(world, coord, 0, Grow(world, coord));
    }
  }

  /** The image of an embedding under a row-major `3 x highDim` matrix; none on a dimension
      mismatch or when the matrix is too short. */
  function ProjectTo3D(embedding: seq<real>, matrix: seq<real>, highDim: nat): Option<Point> {
    if |embedding| != highDim || |matrix| < 3 * highDim then None
    else Some(Point(Dot(embedding, matrix[..highDim]), Dot(embedding, matrix[highDim..2 * highDim]),
                    Dot(embedding, matrix[2 * highDim..3 * highDim])))
  }

  /** The dot product of the first `j` coordinates. */
  function DotUpTo(a: seq<real>, b: seq<real>, j: nat): real
    requires j <= |a| == |b|
  {
    Dot(a[..j], b[..j])
  }

  lemma DotUpToEnds(a: seq<real>, b: seq<real>)
    requires |a| == |b|
    ensures DotUpTo(a, b, 0) == 0.0 && DotUpTo(a, b, |a|) == Dot(a, b)
  {
    assert a[..|a|] == a && b[..|b|] == b;
  }

  lemma {:induction false} DotUpToNext(a: seq<real>, b: seq<real>, j: nat)
    requires j < |a| == |b|
    ensures DotUpTo(a, b, j + 1) == DotUpTo(a, b, j) + a[j] * b[j]
  {
    assert a[..j + 1][1..] == a[1..][..j] && b[..j + 1][1..] == b[1..][..j];
    if j == 0 {
      assert Dot(a[..1][1..], b[..1][1..]) == 0.0;
    } else {
      assert a[..j][1..] == a[1..][..j - 1] && b[..j][1..] == b[1..][..j - 1];
      DotUpToNext(a[1..], b[1..], j - 1);
    }
  }

  lemma DotUpToNext4(a: seq<real>, b: seq<real>, j: nat)
    requires j + 4 <= |a| == |b|
    ensures DotUpTo(a, b, j + 4) ==
      DotUpTo(a, b, j) + (a[j] * b[j] + a[j + 1] * b[j + 1] + a[j + 2] * b[j + 2] + a[j + 3] * b[j + 3])
  {
    hide DotUpTo;
    DotUpToNext(a, b, j);
    DotUpToNext(a, b, j + 1);
    DotUpToNext(a, b, j + 2);
    DotUpToNext(a, b, j + 3);
  }

  /** One output coordinate, accumulated four products at a time. */
  method DotInChunks(a: seq<real>, row: seq<real>) returns (sum: real)
    requires |a| == |row|
    ensures sum == Dot(a, row)
  {
    hide Dot, DotUpTo;
    DotUpToEnds(a, row);
    sum := 0.0;
    var j := 0;
    for chunk := 0 to |row| / 4
      invariant j == 4 * chunk && sum == DotUpTo(a, row, j)
    {
      DotUpToNext4(a, row, j);
      sum := sum + (a[j] * row[j] + a[j + 1] * row[j + 1] + a[j + 2] * row[j + 2] + a[j + 3] * row[j + 3]);
      j := j + 4;
    }
    for k := 0 to |row| % 4
      invariant sum == DotUpTo(a, row, j + k)
    {
      DotUpToNext(a, row, j + k);
      sum := sum + a[j + k] * row[j + k];
    }
  }

  method ProjectInChunks(embedding: seq<real>, matrix: seq<real>, highDim: nat) returns (p: Option<Point>)
    ensures p == ProjectTo3D(embedding, matrix, highDim)
  {
    if |embedding| != highDim || |matrix| < 3 * highDim {
      return None;
    }
    var x := DotInChunks(embedding, matrix[..highDim]);
    var y := DotInChunks(embedding, matrix[highDim..2 * highDim]);
    var z := DotInChunks(embedding, matrix[2 * highDim..3 * highDim]);
    p := Some(Point(x, y, z));
  }

  function PayloadAt(items: seq<Item>, arena: seq<Byte>, itemId: nat): Option<seq<Byte>> {
    if itemId >= |items| then None
    else
      var end := items[itemId].payloadOffset + items[itemId].payloadLen;
      if end > |arena| then None else Some(arena[items[itemId].payloadOffset..end])
  }

  /** The append of `Insert` stores the new payload and moves no earlier one. */
  lemma PayloadsKept(items: seq<Item>, arena: seq<Byte>, point: Point, bytes: seq<Byte>, itemId: nat)
    requires itemId <= |items|
    requires itemId < |items| ==> items[itemId].payloadOffset + items[itemId].payloadLen <= |arena|
    ensures PayloadAt(items + [Item(point, |arena|, |bytes|)], arena + bytes, itemId)
         == if itemId == |items| then Some(bytes) else PayloadAt(items, arena, itemId)
  {
    if itemId < |items| {
      var lo, hi := items[itemId].payloadOffset, items[itemId].payloadOffset + items[itemId].payloadLen;
      assert (arena + bytes)[lo..hi] == arena[lo..hi];
    } else {
      assert (arena + bytes)[|arena|..|arena| + |bytes|] == bytes;
    }
  }

  lemma InternalNode(s: Shape, items: seq<Item>, p: Policy, world: real, i: nat)
    requires Holds(s, items, p, world, |items|) && i < |s.nodes|
    ensures |s.nodes[i].children| == 8
  {
  }

  /** A child link leads to the node of its octant. */
  lemma LinkedChild(s: Shape, items: seq<Item>, p: Policy, world: real, i: nat, o: nat, point: Point)
    requires Holds(s, items, p, world, |items|) && i < |s.nodes| && !s.nodes[i].IsLeaf() && o < 8
    requires |s.nodes[i].children| == 8 && s.nodes[i].children[o] != NoNode
    ensures var c := s.nodes[i].children[o].id;
      && c < |s.nodes| == |s.cells| && s.cells[c].octant == o
      && IsChild(s, (CubeMinDist2(point, s.nodes[c].center, s.nodes[c].halfSize), c), i, point)
  {
    hide CubeMinDist2;
    assert NodeOk(s, items, p, i, s.cells[i].ids);
    assert ChildOk(s, items, i, o, s.cells[i].ids);
  }

  lemma SortedNearestFirst(s: Shape, found: seq<(real, nat)>, nearer: ((real, nat), (real, nat)) -> bool)
    requires forall a, b :: nearer(a, b) <==> a.0 <= b.0
    requires forall j :: 0 <= j < |found| ==> found[j].1 < |s.cells|
    requires forall j, k :: 0 <= j < k < |found| ==> s.cells[found[j].1].octant < s.cells[found[k].1].octant
    ensures NearestFirst(s, Sorting.SortBy(found, nearer))
  {
    var earlier := (a: (real, nat), b: (real, nat)) =>
      a.1 < |s.cells| && b.1 < |s.cells| && s.cells[a.1].octant < s.cells[b.1].octant;
    Sorting.SortBySorted(found, nearer);
    Sorting.SortByKeepsTies(found, nearer, earlier);
  }

  class FractalMemory3D {
    var nodes: seq<OctreeNode>
    var leafBuckets: seq<seq<nat>>
    var items: seq<Item>
    var payloadArena: seq<Byte>
    var worldHalfSize: real
    const projectionMatrix: seq<real>
    const highDim: nat
    const bucketCapacity: nat
    const minHalfSize: real
    ghost var cells: seq<Cell>

    // -- state -----------------------------------------------------------------

    ghost function Shape(): Shape
      reads this
    {
      Cells.Shape(nodes, leafBuckets, cells)
    }

    ghost function Policy(): Policy {
      Cells.Policy(bucketCapacity, minHalfSize)
    }

    ghost predicate Configured() {
      highDim > 0 && |projectionMatrix| == 3 * highDim && minHalfSize > 0.0
    }

    /** The tree indexes exactly the first `n` stored items. */
    ghost predicate Indexes(n: nat)
      reads this
    {
      Holds(Shape(), items, Policy(), worldHalfSize, n)
    }

    ghost predicate Valid()
      reads this
    {
      && Configured()
      && Indexes(|items|)
      && forall id :: 0 <= id < |items| ==> items[id].payloadOffset + items[id].payloadLen <= |payloadArena|
    }

    /** An empty engine over a given `3 x highDim` projection. The defaults of the
        source are world 1, capacity 16 and minimum half size 1e-6. */
    constructor (highDim: nat, projectionMatrix: seq<real>, bucketCapacity: nat, minHalfSize: real)
      requires highDim > 0 && |projectionMatrix| == 3 * highDim && minHalfSize > 0.0
      ensures Valid() && items == [] && payloadArena == [] && worldHalfSize == 1.0
      ensures this.highDim == highDim && this.projectionMatrix == projectionMatrix
      ensures this.bucketCapacity == bucketCapacity && this.minHalfSize == minHalfSize
    {
      this.highDim, this.projectionMatrix := highDim, projectionMatrix;
      this.bucketCapacity, this.minHalfSize := bucketCapacity, minHalfSize;
      items, payloadArena, worldHalfSize := [], [], 1.0;
      nodes, leafBuckets, cells := [], [], [];
      new;
      ResetRoot();
    }

    method ResetRoot()
      requires Configured() && worldHalfSize > 0.0
      modifies `nodes, `leafBuckets, `cells
      ensures Indexes(0)
    {
      nodes := [LeafNode(ORIGIN, worldHalfSize, 0)];
      leafBuckets := [[]];
      cells := [Cell([], 0, 0)];
      Routing.EmptyHolds(items, Policy(), worldHalfSize);
    }

    // -- insertion ---------------------------------------------------------------

    /** The 3-D image of an embedding; none on a dimension mismatch. */
    function Project(embedding: seq<real>): (p: Option<Point>)
      requires |projectionMatrix| == 3 * highDim
      ensures p.Some? <==> |embedding| == highDim
    {
      ProjectTo3D(embedding, projectionMatrix, highDim)
    }

    /** Stores a projected embedding and its payload. The engine either refuses the
        dimension and changes nothing, or appends exactly this item, grows the world
        by the least sufficient doubling, and indexes every item again. */
    method Insert(embedding: seq<real>, payload: Option<seq<Byte>>) returns (id: Option<nat>)
      requires Valid()
      modifies this
      ensures Valid()
      ensures id.None? <==> |embedding| != highDim
      ensures id.None? ==> items == old(items) && payloadArena == old(payloadArena) && worldHalfSize == old(worldHalfSize) && nodes == old(nodes) && leafBuckets == old(leafBuckets)
      ensures id.Some? ==>
        var bytes := if payload.Some? then payload.value else [];
        && id.value == |old(items)|
        && items == old(items) + [Item(Project(embedding).value, |old(payloadArena)|, |bytes|)]
        && payloadArena == old(payloadArena) + bytes
        && worldHalfSize == Grow(old(worldHalfSize), MaxCoord(Project(embedding).value))
    {
      var projected := ProjectInChunks(embedding, projectionMatrix, highDim);
      if projected.None? {
        return None;
      }
      var point := projected.value;
      var maxCoord := MaxCoord(point);
      if maxCoord > worldHalfSize {
        GrowTo(maxCoord);
      }
      var offset, len := |payloadArena|, 0;
      if payload.Some? {
        len := |payload.value|;
        payloadArena := payloadArena + payload.value;
      }
      var itemId := |items|;
      ghost var before := items;
      items := items + [Item(point, offset, len)];
      Routing.AppendKeepsIndex(Shape(), before, items, Policy(), worldHalfSize, itemId);
      Route(itemId);
      id := Some(itemId);
    }

    /** Doubles the world until it reaches `maxCoord` and rebuilds the tree over it. */
    method GrowTo(maxCoord: real)
      requires Configured() && Indexes(|items|)
      modifies `nodes, `leafBuckets, `cells, `worldHalfSize
      ensures Indexes(|items|)
      ensures worldHalfSize == Grow(old(worldHalfSize), maxCoord)
    {
      while worldHalfSize < maxCoord
        invariant worldHalfSize >= old(worldHalfSize)
        invariant Grow(worldHalfSize, maxCoord) == Grow(old(worldHalfSize), maxCoord)
        decreases if worldHalfSize < maxCoord then Halvings(maxCoord, worldHalfSize) else 0
      {
        DoublingDecreases(worldHalfSize, maxCoord);
        worldHalfSize := worldHalfSize * 2.0;
      }
      ResetRoot();
      for id := 0 to |items|
        invariant worldHalfSize == Grow(old(worldHalfSize), maxCoord)
        invariant Indexes(id)
      {
        Route(id);
      }
    }

    /** Routes stored item `itemId` to its leaf, opening leaves that overflow. */
    method Route(itemId: nat)
      requires Configured() && Indexes(itemId)
      requires itemId < |items| && InCube(items[itemId].point, ORIGIN, worldHalfSize)
      modifies `nodes, `leafBuckets, `cells
      ensures Indexes(itemId + 1)
    {
      var cur: nat := 0;
      Routing.BeginRouting(Shape(), items, Policy(), worldHalfSize, itemId);
      cells := cells[0 := cells[0].(ids := cells[0].ids + [itemId])];
      ghost var depth := Halvings(nodes[cur].halfSize, minHalfSize);
      while true
        invariant Pending(Shape(), items, Policy(), worldHalfSize, cur, itemId)
        invariant depth == Halvings(nodes[cur].halfSize, minHalfSize)
        decreases depth, nodes[cur].IsLeaf()
      {
        if nodes[cur].bucket == NoNode {
          cur := Descend(cur, itemId);
          depth := Halvings(nodes[cur].halfSize, minHalfSize);
        } else {
          var half := nodes[cur].halfSize;
          var b := nodes[cur].bucket.id;
          var full := |leafBuckets[b]| >= bucketCapacity;
          ghost var before := Shape();
          if !full || half <= minHalfSize {
            Routing.PushCompletes(before, items, Policy(), worldHalfSize, cur, itemId);
            leafBuckets := leafBuckets[b := leafBuckets[b] + [itemId]];
            return;
          }
          Subdivide(cur);
          Routing.SplitKeepsPending(before, Shape(), items, Policy(), worldHalfSize, cur, itemId);
        }
      }
    }

    /** The loop's internal-node arm: the child of the item's octant, created on first use. */
    method Descend(cur: nat, itemId: nat) returns (child: nat)
      requires Configured() && Pending(Shape(), items, Policy(), worldHalfSize, cur, itemId)
      requires nodes[cur].bucket == NoNode
      modifies `nodes, `leafBuckets, `cells
      ensures Pending(Shape(), items, Policy(), worldHalfSize, child, itemId)
      ensures Halvings(nodes[child].halfSize, minHalfSize) < old(Halvings(nodes[cur].halfSize, minHalfSize))
    {
      ghost var before := Shape();
      Routing.PendingNode(before, items, Policy(), worldHalfSize, cur, itemId);
      var center := nodes[cur].center;
      var octant := OctantIndex(center, items[itemId].point);
      var link := nodes[cur].children[octant];
      if link == NoNode {
        var half := nodes[cur].halfSize;
        child := NewLeaf(ChildCenter(center, half, octant), half * 0.5, Cell([itemId], cur, octant));
        nodes := nodes[cur := nodes[cur].(children := nodes[cur].children[octant := Node(child)])];
        Routing.CreateKeepsPending(before, items, Policy(), worldHalfSize, cur, itemId, Shape());
      } else {
        child := link.id;
        Routing.DescendKeepsPending(before, items, Policy(), worldHalfSize, cur, itemId, child);
        cells := cells[child := cells[child].(ids := cells[child].ids + [itemId])];
      }
    }

    /** Appends an empty leaf; its ghost cell is the caller's. */
    method NewLeaf(center: Point, half: real, ghost cell: Cell) returns (id: nat)
      requires |nodes| == |leafBuckets|
      modifies `nodes, `leafBuckets, `cells
      ensures id == |old(nodes)|
      ensures nodes == old(nodes) + [LeafNode(center, half, id)]
      ensures leafBuckets == old(leafBuckets) + [[]]
      ensures cells == old(cells) + [cell]
    {
      var bucketId := |leafBuckets|;
      leafBuckets := leafBuckets + [[]];
      id := |nodes|;
      nodes := nodes + [LeafNode(center, half, bucketId)];
      cells := cells + [cell];
    }

    /** Opens leaf `nodeId`: its bucket empties into one leaf child per non-empty octant. */
    method Subdivide(nodeId: nat)
      requires Sized(Shape()) && nodeId < |nodes|
      requires nodes[nodeId].bucket == Node(nodeId) && nodes[nodeId].children == NO_CHILDREN
      modifies `nodes, `leafBuckets, `cells
      ensures Routing.Splitting(old(Shape()), Shape(), items, nodeId, old(leafBuckets[nodeId]))
    {
      hide PointOf, OctantIndex;
      ghost var before := Shape();
      var bucketId := nodes[nodeId].bucket.id;
      var moved := leafBuckets[bucketId];
      leafBuckets := leafBuckets[bucketId := []];
      nodes := nodes[nodeId := nodes[nodeId].(bucket := NoNode)];
      for k := 0 to |moved|
        invariant Routing.Splitting(before, Shape(), items, nodeId, moved[..k])
      {
        ghost var step := Shape();
        Routing.SplitChildBucket(before, step, items, nodeId, moved[..k], OctantIndex(nodes[nodeId].center, PointOf(items, moved[k])));
        FileInChild(nodeId, moved[k]);
        Routing.SplitStep(before, step, Shape(), items, nodeId, moved[..k], moved[k]);
        Routing.OneMore(moved, k);
      }
      assert moved[..|moved|] == moved;
    }

    /** The body of the loop above: one item into the child of its octant, created on
        first use. */
    method FileInChild(nodeId: nat, item: nat)
      requires Sized(Shape()) && nodeId < |nodes|
      requires match nodes[nodeId].children[OctantIndex(nodes[nodeId].center, PointOf(items, item))]
        case NoNode => true
        case Node(c) => nodeId < c < |nodes| && nodes[c].bucket == Node(c)
      modifies `nodes, `leafBuckets, `cells
      ensures Routing.Files(old(Shape()), Shape(), items, nodeId, item)
    {
      ghost var before := Shape();
      var center, half := nodes[nodeId].center, nodes[nodeId].halfSize;
      var octant := OctantIndex(center, PointOf(items, item));
      var child := nodes[nodeId].children[octant];
      var c;
      if child == NoNode {
        c := NewLeaf(ChildCenter(center, half, octant), half * 0.5, Cell([item], nodeId, octant));
        nodes := nodes[nodeId := nodes[nodeId].(children := nodes[nodeId].children[octant := Node(c)])];
      } else {
        c := child.id;
        cells := cells[c := cells[c].(ids := cells[c].ids + [item])];
      }
      var childBucket := nodes[c].bucket.id;
      leafBuckets := leafBuckets[childBucket := leafBuckets[childBucket] + [item]];
      if child == NoNode {
        assert leafBuckets[c] == [] + [item] == [item];
        assert leafBuckets == before.buckets + [[item]];
      }
    }

    /** The payload slice of an item, none for an unknown id or a slice outside the arena;
        every stored item has one. */
    function GetPayload(itemId: nat): (payload: Option<seq<Byte>>)
      reads this
      ensures Valid() ==> (payload.Some? <==> itemId < |items|)
      ensures payload.Some? ==> itemId < |items| && |payload.value| == items[itemId].payloadLen
    {
      PayloadAt(items, payloadArena, itemId)
    }

    // -- retrieval ---------------------------------------------------------------

    /** Exact k nearest items of `point`, ascending: the octree descent answers the
        question `IsKNearest` asks of the whole item list. */
    method Nearest(point: Point, k: nat) returns (hits: seq<Hit>)
      requires Valid()
      ensures IsKNearest(hits, k, point, items)
    {
      ghost var dist := Distances(items, point);
      NothingIsBest(k, dist);
      NothingOfNothing(k, AllIds(|items|), dist);
      hide KBest, Distances, NodeOk, PointsInside, Linked, Rooted;
      if k == 0 || items == [] {
        return [];
      }
      var heap := new KnnSet(k);
      NnDescend(0, point, heap, {}, dist);
      FirstIdsAreAll(|items|);
      assert {} + IdsUnder(Shape(), 0) == AllIds(|items|);
      hits := heap.IntoSorted();
      PermutedIsBest(heap.best, hits, k, AllIds(|items|), dist);
    }

    /** Offers everything below `nodeId` that could still enter the best set. Skipped
        cubes are those whose lower bound already reaches the worst distance held. */
    method NnDescend(nodeId: nat, point: Point, heap: KnnSet, ghost seen: set<nat>, ghost dist: seq<real>)
      requires Valid() && nodeId < |nodes| && heap.k > 0
      requires dist == Distances(items, point)
      requires KBest(heap.best, heap.k, seen, dist)
      requires seen !! IdsUnder(Shape(), nodeId)
      modifies heap
      ensures KBest(heap.best, heap.k, seen + IdsUnder(Shape(), nodeId), dist)
      decreases |nodes| - nodeId
    {
      hide KBest, Distances, NodeOk, PointsInside, Linked;
      var node := nodes[nodeId];
      ghost var s, stored := Shape(), items;
      if node.IsLeaf() {
        LeafBucket(s, items, Policy(), worldHalfSize, nodeId);
        OfferBucket(leafBuckets[node.bucket.id], point, heap, seen, dist);
        return;
      }
      var order := ChildOrder(nodeId, point);
      ghost var offered := seen;
      for j := 0 to |order|
        invariant items == stored && Shape() == s
        invariant offered == seen + Covered(s, order, j)
        invariant KBest(heap.best, heap.k, offered, dist)
      {
        var lowerBound, child := order[j].0, order[j].1;
        NextChildIsFresh(s, items, Policy(), worldHalfSize, order, nodeId, point, j, j);
        CoveredStep(s, order, j, seen);
        ghost var below := IdsUnder(s, child);
        var worst := heap.Worst();
        if worst.Some? && lowerBound >= worst.value {
          SkipIsSound(s, items, Policy(), worldHalfSize, point, order[j], nodeId, heap.best, heap.k, offered);
        } else {
          NnDescend(child, point, heap, offered, dist);
        }
        offered := offered + below;
      }
      AllCovered(s, items, Policy(), worldHalfSize, order, nodeId, point);
    }

    method OfferBucket(bucket: seq<nat>, point: Point, heap: KnnSet, ghost seen: set<nat>, ghost dist: seq<real>)
      requires heap.k > 0 && dist == Distances(items, point)
      requires KBest(heap.best, heap.k, seen, dist)
      requires Routing.Ascending(bucket) && seen !! SetOf(bucket)
      requires forall id :: id in bucket ==> id < |items|
      modifies heap
      ensures KBest(heap.best, heap.k, seen + SetOf(bucket), dist)
    {
      hide KBest, Dist2;
      ghost var offered := seen;
      for j := 0 to |bucket|
        invariant offered == seen + SetOf(bucket[..j])
        invariant KBest(heap.best, heap.k, offered, dist)
      {
        var item := bucket[j];
        assert item in SetOf(bucket) && item !in SetOf(bucket[..j]);
        OfferedIsBest(heap.best, heap.k, offered, dist, item);
        var d2 := Dist2(point, items[item].point);
        heap.Offer(item, d2);
        offered := offered + {item};
      }
      assert bucket[..|bucket|] == bucket;
    }

    /** The existing children of a node, nearest cube first; the sort is stable. */
    method ChildOrder(nodeId: nat, point: Point) returns (order: seq<(real, nat)>)
      requires Valid() && nodeId < |nodes| && !nodes[nodeId].IsLeaf()
      ensures VisitsChildren(Shape(), order, nodeId, point) && NearestFirst(Shape(), order)
    {
      hide Linked, PointsInside, NodeOk, ChildOk, CubeMinDist2, NearestFirst;
      ghost var s := Shape();
      var node := nodes[nodeId];
      InternalNode(s, items, Policy(), worldHalfSize, nodeId);
      var found: seq<(real, nat)> := [];
      for o := 0 to |node.children|
        invariant forall j :: 0 <= j < |found| ==> IsChild(s, found[j], nodeId, point) && cells[found[j].1].octant < o
        invariant forall o' :: 0 <= o' < o && node.children[o'] != NoNode ==> Visited(found, node.children[o'].id)
        invariant forall j, k :: 0 <= j < k < |found| ==> found[j].1 != found[k].1
        invariant forall j, k :: 0 <= j < k < |found| ==> cells[found[j].1].octant < cells[found[k].1].octant
      {
        var link := node.children[o];
        if link != NoNode {
          var child := link.id;
          LinkedChild(s, items, Policy(), worldHalfSize, nodeId, o, point);
          ghost var before := found;
          found := found + [(CubeMinDist2(point, nodes[child].center, nodes[child].halfSize), child)];
          assert IsChild(s, found[|before|], nodeId, point);
          VisitedAppend(before, found);
        }
      }
      var nearer := (a: (real, nat), b: (real, nat)) => a.0 <= b.0;
      order := Sorting.SortBy(found, nearer);
      Sorting.SortByMultiset(found, nearer);
      SortedVisits(s, found, order, nodeId, point);
      SortedNearestFirst(s, found, nearer);
    }

    /** Exact k nearest by scanning every item: the reference the descent must match. */
    method NearestBruteforce(point: Point, k: nat) returns (hits: seq<Hit>)
      ensures IsKNearest(hits, k, point, items)
    {
      if k == 0 {
        return [];
      }
      var heap := new KnnSet(k);
      ghost var dist := Distances(items, point);
      ghost var offered := AllIds(0);
      for id := 0 to |items|
        invariant offered == AllIds(id)
        invariant KBest(heap.best, heap.k, offered, dist)
      {
        OfferedIsBest(heap.best, heap.k, offered, dist, id);
        var d2 := Dist2(point, items[id].point);
        heap.Offer(id, d2);
        offered := offered + {id};
        assert offered == AllIds(id + 1);
      }
      hits := heap.IntoSorted();
      PermutedIsBest(heap.best, hits, k, AllIds(|items|), dist);
    }
  }
}
