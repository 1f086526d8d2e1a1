/** Zooming: reading the octree at a chosen depth. The specification never mentions
    the node array; it narrows the item list octant by octant. */
module Fractal {
  import opened Wrappers
  import opened Bytes
  import opened Geometry
  import opened Cells
  import Octree
  import Routing
  import Sorting

  /** A region of the hierarchy: the items inside one cube at one depth. */
  datatype Region = Region(ids: seq<nat>, center: Point, half: real, depth: nat)

  datatype RegionView = RegionView(level: nat, center: Point, halfSize: real, count: nat, centroid: Point, samples: seq<seq<Byte>>)

  /** A region is not divided when it fits a bucket or is too small. */
  predicate Undivided(r: Region, p: Policy) {
    |r.ids| <= p.capacity || r.half <= p.minHalf
  }

  function SubRegion(r: Region, items: seq<Item>, o: nat): Region {
    Region(InOctant(r.ids, items, r.center, o), ChildCenter(r.center, r.half, o), r.half * 0.5, r.depth + 1)
  }

  function Toward(r: Region, items: seq<Item>, point: Point): Region {
    SubRegion(r, items, OctantIndex(r.center, point))
  }

  predicate Final(r: Region, items: seq<Item>, p: Policy, point: Point, level: nat) {
    r.depth >= level || Undivided(r, p) || Toward(r, items, point).ids == []
  }

  /** Where zooming toward `point` down to `level` ends. */
  function Zoomed(r: Region, items: seq<Item>, p: Policy, point: Point, level: nat): Region
    decreases level - r.depth
  {
    if Final(r, items, p, point, level) then r else Zoomed(Toward(r, items, point), items, p, point, level)
  }

  /** The regions passed on the way, coarse to fine. */
  function Path(r: Region, items: seq<Item>, p: Policy, point: Point, level: nat): (path: seq<Region>)
    ensures path != [] && path[0] == r
    decreases level - r.depth
  {
    if Final(r, items, p, point, level) then [r] else [r] + Path(Toward(r, items, point), items, p, point, level)
  }

  function Whole(items: seq<Item>, world: real): Region {
    Region(FirstIds(|items|), ORIGIN, world, 0)
  }

  // -- what zooming means ----------------------------------------------------------

  /** Zooming ends at the last region of the path. */
  lemma {:induction false} ZoomIsPathEnd(r: Region, items: seq<Item>, p: Policy, point: Point, level: nat)
    ensures var path := Path(r, items, p, point, level); path[|path| - 1] == Zoomed(r, items, p, point, level)
    decreases level - r.depth
  {
    if Final(r, items, p, point, level) {
    } else {
      ZoomIsPathEnd(Toward(r, items, point), items, p, point, level);
    }
  }

  /** A deeper zoom only extends the path. */
  lemma {:induction false} DeeperPathExtends(r: Region, items: seq<Item>, p: Policy, point: Point, level: nat, deeper: nat)
    requires level <= deeper
    ensures Path(r, items, p, point, level) <= Path(r, items, p, point, deeper)
    decreases level - r.depth
  {
    if Final(r, items, p, point, level) {
    } else {
      DeeperPathExtends(Toward(r, items, point), items, p, point, level, deeper);
    }
  }

  /** Along a path the depth counts up, the half size exactly halves, and the item
      count never grows. */
  lemma {:induction false} PathNarrows(r: Region, items: seq<Item>, p: Policy, point: Point, level: nat, j: nat)
    requires j + 1 < |Path(r, items, p, point, level)|
    ensures var path := Path(r, items, p, point, level);
      && path[j + 1].depth == path[j].depth + 1 <= level
      && path[j + 1].half == path[j].half * 0.5
      && 0 < |path[j + 1].ids| <= |path[j].ids|
      && forall id :: id in path[j + 1].ids ==> id in path[j].ids
    decreases j
  {
    var next := Toward(r, items, point);
    InOctantMembers(r.ids, items, r.center, OctantIndex(r.center, point));
    if j == 0 {
    } else {
      PathNarrows(next, items, p, point, level, j - 1);
    }
  }

  /** Zooming stops at the level asked for, or earlier in a region that fits a bucket, is too
      small, or has nothing in the octant of the point; nowhere else. */
  lemma {:induction false} ZoomStops(r: Region, items: seq<Item>, p: Policy, point: Point, level: nat)
    requires r.depth <= level
    ensures var z := Zoomed(r, items, p, point, level);
      && r.depth <= z.depth <= level
      && (|| z.depth == level || |z.ids| <= p.capacity || z.half <= p.minHalf
          || forall id :: id in z.ids ==> OctantIndex(z.center, PointOf(items, id)) != OctantIndex(z.center, point))
    decreases level - r.depth
  {
    if Final(r, items, p, point, level) {
      InOctantMembers(r.ids, items, r.center, OctantIndex(r.center, point));
    } else {
      ZoomStops(Toward(r, items, point), items, p, point, level);
    }
  }

  /** And it goes on exactly from regions where none of these holds. */
  lemma ZoomGoesOn(r: Region, items: seq<Item>, p: Policy, point: Point, level: nat, id: nat)
    requires r.depth < level && |r.ids| > p.capacity && r.half > p.minHalf
    requires id in r.ids && OctantIndex(r.center, PointOf(items, id)) == OctantIndex(r.center, point)
    ensures Zoomed(r, items, p, point, level).depth > r.depth
  {
    InOctantMembers(r.ids, items, r.center, OctantIndex(r.center, point));
    assert id in Toward(r, items, point).ids;
    ZoomStops(Toward(r, items, point), items, p, point, level);
  }

  /** The octants chosen on the way down to a point. */
  function Octants(center: Point, half: real, point: Point, n: nat): seq<nat>
    decreases n
  {
    if n == 0 then []
    else
      var o := OctantIndex(center, point);
      [o] + Octants(ChildCenter(center, half, o), half * 0.5, point, n - 1)
  }

  /** The region reached holds exactly the items whose octants agree with the query's
      for as many levels as were descended. */
  lemma {:induction false} ZoomedMembers(r: Region, items: seq<Item>, p: Policy, point: Point, level: nat, id: nat)
    ensures var z := Zoomed(r, items, p, point, level);
      && z.depth >= r.depth
      && (id in z.ids <==> Agrees(r, items, point, id, z.depth - r.depth))
    decreases level - r.depth
  {
    var z := Zoomed(r, items, p, point, level);
    if Final(r, items, p, point, level) {
    } else {
      var next := Toward(r, items, point);
      ZoomedMembers(next, items, p, point, level, id);
      MemberStep(r, items, point, id, z.depth - next.depth);
    }
  }

  ghost predicate Agrees(r: Region, items: seq<Item>, point: Point, id: nat, n: nat) {
    id in r.ids && Octants(r.center, r.half, PointOf(items, id), n) == Octants(r.center, r.half, point, n)
  }

  lemma MemberStep(r: Region, items: seq<Item>, point: Point, id: nat, n: nat)
    ensures Agrees(Toward(r, items, point), items, point, id, n) <==> Agrees(r, items, point, id, n + 1)
  {
    hide InOctant, OctantIndex, ChildCenter;
    InOctantMembers(r.ids, items, r.center, OctantIndex(r.center, point));
    OctantsStep(r.center, r.half, PointOf(items, id), point, n + 1);
  }

  lemma OctantsStep(center: Point, half: real, a: Point, b: Point, n: nat)
    requires n > 0
    ensures var oa, ob := OctantIndex(center, a), OctantIndex(center, b);
      Octants(center, half, a, n) == Octants(center, half, b, n) <==>
        oa == ob && Octants(ChildCenter(center, half, ob), half * 0.5, a, n - 1) == Octants(ChildCenter(center, half, ob), half * 0.5, b, n - 1)
  {
    var sa, sb := Octants(center, half, a, n), Octants(center, half, b, n);
    assert sa[0] == OctantIndex(center, a) && sb[0] == OctantIndex(center, b);
    assert sa[1..] == Octants(ChildCenter(center, half, sa[0]), half * 0.5, a, n - 1);
    assert sb[1..] == Octants(ChildCenter(center, half, sb[0]), half * 0.5, b, n - 1);
    assert sa == [sa[0]] + sa[1..] && sb == [sb[0]] + sb[1..];
  }

  function CountOver(r: Region, items: seq<Item>, n: nat): nat {
    if n == 0 then 0 else CountOver(r, items, n - 1) + |SubRegion(r, items, n - 1).ids|
  }

  /** A region's count is the sum of the counts of its eight sub-regions. */
  lemma {:induction false} CountSplits(r: Region, items: seq<Item>)
    ensures CountOver(r, items, 8) == |r.ids|
    decreases |r.ids|
  {
    if r.ids == [] {
      CountOfNone(r, items, 8);
    } else {
      var front, last := r.(ids := r.ids[..|r.ids| - 1]), r.ids[|r.ids| - 1];
      CountSplits(front, items);
      assert r.ids == front.ids + [last];
      CountAppend(front, items, last, 8);
      assert r == front.(ids := front.ids + [last]);
    }
  }

  lemma {:induction false} CountOfNone(r: Region, items: seq<Item>, n: nat)
    requires r.ids == []
    ensures CountOver(r, items, n) == 0
  {
    if n == 0 {
    } else {
      CountOfNone(r, items, n - 1);
    }
  }

  lemma {:induction false} CountAppend(r: Region, items: seq<Item>, id: nat, n: nat)
    ensures CountOver(r.(ids := r.ids + [id]), items, n)
         == CountOver(r, items, n) + (if OctantIndex(r.center, PointOf(items, id)) < n then 1 else 0)
  {
    hide InOctant, OctantIndex;
    if n == 0 {
    } else {
      CountAppend(r, items, id, n - 1);
      InOctantAppend(r.ids, id, items, r.center, n - 1);
    }
  }

  // -- the summary of a region -------------------------------------------------------

  /** The order in which the tree below a region is walked: bucket order in a leaf,
      octants in index order otherwise. */
  function Visit(ids: seq<nat>, items: seq<Item>, p: Policy, center: Point, half: real): seq<nat>
    requires half > 0.0 && p.minHalf > 0.0
    decreases Halvings(half, p.minHalf), 9
  {
    if |ids| <= p.capacity || half <= p.minHalf then ids else VisitOctants(ids, items, p, center, half, 8)
  }

  function VisitOctants(ids: seq<nat>, items: seq<Item>, p: Policy, center: Point, half: real, n: nat): seq<nat>
    requires half > p.minHalf > 0.0 && n <= 8
    decreases Halvings(half, p.minHalf), n
  {
    if n == 0 then []
    else
      HalvingDecreases(half, p.minHalf);
      VisitOctants(ids, items, p, center, half, n - 1)
      + Visit(InOctant(ids, items, center, n - 1), items, p, ChildCenter(center, half, n - 1), half * 0.5)
  }

  function Axis(p: Point, a: nat): real {
    if a == 0 then p.x else if a == 1 then p.y else p.z
  }

  function AxisSum(ids: seq<nat>, items: seq<Item>, a: nat): real {
    if ids == [] then 0.0 else AxisSum(ids[..|ids| - 1], items, a) + Axis(PointOf(items, ids[|ids| - 1]), a)
  }

  function SumPoints(ids: seq<nat>, items: seq<Item>): Point {
    Point(AxisSum(ids, items, 0), AxisSum(ids, items, 1), AxisSum(ids, items, 2))
  }

  function Mean(ids: seq<nat>, items: seq<Item>, center: Point): Point {
    if ids == [] then center
    else
      var sum, n := SumPoints(ids, items), |ids| as real;
      Point(sum.x / n, sum.y / n, sum.z / n)
  }

  lemma {:induction false} SumAppend(s: seq<nat>, t: seq<nat>, items: seq<Item>, a: nat)
    ensures AxisSum(s + t, items, a) == AxisSum(s, items, a) + AxisSum(t, items, a)
  {
    if t == [] {
      assert s + t == s;
    } else {
      assert (s + t)[..|s + t| - 1] == s + t[..|t| - 1];
      SumAppend(s, t[..|t| - 1], items, a);
    }
  }

  lemma SumOf(id: nat, items: seq<Item>, a: nat)
    ensures AxisSum([id], items, a) == Axis(PointOf(items, id), a)
  {
    assert [id][..0] == [];
  }

  /** A sum of points does not depend on their order. */
  lemma {:induction false} SumPermuted(s: seq<nat>, t: seq<nat>, items: seq<Item>, a: nat)
    requires multiset(s) == multiset(t)
    ensures AxisSum(s, items, a) == AxisSum(t, items, a)
    decreases |s|
  {
    assert |s| == |multiset(s)| == |multiset(t)| == |t|;
    if s == [] {
    } else {
      var front, last := s[..|s| - 1], s[|s| - 1];
      assert s == front + [last];
      assert last in multiset(t);
      var j :| 0 <= j < |t| && t[j] == last;
      var lo, hi := t[..j], t[j + 1..];
      assert t == lo + [last] + hi;
      Sorting.RemoveOne(front, lo, last, hi);
      SumPermuted(front, lo + hi, items, a);
      SumAppend(lo, hi, items, a);
      SumAppend(lo + [last], hi, items, a);
      SumAppend(lo, [last], items, a);
      SumOf(last, items, a);
    }
  }

  lemma {:induction false} VisitPermutes(ids: seq<nat>, items: seq<Item>, p: Policy, center: Point, half: real)
    requires half > 0.0 && p.minHalf > 0.0
    ensures multiset(Visit(ids, items, p, center, half)) == multiset(ids)
    decreases Halvings(half, p.minHalf), 9
  {
    if !(|ids| <= p.capacity || half <= p.minHalf) {
      VisitOctantsPermutes(ids, items, p, center, half, 8);
      InOctantsAll(ids, items, center);
    }
  }

  lemma {:induction false} VisitOctantsPermutes(ids: seq<nat>, items: seq<Item>, p: Policy, center: Point, half: real, n: nat)
    requires half > p.minHalf > 0.0 && n <= 8
    ensures multiset(VisitOctants(ids, items, p, center, half, n)) == InOctants(ids, items, center, n)
    decreases Halvings(half, p.minHalf), n
  {
    if n == 0 {
    } else {
      HalvingDecreases(half, p.minHalf);
      VisitOctantsPermutes(ids, items, p, center, half, n - 1);
      VisitPermutes(InOctant(ids, items, center, n - 1), items, p, ChildCenter(center, half, n - 1), half * 0.5);
    }
  }

  ghost function InOctants(ids: seq<nat>, items: seq<Item>, center: Point, n: nat): multiset<nat> {
    if n == 0 then multiset{} else InOctants(ids, items, center, n - 1) + multiset(InOctant(ids, items, center, n - 1))
  }

  /** Eight octants share out all the ids. */
  lemma {:induction false} InOctantsAll(ids: seq<nat>, items: seq<Item>, center: Point)
    ensures InOctants(ids, items, center, 8) == multiset(ids)
    decreases |ids|
  {
    if ids == [] {
      InOctantsOfNone(items, center, 8);
    } else {
      var front, last := ids[..|ids| - 1], ids[|ids| - 1];
      InOctantsAll(front, items, center);
      InOctantsAppend(front, last, items, center, 8);
      assert ids == front + [last];
    }
  }

  lemma {:induction false} InOctantsOfNone(items: seq<Item>, center: Point, n: nat)
    ensures InOctants([], items, center, n) == multiset{}
  {
    if n == 0 {
    } else {
      InOctantsOfNone(items, center, n - 1);
    }
  }

  lemma {:induction false} InOctantsAppend(ids: seq<nat>, id: nat, items: seq<Item>, center: Point, n: nat)
    ensures InOctants(ids + [id], items, center, n)
         == InOctants(ids, items, center, n) + (if OctantIndex(center, PointOf(items, id)) < n then multiset{id} else multiset{})
  {
    hide OctantIndex, InOctant, InOctants, PointOf;
    InOctantsStep(ids, items, center, n);
    InOctantsStep(ids + [id], items, center, n);
    if n == 0 {
    } else {
      InOctantsAppend(ids, id, items, center, n - 1);
      InOctantAppend(ids, id, items, center, n - 1);
      var before, inside := InOctants(ids, items, center, n - 1), InOctant(ids, items, center, n - 1);
      AppendedOnce(inside, id);
      AddedOnce(before, multiset(inside), id);
    }
  }

  lemma InOctantsStep(ids: seq<nat>, items: seq<Item>, center: Point, n: nat)
    ensures InOctants(ids, items, center, n) ==
      if n == 0 then multiset{} else InOctants(ids, items, center, n - 1) + multiset(InOctant(ids, items, center, n - 1))
  {
  }

  lemma AddedOnce(a: multiset<nat>, b: multiset<nat>, id: nat)
    ensures (a + multiset{id}) + b == (a + b) + multiset{id}
    ensures a + (b + multiset{id}) == (a + b) + multiset{id}
    ensures (a + multiset{}) + b == (a + b) + multiset{}
  {
  }

  lemma AppendedOnce(ids: seq<nat>, id: nat)
    ensures multiset(ids + [id]) == multiset(ids) + multiset{id} && ids + [] == ids
  {
  }

  // -- centroids ----------------------------------------------------------------------

  lemma OneMore(n: real, x: real)
    ensures (n + 1.0) * x == n * x + x
  {
  }

  lemma OneMoreBetween(n: real, sum: real, x: real, lo: real, hi: real)
    requires n * lo <= sum <= n * hi && lo <= x <= hi
    ensures (n + 1.0) * lo <= sum + x <= (n + 1.0) * hi
  {
    OneMore(n, lo);
    OneMore(n, hi);
  }

  lemma {:induction false} SumBetween(ids: seq<nat>, items: seq<Item>, a: nat, lo: real, hi: real)
    requires forall id :: id in ids ==> lo <= Axis(PointOf(items, id), a) <= hi
    ensures |ids| as real * lo <= AxisSum(ids, items, a) <= |ids| as real * hi
  {
    if ids == [] {
    } else {
      var front, last := ids[..|ids| - 1], ids[|ids| - 1];
      assert last in ids;
      forall id | id in front
        ensures lo <= Axis(PointOf(items, id), a) <= hi
      {
        assert id in ids;
      }
      SumBetween(front, items, a, lo, hi);
      OneMoreBetween(|front| as real, AxisSum(front, items, a), Axis(PointOf(items, last), a), lo, hi);
      assert |ids| as real == |front| as real + 1.0;
    }
  }

  lemma MeanBetween(ids: seq<nat>, items: seq<Item>, center: Point, a: nat, lo: real, hi: real)
    requires ids != [] && a < 3 && forall id :: id in ids ==> lo <= Axis(PointOf(items, id), a) <= hi
    ensures lo <= Axis(Mean(ids, items, center), a) <= hi
  {
    SumBetween(ids, items, a, lo, hi);
    QuotientBounds(AxisSum(ids, items, a), |ids| as real, lo, hi);
  }

  lemma QuotientBounds(s: real, n: real, lo: real, hi: real)
    requires n > 0.0 && n * lo <= s <= n * hi
    ensures lo <= s / n <= hi
  {
  }

  /** The centroid of a non-empty region lies in its closed cube. */
  lemma CentroidInside(ids: seq<nat>, items: seq<Item>, center: Point, half: real)
    requires ids != [] && forall id :: id in ids ==> InCube(PointOf(items, id), center, half)
    ensures InCube(Mean(ids, items, center), center, half)
  {
    MeanBetween(ids, items, center, 0, center.x - half, center.x + half);
    MeanBetween(ids, items, center, 1, center.y - half, center.y + half);
    MeanBetween(ids, items, center, 2, center.z - half, center.z + half);
  }

  ghost predicate Inside(r: Region, items: seq<Item>) {
    forall id :: id in r.ids ==> InCube(PointOf(items, id), r.center, r.half)
  }

  lemma {:induction false} ZoomedInside(r: Region, items: seq<Item>, p: Policy, point: Point, level: nat)
    requires Inside(r, items)
    ensures Inside(Zoomed(r, items, p, point, level), items)
    decreases level - r.depth
  {
    if Final(r, items, p, point, level) {
    } else {
      var next := Toward(r, items, point);
      InOctantMembers(r.ids, items, r.center, OctantIndex(r.center, point));
      forall id | id in next.ids
        ensures InCube(PointOf(items, id), next.center, next.half)
      {
        OctantContains(r.center, r.half, PointOf(items, id));
      }
      ZoomedInside(next, items, p, point, level);
    }
  }

  /** Every region a valid engine can zoom to has its centroid inside its cube, and the
      unzoomed region counts every item. */
  lemma ZoomCentroidInside(m: Octree.FractalMemory3D, point: Point, level: nat)
    requires m.Valid()
    ensures |Whole(m.items, m.worldHalfSize).ids| == |m.items|
    ensures var z := Zoomed(Whole(m.items, m.worldHalfSize), m.items, m.Policy(), point, level);
      z.ids != [] ==> InCube(Mean(z.ids, m.items, z.center), z.center, z.half)
  {
    var whole := Whole(m.items, m.worldHalfSize);
    assert Inside(whole, m.items);
    ZoomedInside(whole, m.items, m.Policy(), point, level);
    var z := Zoomed(whole, m.items, m.Policy(), point, level);
    if z.ids != [] {
      CentroidInside(z.ids, m.items, z.center, z.half);
    }
  }

  // -- the operations --------------------------------------------------------------------

  /** The region a node stands for. */
  ghost function RegionOf(s: Shape, i: nat, depth: nat): Region
    requires i < |s.nodes| && |s.nodes| == |s.cells|
  {
    Region(s.cells[i].ids, s.nodes[i].center, s.nodes[i].halfSize, depth)
  }

  /** One step down the node array is one step of `Toward`, and stopping is `Undivided`. */
  lemma NodeStep(s: Shape, items: seq<Item>, p: Policy, world: real, i: nat, point: Point, depth: nat)
    requires Holds(s, items, p, world, |items|) && i < |s.nodes|
    ensures |s.nodes[i].children| == 8
    ensures s.nodes[i].IsLeaf() <==> Undivided(RegionOf(s, i, depth), p)
    ensures !s.nodes[i].IsLeaf() ==>
      match s.nodes[i].children[OctantIndex(s.nodes[i].center, point)]
      case NoNode => Toward(RegionOf(s, i, depth), items, point).ids == []
      case Node(c) => i < c < |s.nodes| && RegionOf(s, c, depth + 1) == Toward(RegionOf(s, i, depth), items, point)
                      && Toward(RegionOf(s, i, depth), items, point).ids != []
  {
    assert NodeOk(s, items, p, i, s.cells[i].ids);
    if !s.nodes[i].IsLeaf() {
      assert ChildOk(s, items, i, OctantIndex(s.nodes[i].center, point), s.cells[i].ids);
    }
  }

  /** The summary of a region, computed from its items alone. */
  function View(r: Region, items: seq<Item>, arena: seq<Byte>, p: Policy, maxSamples: nat): RegionView
    requires r.half > 0.0 && p.minHalf > 0.0
  {
    var visit := Visit(r.ids, items, p, r.center, r.half);
    RegionView(r.depth, r.center, r.half, |r.ids|, Mean(r.ids, items, r.center), Samples(visit, items, arena, maxSamples))
  }

  /** The first `max` payloads of a walk. */
  function Samples(ids: seq<nat>, items: seq<Item>, arena: seq<Byte>, max: nat): seq<seq<Byte>> {
    if ids == [] then []
    else
      var front := Samples(ids[..|ids| - 1], items, arena, max);
      var payload := Octree.PayloadAt(items, arena, ids[|ids| - 1]);
      if |front| >= max || payload.None? then front else front + [payload.value]
  }

  /** What a view says of a region: its depth, cube and number of items, their mean or the
      centre of an empty region, and samples that are payloads of its items, as many as
      asked for unless every payload is there. */
  ghost predicate Summarises(view: RegionView, r: Region, items: seq<Item>, arena: seq<Byte>, maxSamples: nat) {
    && view.level == r.depth && view.center == r.center && view.halfSize == r.half && view.count == |r.ids|
    && (r.ids == [] ==> view.centroid == r.center)
    && (r.ids != [] ==>
          && view.centroid.x == AxisSum(r.ids, items, 0) / |r.ids| as real
          && view.centroid.y == AxisSum(r.ids, items, 1) / |r.ids| as real
          && view.centroid.z == AxisSum(r.ids, items, 2) / |r.ids| as real)
    && |view.samples| <= maxSamples
    && (forall sample :: sample in view.samples ==> exists id :: id in r.ids && Octree.PayloadAt(items, arena, id) == Some(sample))
    && (|view.samples| < maxSamples ==>
          forall id :: id in r.ids && Octree.PayloadAt(items, arena, id).Some? ==> Octree.PayloadAt(items, arena, id).value in view.samples)
  }

  lemma {:induction false} SamplesMean(ids: seq<nat>, items: seq<Item>, arena: seq<Byte>, max: nat)
    ensures var samples := Samples(ids, items, arena, max);
      && |samples| <= max
      && (forall sample :: sample in samples ==> exists id :: id in ids && Octree.PayloadAt(items, arena, id) == Some(sample))
      && (|samples| < max ==>
            forall id :: id in ids && Octree.PayloadAt(items, arena, id).Some? ==> Octree.PayloadAt(items, arena, id).value in samples)
  {
    hide Octree.PayloadAt;
    if ids == [] {
    } else {
      var front, last := ids[..|ids| - 1], ids[|ids| - 1];
      assert ids == front + [last];
      SamplesMean(front, items, arena, max);
    }
  }

  lemma ViewSummarises(r: Region, items: seq<Item>, arena: seq<Byte>, p: Policy, maxSamples: nat)
    requires r.half > 0.0 && p.minHalf > 0.0
    ensures Summarises(View(r, items, arena, p, maxSamples), r, items, arena, maxSamples)
  {
    hide Octree.PayloadAt, Visit, AxisSum, Samples;
    var visit := Visit(r.ids, items, p, r.center, r.half);
    VisitPermutes(r.ids, items, p, r.center, r.half);
    assert forall id :: id in visit <==> id in multiset(visit);
    assert forall id :: id in r.ids <==> id in multiset(r.ids);
    SamplesMean(visit, items, arena, maxSamples);
  }

  method DescendAlong(m: Octree.FractalMemory3D, point: Point, level: nat) returns (node: nat, depth: nat)
    requires m.Valid()
    ensures node < |m.nodes| == |m.cells|
    ensures RegionOf(m.Shape(), node, depth) == Zoomed(Whole(m.items, m.worldHalfSize), m.items, m.Policy(), point, level)
  {
    ghost var s, whole := m.Shape(), Whole(m.items, m.worldHalfSize);
    node, depth := 0, 0;
    while depth < level
      invariant node < |m.nodes| == |m.cells| && depth <= level
      invariant Zoomed(RegionOf(s, node, depth), m.items, m.Policy(), point, level) == Zoomed(whole, m.items, m.Policy(), point, level)
      decreases level - depth
    {
      hide Holds, Octree.FractalMemory3D.Policy;
      NodeStep(s, m.items, m.Policy(), m.worldHalfSize, node, point, depth);
      var n := m.nodes[node];
      if n.IsLeaf() {
        break;
      }
      var child := n.children[OctantIndex(n.center, point)];
      if child == NoNode {
        break;
      }
      node, depth := child.id, depth + 1;
    }
  }

  lemma {:induction false} SamplesAppend(a: seq<nat>, b: seq<nat>, items: seq<Item>, arena: seq<Byte>, max: nat)
    ensures |Samples(a, items, arena, max)| <= max
    ensures Samples(a + b, items, arena, max)
         == Samples(a, items, arena, max) + Samples(b, items, arena, max - |Samples(a, items, arena, max)|)
    decreases |a| + |b|
  {
    if b == [] {
      assert a + b == a;
      if a != [] {
        SamplesAppend(a[..|a| - 1], [], items, arena, max);
      }
    } else {
      assert (a + b)[..|a + b| - 1] == a + b[..|b| - 1];
      SamplesAppend(a, b[..|b| - 1], items, arena, max);
    }
  }

  function Plus(a: Point, b: Point): Point {
    Point(a.x + b.x, a.y + b.y, a.z + b.z)
  }

  /** What a walk accumulates: a count, a coordinate sum and the first samples. */
  datatype Tally = Tally(count: nat, sum: Point, samples: seq<seq<Byte>>)

  function Tallied(t: Tally, ids: seq<nat>, items: seq<Item>, arena: seq<Byte>, max: nat): Tally
    requires |t.samples| <= max
  {
    Tally(t.count + |ids|, Plus(t.sum, SumPoints(ids, items)), t.samples + Samples(ids, items, arena, max - |t.samples|))
  }

  lemma TalliedAppend(t: Tally, a: seq<nat>, b: seq<nat>, items: seq<Item>, arena: seq<Byte>, max: nat)
    requires |t.samples| <= max
    ensures |Tallied(t, a, items, arena, max).samples| <= max
    ensures Tallied(Tallied(t, a, items, arena, max), b, items, arena, max) == Tallied(t, a + b, items, arena, max)
  {
    SamplesAppend(a, b, items, arena, max - |t.samples|);
    SumAppend(a, b, items, 0);
    SumAppend(a, b, items, 1);
    SumAppend(a, b, items, 2);
  }

  ghost function VisitNode(s: Shape, items: seq<Item>, p: Policy, i: nat): seq<nat>
    requires i < |s.nodes| && |s.nodes| == |s.cells| && s.nodes[i].halfSize > 0.0 && p.minHalf > 0.0
  {
    Visit(s.cells[i].ids, items, p, s.nodes[i].center, s.nodes[i].halfSize)
  }

  /** The child behind octant `o` contributes its own walk, an absent one nothing. */
  lemma OctantVisit(s: Shape, items: seq<Item>, p: Policy, world: real, i: nat, o: nat)
    requires Holds(s, items, p, world, |items|) && i < |s.nodes| && s.nodes[i].bucket == NoNode && o < 8
    ensures |s.nodes[i].children| == 8 && s.nodes[i].halfSize > p.minHalf
    ensures var before := VisitOctants(s.cells[i].ids, items, p, s.nodes[i].center, s.nodes[i].halfSize, o);
      var after := VisitOctants(s.cells[i].ids, items, p, s.nodes[i].center, s.nodes[i].halfSize, o + 1);
      match s.nodes[i].children[o]
      case NoNode => after == before
      case Node(c) => i < c < |s.nodes| && after == before + VisitNode(s, items, p, c)
  {
    assert NodeOk(s, items, p, i, s.cells[i].ids);
    assert ChildOk(s, items, i, o, s.cells[i].ids);
    HalvingDecreases(s.nodes[i].halfSize, p.minHalf);
  }

  lemma NodeVisit(s: Shape, items: seq<Item>, p: Policy, world: real, i: nat)
    requires Holds(s, items, p, world, |items|) && i < |s.nodes|
    ensures |s.nodes[i].children| == 8 && s.nodes[i].halfSize > 0.0
    ensures match s.nodes[i].bucket
      case Node(b) => b == i && i < |s.buckets| && VisitNode(s, items, p, i) == s.buckets[i]
                      && forall id :: id in s.buckets[i] ==> id < |items|
      case NoNode => s.nodes[i].halfSize > p.minHalf
                     && VisitNode(s, items, p, i) == VisitOctants(s.cells[i].ids, items, p, s.nodes[i].center, s.nodes[i].halfSize, 8)
  {
    assert NodeOk(s, items, p, i, s.cells[i].ids);
    Routing.CellFacts(s, items, p, world, |items|, i);
  }

  lemma TalliedOne(t: Tally, ids: seq<nat>, id: nat, items: seq<Item>, arena: seq<Byte>, max: nat)
    requires |t.samples| <= max
    ensures var r := Tallied(t, ids, items, arena, max);
      var payload := Octree.PayloadAt(items, arena, id);
      && |r.samples| <= max
      && Tallied(t, ids + [id], items, arena, max) ==
         Tally(r.count + 1, Plus(r.sum, PointOf(items, id)),
               if |r.samples| >= max || payload.None? then r.samples else r.samples + [payload.value])
  {
    TalliedAppend(t, ids, [id], items, arena, max);
    assert [id][..0] == [];
    SumOf(id, items, 0);
    SumOf(id, items, 1);
    SumOf(id, items, 2);
  }

  /** Adds everything below `nodeId` to the tally `t`. */
  method CollectRegion(m: Octree.FractalMemory3D, nodeId: nat, t: Tally, maxSamples: nat) returns (r: Tally)
    requires m.Valid() && nodeId < |m.nodes| && |t.samples| <= maxSamples
    ensures |m.nodes| == |m.cells| && m.nodes[nodeId].halfSize > 0.0 && |r.samples| <= maxSamples
    ensures r == Tallied(t, VisitNode(m.Shape(), m.items, m.Policy(), nodeId), m.items, m.payloadArena, maxSamples)
    decreases |m.nodes| - nodeId
  {
    ghost var s, p := m.Shape(), m.Policy();
    NodeVisit(s, m.items, p, m.worldHalfSize, nodeId);
    var node := m.nodes[nodeId];
    if node.IsLeaf() {
      r := TallyBucket(m, m.leafBuckets[node.bucket.id], t, maxSamples);
      return;
    }
    r := t;
    ghost var ids := m.cells[nodeId].ids;
    TalliedNone(t, m.items, m.payloadArena, maxSamples);
    for o := 0 to 8
      invariant |r.samples| <= maxSamples
      invariant r == Tallied(t, VisitOctants(ids, m.items, p, node.center, node.halfSize, o), m.items, m.payloadArena, maxSamples)
    {
      hide Holds, Tallied, VisitOctants;
      OctantVisit(s, m.items, p, m.worldHalfSize, nodeId, o);
      ghost var before := VisitOctants(ids, m.items, p, node.center, node.halfSize, o);
      var child := node.children[o];
      if child != NoNode {
        r := CollectRegion(m, child.id, r, maxSamples);
        TalliedAppend(t, before, VisitNode(s, m.items, p, child.id), m.items, m.payloadArena, maxSamples);
      }
    }
  }

  lemma TalliedNone(t: Tally, items: seq<Item>, arena: seq<Byte>, max: nat)
    requires |t.samples| <= max
    ensures Tallied(t, [], items, arena, max) == t
  {
  }

  method TallyBucket(m: Octree.FractalMemory3D, bucket: seq<nat>, t: Tally, maxSamples: nat) returns (r: Tally)
    requires |t.samples| <= maxSamples && forall id :: id in bucket ==> id < |m.items|
    ensures |r.samples| <= maxSamples
    ensures r == Tallied(t, bucket, m.items, m.payloadArena, maxSamples)
  {
    hide Octree.PayloadAt;
    r := t;
    TalliedNone(t, m.items, m.payloadArena, maxSamples);
    for j := 0 to |bucket|
      invariant |r.samples| <= maxSamples
      invariant r == Tallied(t, bucket[..j], m.items, m.payloadArena, maxSamples)
    {
      hide Tallied;
      var item := bucket[j];
      assert item in bucket;
      TalliedOne(t, bucket[..j], item, m.items, m.payloadArena, maxSamples);
      assert bucket[..j + 1] == bucket[..j] + [item];
      r := r.(count := r.count + 1, sum := Plus(r.sum, m.items[item].point));
      if |r.samples| < maxSamples {
        var payload := m.GetPayload(item);
        if payload.Some? {
          r := r.(samples := r.samples + [payload.value]);
        }
      }
    }
    assert bucket[..|bucket|] == bucket;
  }

  /** The summary of a node is the view of the region it stands for. */
  method Summarize(m: Octree.FractalMemory3D, nodeId: nat, depth: nat, maxSamples: nat) returns (view: RegionView)
    requires m.Valid() && nodeId < |m.nodes|
    ensures |m.nodes| == |m.cells| && m.nodes[nodeId].halfSize > 0.0 && m.minHalfSize > 0.0
    ensures view == View(RegionOf(m.Shape(), nodeId, depth), m.items, m.payloadArena, m.Policy(), maxSamples)
  {
    var node := m.nodes[nodeId];
    var t := CollectRegion(m, nodeId, Tally(0, ORIGIN, []), maxSamples);
    ghost var ids := m.cells[nodeId].ids;
    ghost var visit := Visit(ids, m.items, m.Policy(), node.center, node.halfSize);
    assert t.count == |ids| && t.sum == SumPoints(ids, m.items) by {
      VisitPermutes(ids, m.items, m.Policy(), node.center, node.halfSize);
      assert |visit| == |multiset(visit)| == |ids|;
      SumPermuted(visit, ids, m.items, 0);
      SumPermuted(visit, ids, m.items, 1);
      SumPermuted(visit, ids, m.items, 2);
    }
    var n := t.count as real;
    var centroid := if t.count > 0 then Point(t.sum.x / n, t.sum.y / n, t.sum.z / n) else node.center;
    view := RegionView(depth, node.center, node.halfSize, t.count, centroid, t.samples);
  }

  /** The region containing an embedding at depth `level`, summarised; none only for a
      dimension mismatch. */
  method Zoom(m: Octree.FractalMemory3D, embedding: seq<real>, level: nat, maxSamples: nat) returns (view: Option<RegionView>)
    requires m.Valid()
    ensures m.worldHalfSize > 0.0 && m.minHalfSize > 0.0
    ensures view == match m.Project(embedding)
      case None => None
      case Some(point) => Some(ZoomView(m.items, m.payloadArena, m.Policy(), m.worldHalfSize, point, level, maxSamples))
    ensures view.Some? ==>
      && m.Project(embedding).Some?
      && Summarises(view.value, Zoomed(Whole(m.items, m.worldHalfSize), m.items, m.Policy(), m.Project(embedding).value, level),
                    m.items, m.payloadArena, maxSamples)
  {
    var p := m.Project(embedding);
    if p.None? {
      return None;
    }
    var node, depth := DescendAlong(m, p.value, level);
    var v := Summarize(m, node, depth, maxSamples);
    view := Some(v);
    ghost var z := Zoomed(Whole(m.items, m.worldHalfSize), m.items, m.Policy(), p.value, level);
    ViewSummarises(z, m.items, m.payloadArena, m.Policy(), maxSamples);
  }

  function ZoomView(items: seq<Item>, arena: seq<Byte>, p: Policy, world: real, point: Point, level: nat, maxSamples: nat): RegionView
    requires world > 0.0 && p.minHalf > 0.0
  {
    ZoomedPositive(Whole(items, world), items, p, point, level);
    View(Zoomed(Whole(items, world), items, p, point, level), items, arena, p, maxSamples)
  }

  lemma {:induction false} ZoomedPositive(r: Region, items: seq<Item>, p: Policy, point: Point, level: nat)
    requires r.half > 0.0
    ensures Zoomed(r, items, p, point, level).half > 0.0
    decreases level - r.depth
  {
    if Final(r, items, p, point, level) {
    } else {
      ZoomedPositive(Toward(r, items, point), items, p, point, level);
    }
  }

  lemma {:induction false} PathPositive(r: Region, items: seq<Item>, p: Policy, point: Point, level: nat)
    requires r.half > 0.0
    ensures forall j :: 0 <= j < |Path(r, items, p, point, level)| ==> Path(r, items, p, point, level)[j].half > 0.0
    decreases level - r.depth
  {
    if Final(r, items, p, point, level) {
    } else {
      PathPositive(Toward(r, items, point), items, p, point, level);
    }
  }

  lemma PathNext(r: Region, items: seq<Item>, p: Policy, point: Point, level: nat, path: seq<Region>, d: nat)
    requires d < |path| && Path(r, items, p, point, level) == path[d..]
    ensures path[d] == r
    ensures Final(r, items, p, point, level) ==> |path| == d + 1
    ensures !Final(r, items, p, point, level) ==>
      d + 1 < |path| && Path(Toward(r, items, point), items, p, point, level) == path[d + 1..]
  {
    assert path[d..][0] == path[d];
    if !Final(r, items, p, point, level) {
      assert path[d..][1..] == path[d + 1..];
    }
  }

  /** The coarse-to-fine summaries along an embedding: one view per region of the path. */
  method ZoomPath(m: Octree.FractalMemory3D, embedding: seq<real>, maxLevel: nat, maxSamples: nat) returns (views: seq<RegionView>)
    requires m.Valid()
    ensures |embedding| != m.highDim ==> views == []
    ensures |embedding| == m.highDim ==>
      var path := Path(Whole(m.items, m.worldHalfSize), m.items, m.Policy(), m.Project(embedding).value, maxLevel);
      && |views| == |path|
      && m.minHalfSize > 0.0
      && forall j :: 0 <= j < |path| ==>
           && path[j].half > 0.0 && views[j] == View(path[j], m.items, m.payloadArena, m.Policy(), maxSamples)
           && Summarises(views[j], path[j], m.items, m.payloadArena, maxSamples)
  {
    hide View, OctantIndex, Path, Toward, Octree.FractalMemory3D.Policy;
    var projected := m.Project(embedding);
    if projected.None? {
      return [];
    }
    var p := projected.value;
    ghost var s, whole := m.Shape(), Whole(m.items, m.worldHalfSize);
    ghost var path := Path(whole, m.items, m.Policy(), p, maxLevel);
    PathPositive(whole, m.items, m.Policy(), p, maxLevel);
    views := [];
    var node: nat, depth: nat := 0, 0;
    while true
      invariant node < |m.nodes| == |m.cells| && depth <= maxLevel
      invariant |views| == depth < |path|
      invariant Path(RegionOf(s, node, depth), m.items, m.Policy(), p, maxLevel) == path[depth..]
      invariant forall j :: 0 <= j < depth ==> views[j] == View(path[j], m.items, m.payloadArena, m.Policy(), maxSamples)
      decreases maxLevel - depth
    {
      hide Holds;
      var view := Summarize(m, node, depth, maxSamples);
      PathNext(RegionOf(s, node, depth), m.items, m.Policy(), p, maxLevel, path, depth);
      views := views + [view];
      if depth >= maxLevel {
        break;
      }
      NodeStep(s, m.items, m.Policy(), m.worldHalfSize, node, p, depth);
      var n := m.nodes[node];
      if n.IsLeaf() {
        break;
      }
      var child := n.children[OctantIndex(n.center, p)];
      if child == NoNode {
        break;
      }
      node, depth := child.id, depth + 1;
    }
    forall j | 0 <= j < |path|
      ensures Summarises(views[j], path[j], m.items, m.payloadArena, maxSamples)
    {
      ViewSummarises(path[j], m.items, m.payloadArena, m.Policy(), maxSamples);
    }
  }
}
