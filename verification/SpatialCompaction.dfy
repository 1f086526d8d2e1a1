/** What compaction does to the spatial layer of a region: the rebuilt octree indexes the
    stored, normalised vectors where the original indexed the raw ones. */
module SpatialCompaction {
  import opened Geometry
  import opened HybridMemories
  import opened ItemIds
  import opened Octree
  import opened PrecisionTier
  import opened Vectors
  import opened Wrappers
  import Cells
  import Descent
  import Knn

  /** An entry keeps its place exactly when its vector is zero, of norm one, or projected to
      the origin. */
  lemma SamePlaceIff(norm: seq<real> -> real, matrix: seq<real>, dim: nat, v: seq<real>)
    requires IsNorm(norm) && |v| == dim && |matrix| == 3 * dim
    ensures ProjectTo3D(Normalized(norm, v), matrix, dim) == ProjectTo3D(v, matrix, dim) <==>
      norm(v) == 0.0 || norm(v) == 1.0 || ProjectTo3D(v, matrix, dim) == Some(Point(0.0, 0.0, 0.0))
  {
    if norm(v) > 0.0 {
      hide Dot, Scaled, ProjectTo3D, Times;
      var n, p := norm(v), ProjectTo3D(v, matrix, dim).value;
      ScaledPlace(matrix, dim, v, 1.0 / n);
      ScalingFixes(p.x, n);
      ScalingFixes(p.y, n);
      ScalingFixes(p.z, n);
    }
  }

  lemma ScaledDot(v: seq<real>, row: seq<real>, c: real)
    ensures Dot(Scaled(v, c), row) == Times(Dot(v, row), c)
  {
    DotScaledLeft(v, row, c);
  }

  lemma ScaledPlace(matrix: seq<real>, dim: nat, v: seq<real>, c: real)
    requires |v| == dim && |matrix| == 3 * dim
    ensures ProjectTo3D(v, matrix, dim).Some?
    ensures var p := ProjectTo3D(v, matrix, dim).value;
      ProjectTo3D(Scaled(v, c), matrix, dim) == Some(Point(Times(p.x, c), Times(p.y, c), Times(p.z, c)))
  {
    hide Dot, Scaled, Times;
    ScaledDot(v, matrix[..dim], c);
    ScaledDot(v, matrix[dim..2 * dim], c);
    ScaledDot(v, matrix[2 * dim..3 * dim], c);
  }

  lemma ScalingFixes(x: real, n: real)
    requires n > 0.0
    ensures Times(x, 1.0 / n) == x <==> n == 1.0 || x == 0.0
  {
    var c := 1.0 / n;
    assert c * n == 1.0;
    if x * c == x && x != 0.0 {
      assert x * (c - 1.0) == 0.0;
      if x > 0.0 {
        ZeroFactor(c - 1.0, x);
      } else {
        ZeroFactor(1.0 - c, -x);
      }
    }
  }

  /** Under the projection that keeps two coordinates as they are. */
  function Place(v: seq<real>): Point
    requires |v| == 2
  {
    ProjectTo3D(v, [1.0, 0.0, 0.0, 1.0, 0.0, 0.0], 2).value
  }

  function ItemAt(p: Point): Cells.Item {
    Cells.Item(p, 0, 0)
  }

  /** With one candidate, the nearest of two items is what is gathered. */
  lemma NearerIsGathered(items: seq<Cells.Item>, near: nat, far: nat, t: Tier, sketches: seq<seq<bool>>, point: Point,
                         query: seq<real>, c: set<nat>)
    requires |items| == 2 && {near, far} == {0, 1} && near != far
    requires Dist2(point, items[near].point) < Dist2(point, items[far].point)
    ensures Gathered(FastSpatial, t, items, sketches, point, query, 1, c) <==> c == {near}
  {
    hide Dist2;
    var dist := Descent.Distances(items, point);
    assert AllIds(2) == {0, 1};
    var best := [(near, dist[near])];
    assert Descent.IsKNearest(best, 1, point, items);
    assert Knn.IdSet(best) == {near} by {
      assert best[0].0 == near;
    }
    forall hits: seq<Knn.Hit> | Descent.IsKNearest(hits, 1, point, items)
      ensures Knn.IdSet(hits) == {near}
    {
      assert |hits| == 1;
      assert hits[0].0 == far ==> !Knn.Has(hits, near);
      assert hits[0].0 == near;
    }
  }

  /** Two entries at right angles, the one along the query four times as long: the spatial
      strategy with one candidate gathers the other one before a compaction that keeps both,
      and the long one after it. */
  lemma GatheredChanges(norm: seq<real> -> real, t: Tier, sketches: seq<seq<bool>>, c: set<nat>)
    requires IsNorm(norm)
    ensures var along, across, query := [4.0, 0.0], [0.0, 1.0], [1.0, 0.0];
      var before := [ItemAt(Place(along)), ItemAt(Place(across))];
      var after := [ItemAt(Place(Normalized(norm, along))), ItemAt(Place(Normalized(norm, across)))];
      && (Gathered(FastSpatial, t, before, sketches, Place(query), query, 1, c) <==> c == {1})
      && (Gathered(FastSpatial, t, after, sketches, Place(query), query, 1, c) <==> c == {0})
  {
    hide Gathered, Dot, Scaled, Normalized, Place, IsNorm, Dist2;
    FlippedDistances();
    NormalizedTwo(norm);
    Place2([4.0, 0.0]);
    Place2([0.0, 1.0]);
    Place2([1.0, 0.0]);
    var query := [1.0, 0.0];
    NearerIsGathered([ItemAt(Point(4.0, 0.0, 0.0)), ItemAt(Point(0.0, 1.0, 0.0))], 1, 0, t, sketches, Point(1.0, 0.0, 0.0), query, c);
    NearerIsGathered([ItemAt(Point(1.0, 0.0, 0.0)), ItemAt(Point(0.0, 1.0, 0.0))], 0, 1, t, sketches, Point(1.0, 0.0, 0.0), query, c);
  }

  lemma FlippedDistances()
    ensures Dist2(Point(1.0, 0.0, 0.0), Point(0.0, 1.0, 0.0)) < Dist2(Point(1.0, 0.0, 0.0), Point(4.0, 0.0, 0.0))
    ensures Dist2(Point(1.0, 0.0, 0.0), Point(1.0, 0.0, 0.0)) < Dist2(Point(1.0, 0.0, 0.0), Point(0.0, 1.0, 0.0))
  {
  }

  lemma NormalizedTwo(norm: seq<real> -> real)
    requires IsNorm(norm)
    ensures Normalized(norm, [4.0, 0.0]) == [1.0, 0.0] && Normalized(norm, [0.0, 1.0]) == [0.0, 1.0]
  {
    var along, across := [4.0, 0.0], [0.0, 1.0];
    Dot2(along, along);
    Dot2(across, across);
    RootOf(norm(along), 4.0);
    RootOf(norm(across), 1.0);
    Scaled2(along, 0.25);
    Scaled2(across, 1.0);
    hide Dot, Scaled, IsNorm;
    assert 1.0 / norm(along) == 0.25 && 1.0 / norm(across) == 1.0;
  }

  lemma Dot2(a: seq<real>, b: seq<real>)
    requires |a| == |b| == 2
    ensures Dot(a, b) == a[0] * b[0] + a[1] * b[1]
  {
    assert Dot(a[1..][1..], b[1..][1..]) == 0.0;
    assert Dot(a[1..], b[1..]) == a[1] * b[1] + 0.0;
  }

  lemma Scaled2(v: seq<real>, c: real)
    requires |v| == 2
    ensures Scaled(v, c) == [v[0] * c, v[1] * c]
  {
    var tail, s := v[1..], Scaled(v, c);
    ScaledFirst(v, c);
    ScaledFirst(tail, c);
    assert tail[0] * c == v[1] * c;
    assert s[0] == v[0] * c;
    assert s[1] == v[1] * c;
  }

  lemma ScaledFirst(v: seq<real>, c: real)
    requires v != []
    ensures Scaled(v, c) == [v[0] * c] + Scaled(v[1..], c)
  {
  }

  lemma Place2(v: seq<real>)
    requires |v| == 2
    ensures Place(v) == Point(v[0], v[1], 0.0)
  {
    var matrix := [1.0, 0.0, 0.0, 1.0, 0.0, 0.0];
    assert matrix[..2] == [1.0, 0.0] && matrix[2..4] == [0.0, 1.0] && matrix[4..6] == [0.0, 0.0];
    Dot2(v, [1.0, 0.0]);
    Dot2(v, [0.0, 1.0]);
    Dot2(v, [0.0, 0.0]);
  }

  lemma RootOf(n: real, r: real)
    requires n >= 0.0 && r > 0.0 && n * n == r * r
    ensures n == r
  {
    assert (n - r) * (n + r) == 0.0;
    ZeroFactor(n - r, n + r);
  }
}
