/** Projected points and octree cubes. Coordinates are reals: rounding is not modelled. */
module Geometry {
  import opened Reals

  datatype Point = Point(x: real, y: real, z: real)

  const ORIGIN := Point(0.0, 0.0, 0.0)

  function MaxCoord(p: Point): real {
    Max(Max(Abs(p.x), Abs(p.y)), Abs(p.z))
  }

  function AxisDist2(a: real, b: real): real {
    (a - b) * (a - b)
  }

  function Dist2(a: Point, b: Point): real {
    AxisDist2(a.x, b.x) + AxisDist2(a.y, b.y) + AxisDist2(a.z, b.z)
  }

  /** Squared excess of one coordinate over the cube's slab; zero inside it. */
  function AxisExcess2(p: real, c: real, half: real): real {
    var excess := Abs(p - c) - half;
    if excess > 0.0 then excess * excess else 0.0
  }

  function CubeMinDist2(p: Point, center: Point, half: real): real {
    AxisExcess2(p.x, center.x, half) + AxisExcess2(p.y, center.y, half) + AxisExcess2(p.z, center.z, half)
  }

  /** Membership in the closed cube. */
  predicate InCube(p: Point, center: Point, half: real) {
    && Abs(p.x - center.x) <= half
    && Abs(p.y - center.y) <= half
    && Abs(p.z - center.z) <= half
  }

  lemma SquareMonotone(a: real, b: real)
    requires 0.0 <= a <= b
    ensures a * a <= b * b
  {
    assert a * a <= a * b && a * b <= b * b;
  }

  lemma AxisAdmissible(p: real, q: real, c: real, half: real)
    requires Abs(q - c) <= half
    ensures AxisExcess2(p, c, half) <= AxisDist2(p, q)
  {
    var excess := Abs(p - c) - half;
    if excess > 0.0 {
      SquareMonotone(excess, Abs(p - q));
      assert Abs(p - q) * Abs(p - q) == (p - q) * (p - q);
    } else {
      assert (p - q) * (p - q) == Abs(p - q) * Abs(p - q);
      SquareMonotone(0.0, Abs(p - q));
    }
  }

  /** The pruning bound is admissible: no point of the cube is closer than it says. */
  lemma CubeBoundAdmissible(p: Point, q: Point, center: Point, half: real)
    requires InCube(q, center, half)
    ensures CubeMinDist2(p, center, half) <= Dist2(p, q)
  {
    var ex, dx := AxisExcess2(p.x, center.x, half), AxisDist2(p.x, q.x);
    var ey, dy := AxisExcess2(p.y, center.y, half), AxisDist2(p.y, q.y);
    var ez, dz := AxisExcess2(p.z, center.z, half), AxisDist2(p.z, q.z);
    assert ex <= dx by { AxisAdmissible(p.x, q.x, center.x, half); }
    assert ey <= dy by { AxisAdmissible(p.y, q.y, center.y, half); }
    assert ez <= dz by { AxisAdmissible(p.z, q.z, center.z, half); }
  }

  /** Squared Euclidean distance, written out. */
  lemma Dist2Is(a: Point, b: Point)
    ensures Dist2(a, b) == (a.x - b.x) * (a.x - b.x) + (a.y - b.y) * (a.y - b.y) + (a.z - b.z) * (a.z - b.z)
  {
  }

  /** No axis counts for more than another. */
  lemma AxesAlike(a: Point, b: Point)
    ensures Dist2(a, b) == Dist2(Point(a.y, a.x, a.z), Point(b.y, b.x, b.z))
    ensures Dist2(a, b) == Dist2(Point(a.z, a.y, a.x), Point(b.z, b.y, b.x))
    ensures Dist2(a, b) == Dist2(Point(a.x, a.z, a.y), Point(b.x, b.z, b.y))
  {
    hide AxisDist2;
  }

  function Times(x: real, y: real): real {
    x * y
  }

  lemma TimesSigns(x: real, y: real)
    ensures x > 0.0 && y > 0.0 ==> Times(x, y) > 0.0
    ensures Times(-x, -y) == Times(x, y) && Times(0.0, y) == 0.0
  {
  }

  lemma AxisIs(a: real, b: real)
    ensures AxisDist2(a, b) == Times(a - b, a - b)
  {
  }

  lemma AxisMeaning(a: real, b: real)
    ensures if a == b then AxisDist2(a, b) == 0.0 else AxisDist2(a, b) > 0.0
  {
    hide Times, AxisDist2;
    var r := a - b;
    AxisIs(a, b);
    TimesSigns(r, r);
    TimesSigns(-r, -r);
  }

  lemma AlongX(a: Point, b: Point)
    requires a.y == b.y && a.z == b.z
    ensures Dist2(a, b) == (a.x - b.x) * (a.x - b.x)
  {
    hide AxisDist2;
    AxisMeaning(a.y, b.y);
    AxisMeaning(a.z, b.z);
    assert Dist2(a, b) == AxisDist2(a.x, b.x);
    AxisWritten(a.x, b.x);
  }

  lemma AxisWritten(a: real, b: real)
    ensures AxisDist2(a, b) == (a - b) * (a - b)
  {
  }

  /** Zero exactly between equal points; along one axis the square of the difference; and
      the square of a diagonal is the sum of those of its legs. */
  lemma Dist2Meaning(a: Point, b: Point)
    ensures Dist2(a, b) >= 0.0 && (Dist2(a, b) == 0.0 <==> a == b)
    ensures a.y == b.y && a.z == b.z ==> Dist2(a, b) == (a.x - b.x) * (a.x - b.x)
    ensures Dist2(a, b) == Dist2(a, Point(b.x, a.y, a.z)) + Dist2(Point(b.x, a.y, a.z), b)
  {
    hide AxisDist2;
    if a.y == b.y && a.z == b.z {
      AlongX(a, b);
    }
    AxisMeaning(a.x, b.x);
    AxisMeaning(a.y, b.y);
    AxisMeaning(a.z, b.z);
    AxisMeaning(a.y, a.y);
    AxisMeaning(a.z, a.z);
    AxisMeaning(b.x, b.x);
  }

  /** The coordinate of a slab that is closest to another. */
  function AxisClamp(p: real, c: real, half: real): real {
    if p > c + half then c + half else if p < c - half then c - half else p
  }

  lemma AxisAttained(p: real, c: real, half: real)
    requires half >= 0.0
    ensures Abs(AxisClamp(p, c, half) - c) <= half
    ensures AxisDist2(p, AxisClamp(p, c, half)) == AxisExcess2(p, c, half)
  {
    var excess := Abs(p - c) - half;
    if p > c + half {
      assert p - (c + half) == excess;
    } else if p < c - half {
      assert p - (c - half) == -excess;
      assert excess * excess == (-excess) * (-excess);
    }
  }

  /** The pruning bound is exact: some point of the cube is as close as it says. */
  lemma CubeBoundAttained(p: Point, center: Point, half: real)
    requires half >= 0.0
    ensures exists q :: InCube(q, center, half) && Dist2(p, q) == CubeMinDist2(p, center, half)
    ensures CubeMinDist2(p, center, 0.0) == Dist2(p, center)
  {
    hide AxisDist2, AxisExcess2;
    AxisAttained(p.x, center.x, half);
    AxisAttained(p.y, center.y, half);
    AxisAttained(p.z, center.z, half);
    var q := Point(AxisClamp(p.x, center.x, half), AxisClamp(p.y, center.y, half), AxisClamp(p.z, center.z, half));
    assert InCube(q, center, half);
    AxisAttained(p.x, center.x, 0.0);
    AxisAttained(p.y, center.y, 0.0);
    AxisAttained(p.z, center.z, 0.0);
  }

  /** A world reaches a point exactly when it is no smaller than its largest coordinate. */
  lemma MaxCoordMeaning(p: Point, world: real)
    ensures MaxCoord(p) <= world <==>
      -world <= p.x <= world && -world <= p.y <= world && -world <= p.z <= world
  {
  }

  lemma InCubeMeaning(p: Point, center: Point, half: real)
    ensures InCube(p, center, half) <==>
      && center.x - half <= p.x <= center.x + half
      && center.y - half <= p.y <= center.y + half
      && center.z - half <= p.z <= center.z + half
  {
  }

  // -- octants ---------------------------------------------------------------

  /** Bit 0 is `x >= cx`, bit 1 is `y >= cy`, bit 2 is `z >= cz`. */
  function OctantIndex(center: Point, p: Point): (o: nat)
    ensures o < 8
  {
    (if p.x >= center.x then 1 else 0) + (if p.y >= center.y then 2 else 0) + (if p.z >= center.z then 4 else 0)
  }

  function ChildCenter(center: Point, half: real, octant: nat): Point {
    var q := half * 0.5;
    Point(center.x + (if octant % 2 != 0 then q else -q),
          center.y + (if octant / 2 % 2 != 0 then q else -q),
          center.z + (if octant / 4 % 2 != 0 then q else -q))
  }

  /** Each bit of an octant says on which side of one plane the point is; a point on the
      plane is on the upper side. */
  lemma OctantBits(center: Point, p: Point)
    ensures var o := OctantIndex(center, p);
      && (o % 2 == 1 <==> p.x >= center.x)
      && (o / 2 % 2 == 1 <==> p.y >= center.y)
      && (o / 4 == 1 <==> p.z >= center.z)
  {
  }

  /** The octant a point selects is a child cube that contains it. */
  lemma OctantContains(center: Point, half: real, p: Point)
    requires InCube(p, center, half)
    ensures InCube(p, ChildCenter(center, half, OctantIndex(center, p)), half * 0.5)
  {
    var o := OctantIndex(center, p);
    assert o % 2 == (if p.x >= center.x then 1 else 0);
    assert o / 2 % 2 == (if p.y >= center.y then 1 else 0);
    assert o / 4 % 2 == (if p.z >= center.z then 1 else 0);
  }

  /** The eight child cubes stay inside their parent. */
  lemma ChildCubeInside(center: Point, half: real, octant: nat, p: Point)
    requires octant < 8 && half >= 0.0
    requires InCube(p, ChildCenter(center, half, octant), half * 0.5)
    ensures InCube(p, center, half)
  {
  }

  // -- halving and doubling --------------------------------------------------

  /** How often `half` can still be halved above `floor`: the depth budget of a cell. */
  function Halvings(half: real, floor: real): nat
    requires half > 0.0 && floor > 0.0
  {
    QuotientPositive(half, floor);
    (half / floor).Floor
  }

  lemma QuotientPositive(a: real, b: real)
    requires a > 0.0 && b > 0.0
    ensures a / b > 0.0
  {
  }

  lemma HalvingDecreases(half: real, floor: real)
    requires half > floor > 0.0
    ensures Halvings(half * 0.5, floor) < Halvings(half, floor)
  {
    var x := half / floor;
    assert x > 1.0;
    assert half * 0.5 / floor == x * 0.5;
  }
}
