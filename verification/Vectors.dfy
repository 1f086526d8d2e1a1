/** Embeddings over the reals: dot products, normalisation and sign sketches. */
module Vectors {

  /** Dot product over the shared prefix. */
  function Dot(a: seq<real>, b: seq<real>): real {
    if a == [] || b == [] then 0.0 else a[0] * b[0] + Dot(a[1..], b[1..])
  }

  function Scaled(v: seq<real>, c: real): (s: seq<real>)
    ensures |s| == |v|
  {
    if v == [] then [] else [v[0] * c] + Scaled(v[1..], c)
  }

  /** Any function that behaves like the Euclidean norm; square roots are not modelled. */
  ghost predicate IsNorm(norm: seq<real> -> real) {
    forall v :: norm(v) >= 0.0 && norm(v) * norm(v) == Dot(v, v)
  }

  /** A zero vector is left as it is. */
  function Normalized(norm: seq<real> -> real, v: seq<real>): (n: seq<real>)
    ensures |n| == |v|
  {
    if norm(v) > 0.0 then Scaled(v, 1.0 / norm(v)) else v
  }

  /** Bit `i` is set when the vector is on the positive side of hyperplane `i`. */
  function Sketch(planes: seq<seq<real>>, v: seq<real>): (bits: seq<bool>)
    ensures |bits| == |planes|
  {
    if planes == [] then [] else [Dot(planes[0], v) >= 0.0] + Sketch(planes[1..], v)
  }

  function Hamming(a: seq<bool>, b: seq<bool>): (h: nat)
    ensures h <= |a|
  {
    if a == [] || b == [] then 0 else (if a[0] != b[0] then 1 else 0) + Hamming(a[1..], b[1..])
  }

  /** Bit `i` says on which side of hyperplane `i` the vector is; on the plane is the
      positive side. */
  lemma {:induction false} SketchBit(planes: seq<seq<real>>, v: seq<real>, i: nat)
    requires i < |planes|
    ensures Sketch(planes, v)[i] <==> Dot(planes[i], v) >= 0.0
  {
    if i == 0 {
    } else {
      SketchBit(planes[1..], v, i - 1);
    }
  }

  // -- Hamming distance ----------------------------------------------------------------

  /** The positions at which two sketches differ. */
  ghost function Differing(a: seq<bool>, b: seq<bool>): set<nat> {
    set i: nat | i < |a| && i < |b| && a[i] != b[i]
  }

  lemma {:induction false} HammingLast(a: seq<bool>, b: seq<bool>)
    requires |a| == |b| > 0
    ensures var n := |a| - 1; Hamming(a, b) == Hamming(a[..n], b[..n]) + if a[n] != b[n] then 1 else 0
  {
    var n := |a| - 1;
    if n == 0 {
      assert Hamming(a[1..], b[1..]) == 0 && Hamming(a[..0], b[..0]) == 0;
    } else {
      HammingLast(a[1..], b[1..]);
      assert a[1..][..n - 1] == a[..n][1..] && b[1..][..n - 1] == b[..n][1..];
    }
  }

  /** The Hamming distance counts the positions at which two sketches differ. */
  lemma {:induction false} HammingMeans(a: seq<bool>, b: seq<bool>)
    requires |a| == |b|
    ensures Hamming(a, b) == |Differing(a, b)|
  {
    if a == [] {
      assert Differing(a, b) == {};
    } else {
      var n := |a| - 1;
      HammingLast(a, b);
      HammingMeans(a[..n], b[..n]);
      assert Differing(a, b) == Differing(a[..n], b[..n]) + (if a[n] != b[n] then {n} else {});
    }
  }

  /** It is a metric: zero between equal sketches only, symmetric, and no detour is shorter. */
  lemma HammingMetric(a: seq<bool>, b: seq<bool>, c: seq<bool>)
    requires |a| == |b| == |c|
    ensures Hamming(a, b) == 0 <==> a == b
    ensures Hamming(a, b) == Hamming(b, a)
    ensures Hamming(a, c) <= Hamming(a, b) + Hamming(b, c)
  {
    hide Hamming;
    HammingMeans(a, b);
    HammingMeans(b, a);
    HammingMeans(b, c);
    HammingMeans(a, c);
    assert Differing(a, b) == Differing(b, a);
    if Differing(a, b) == {} {
      forall i | 0 <= i < |a|
        ensures a[i] == b[i]
      {
        assert i !in Differing(a, b);
      }
    }
    var both := Differing(a, b) + Differing(b, c);
    assert Differing(a, c) <= both;
    assert |both - Differing(a, c)| == |both| - |Differing(a, c)|;
    assert |both| <= |Differing(a, b)| + |Differing(b, c)|;
  }

  lemma {:induction false} DotScaledRight(a: seq<real>, v: seq<real>, c: real)
    ensures Dot(a, Scaled(v, c)) == Dot(a, v) * c
  {
    if a != [] && v != [] {
      assert Scaled(v, c)[1..] == Scaled(v[1..], c);
      DotScaledRight(a[1..], v[1..], c);
      Distribute(a[0], v[0], Dot(a[1..], v[1..]), c);
    }
  }

  lemma Distribute(a: real, b: real, d: real, c: real)
    ensures a * (b * c) + d * c == (a * b + d) * c
  {
  }

  lemma {:induction false} DotScaledLeft(v: seq<real>, b: seq<real>, c: real)
    ensures Dot(Scaled(v, c), b) == Dot(v, b) * c
  {
    if b != [] && v != [] {
      assert Scaled(v, c)[1..] == Scaled(v[1..], c);
      DotScaledLeft(v[1..], b[1..], c);
      Distribute(b[0], v[0], Dot(v[1..], b[1..]), c);
    }
  }

  lemma {:induction false} ScaledByOne(v: seq<real>)
    ensures Scaled(v, 1.0) == v
  {
    if v == [] {
    } else {
      ScaledByOne(v[1..]);
      assert v == [v[0]] + v[1..];
    }
  }

  /** Normalising divides by the norm and leaves norm one; a vector of norm zero stays. */
  lemma NormalizedMeans(norm: seq<real> -> real, v: seq<real>)
    requires IsNorm(norm)
    ensures norm(v) == 0.0 ==> Normalized(norm, v) == v
    ensures norm(v) > 0.0 ==> norm(Normalized(norm, v)) == 1.0
    ensures norm(v) > 0.0 ==> forall i :: 0 <= i < |v| ==> Normalized(norm, v)[i] == v[i] * (1.0 / norm(v))
  {
    var n := norm(v);
    if n > 0.0 {
      var c := 1.0 / n;
      var u := Scaled(v, c);
      DotScaledRight(u, v, c);
      DotScaledLeft(v, v, c);
      assert Dot(u, u) == n * n * c * c;
      InverseSquared(n);
      UnitSquare(norm(u));
      forall i | 0 <= i < |v|
        ensures u[i] == v[i] * c
      {
        ScaledAt(v, c, i);
      }
    }
  }

  lemma {:induction false} ScaledAt(v: seq<real>, c: real, i: nat)
    requires i < |v|
    ensures Scaled(v, c)[i] == v[i] * c
  {
    if i == 0 {
    } else {
      ScaledAt(v[1..], c, i - 1);
      assert v[1..][i - 1] == v[i];
    }
  }

  lemma UnitSquare(n: real)
    requires n >= 0.0 && n * n == 1.0
    ensures n == 1.0
  {
    assert (n - 1.0) * (n + 1.0) == 0.0;
    ZeroFactor(n - 1.0, n + 1.0);
  }

  lemma ZeroFactor(x: real, y: real)
    requires y > 0.0 && x * y == 0.0
    ensures x == 0.0
  {
    assert x == x * y / y;
  }

  lemma InverseSquared(n: real)
    requires n > 0.0
    ensures n * n * (1.0 / n) * (1.0 / n) == 1.0
  {
    var c := 1.0 / n;
    assert n * c == 1.0;
    assert n * n * c * c == (n * c) * (n * c);
  }

  /** Normalising a normalised vector changes nothing. */
  lemma NormalizeTwice(norm: seq<real> -> real, v: seq<real>)
    requires IsNorm(norm)
    ensures Normalized(norm, Normalized(norm, v)) == Normalized(norm, v)
  {
    var n := norm(v);
    if n > 0.0 {
      var c := 1.0 / n;
      var u := Scaled(v, c);
      DotScaledRight(u, v, c);
      DotScaledLeft(v, v, c);
      assert Dot(u, u) == n * n * c * c;
      InverseSquared(n);
      UnitSquare(norm(u));
      ScaledByOne(u);
    }
  }

  lemma PositiveInverse(n: real)
    requires n > 0.0
    ensures 1.0 / n > 0.0
  {
  }

  lemma SignKept(d: real, c: real)
    requires c > 0.0
    ensures d * c >= 0.0 <==> d >= 0.0
  {
    if d < 0.0 {
      NegativeScaled(d, c);
    }
  }

  lemma NegativeScaled(d: real, c: real)
    requires c > 0.0 && d < 0.0
    ensures d * c < 0.0
  {
  }

  /** Normalising keeps the sketch: every sign of a dot product survives scaling. */
  lemma {:induction false} SketchOfNormalized(norm: seq<real> -> real, planes: seq<seq<real>>, v: seq<real>)
    requires IsNorm(norm)
    ensures Sketch(planes, Normalized(norm, v)) == Sketch(planes, v)
  {
    if planes == [] {
    } else {
      SketchOfNormalized(norm, planes[1..], v);
      if norm(v) > 0.0 {
        PositiveInverse(norm(v));
        DotScaledRight(planes[0], v, 1.0 / norm(v));
        SignKept(Dot(planes[0], v), 1.0 / norm(v));
      }
    }
  }
}
