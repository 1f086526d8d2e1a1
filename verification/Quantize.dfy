/** The integer storage tiers: symmetric int8 quantization with its exact integer dot, and
    nearest-level 4-bit codes packed two to a byte. Reals stand for `f32`. */
module Quantize {
  import opened Bytes
  import opened Reals

  function AbsMax(v: seq<real>): (m: real)
    ensures m >= 0.0 && forall i :: 0 <= i < |v| ==> Abs(v[i]) <= m
    ensures m > 0.0 ==> exists i :: 0 <= i < |v| && Abs(v[i]) == m
  {
    if v == [] then 0.0
    else
      var front, last := v[..|v| - 1], v[|v| - 1];
      assert forall i :: 0 <= i < |front| ==> front[i] == v[i];
      var m := AbsMax(front);
      if Abs(last) > m then Abs(last) else m
  }

  /** Rounds to the nearest integer, halves away from zero. */
  function Round(x: real): (n: int)
    ensures Abs(x - n as real) <= 0.5
  {
    if x < 0.0 then -((0.5 - x).Floor) else (x + 0.5).Floor
  }

  /** A half is rounded away from zero. */
  lemma RoundMeans(x: real)
    ensures Abs(x - Round(x) as real) <= 0.5
    ensures Abs(x - Round(x) as real) == 0.5 ==> Abs(Round(x) as real) > Abs(x)
  {
  }

  function Clamp(n: int): int {
    if n < -127 then -127 else if n > 127 then 127 else n
  }

  // -- int8 ------------------------------------------------------------------------------

  function Scale(v: seq<real>): real {
    AbsMax(v) / 127.0
  }

  function QuantizeI8(v: seq<real>): (codes: seq<int>)
    ensures |codes| == |v|
  {
    if AbsMax(v) <= 0.0 then seq(|v|, _ => 0)
    else seq(|v|, i requires 0 <= i < |v| => Clamp(Round(v[i] / Scale(v))))
  }

  /** A product kept apart from the arithmetic around it. */
  function Product(x: real, s: real): real {
    x * s
  }

  lemma ProductOrder(a: real, b: real, s: real)
    requires s > 0.0 && a <= b
    ensures Product(a, s) <= Product(b, s)
  {
  }

  lemma ProductSum(a: real, b: real, s: real)
    ensures Product(a + b, s) == Product(a, s) + Product(b, s)
  {
  }

  lemma ProductHalf(s: real)
    ensures Product(0.5, s) == s / 2.0 && Product(-0.5, s) == -(s / 2.0)
  {
  }

  lemma ScaledError(r: real, n: real, s: real)
    requires s > 0.0 && Abs(r - n) <= 0.5
    ensures Abs(Product(r, s) - Product(n, s)) <= s / 2.0
  {
    hide Product;
    var d := r - n;
    assert n + d == r;
    ProductSum(n, d, s);
    ProductOrder(d, 0.5, s);
    ProductOrder(-0.5, d, s);
    ProductHalf(s);
  }

  function Decoded(code: int, scale: real): real {
    code as real * scale
  }

  lemma DivideBound(x: real, s: real, k: real)
    requires s > 0.0 && Abs(x) <= k * s
    ensures Abs(x / s) <= k && Product(x / s, s) == x
  {
    if x / s > k {
      assert x / s * s > k * s;
    } else if x / s < -k {
      assert x / s * s < -k * s;
    }
  }

  lemma OneCode(x: real, s: real)
    requires s > 0.0 && Abs(x) <= 127.0 * s
    ensures Clamp(Round(x / s)) == Round(x / s) && -127 <= Round(x / s) <= 127
    ensures Abs(x - Decoded(Round(x / s), s)) <= s / 2.0
  {
    hide Round, Product, Decoded;
    DivideBound(x, s, 127.0);
    var r := x / s;
    RoundBound(r);
    ScaledError(r, Round(r) as real, s);
    DecodedIsProduct(Round(r), s);
  }

  lemma DecodedIsProduct(code: int, s: real)
    ensures Decoded(code, s) == Product(code as real, s)
  {
  }

  lemma ZeroDecodes(s: real)
    ensures Decoded(0, s) == 0.0
  {
  }

  lemma RoundBound(r: real)
    requires Abs(r) <= 127.0
    ensures -127 <= Round(r) <= 127
  {
  }

  /** Every code fits a signed byte without clamping, and decodes to within half a step. */
  lemma CodeError(v: seq<real>, i: nat)
    requires i < |v|
    ensures -127 <= QuantizeI8(v)[i] <= 127
    ensures Abs(v[i] - Decoded(QuantizeI8(v)[i], Scale(v))) <= Scale(v) / 2.0
  {
    hide Round, AbsMax, Clamp, Decoded;
    ZeroDecodes(Scale(v));
    if AbsMax(v) > 0.0 {
      var s := Scale(v);
      assert 127.0 * s == AbsMax(v);
      OneCode(v[i], s);
    }
  }

  /** A zero vector has zero codes. */
  lemma ZeroCodes(v: seq<real>, i: nat)
    requires i < |v| && forall j :: 0 <= j < |v| ==> v[j] == 0.0
    ensures QuantizeI8(v)[i] == 0
  {
  }

  /** The largest component uses the whole range: it is stored without error. */
  lemma LargestIsExact(v: seq<real>, i: nat)
    requires i < |v| && AbsMax(v) > 0.0 && Abs(v[i]) == AbsMax(v)
    ensures QuantizeI8(v)[i] == (if v[i] < 0.0 then -127 else 127)
    ensures Decoded(QuantizeI8(v)[i], Scale(v)) == v[i]
  {
    var s := Scale(v);
    assert 127.0 * s == AbsMax(v);
    Ratio(v[i], s);
  }

  lemma Ratio(x: real, s: real)
    requires s > 0.0 && Abs(x) == 127.0 * s
    ensures x / s == (if x < 0.0 then -127.0 else 127.0)
  {
    if x < 0.0 {
      assert x == -127.0 * s;
    } else {
      assert x == 127.0 * s;
    }
  }

  // -- the integer dot ---------------------------------------------------------------------

  function Shorter(a: seq<int>, b: seq<int>): nat {
    if |a| < |b| then |a| else |b|
  }

  function IntDot(a: seq<int>, b: seq<int>, n: nat): int
    requires n <= |a| && n <= |b|
  {
    if n == 0 then 0 else IntDot(a, b, n - 1) + a[n - 1] * b[n - 1]
  }

  /** Two's complement `i32`. */
  function Wrap32(x: int): int {
    (x + 0x8000_0000) % 0x1_0000_0000 - 0x8000_0000
  }

  /** The representative of a sum in the range of an `i32`. */
  lemma Wrap32Means(x: int)
    ensures -0x8000_0000 <= Wrap32(x) < 0x8000_0000 && (x - Wrap32(x)) % 0x1_0000_0000 == 0
  {
  }

  /** The accumulator loop, with the 32-bit addition it uses. */
  method Idot(a: seq<int>, b: seq<int>) returns (s: int)
    ensures s == Wrap32(IntDot(a, b, Shorter(a, b)))
  {
    s := 0;
    for i := 0 to Shorter(a, b)
      invariant s == Wrap32(IntDot(a, b, i))
    {
      s := Wrap32(s + a[i] * b[i]);
    }
  }

  ghost predicate Codes(a: seq<int>) {
    forall i :: 0 <= i < |a| ==> -127 <= a[i] <= 127
  }

  lemma ProductBound(x: int, y: int)
    requires -127 <= x <= 127 && -127 <= y <= 127
    ensures -16129 <= x * y <= 16129
  {
    if x >= 0 {
      ScaledOrder(x, -127, y);
      ScaledOrder(x, y, 127);
    } else {
      ScaledOrder(-x, -127, y);
      ScaledOrder(-x, y, 127);
      assert -x * y == -(x * y);
    }
  }

  lemma ScaledOrder(x: nat, a: int, b: int)
    requires a <= b
    ensures x * a <= x * b
  {
  }

  lemma {:induction false} DotBound(a: seq<int>, b: seq<int>, n: nat)
    requires n <= |a| && n <= |b| && Codes(a) && Codes(b)
    ensures -16129 * n <= IntDot(a, b, n) <= 16129 * n
  {
    if n == 0 {
    } else {
      DotBound(a, b, n - 1);
      ProductBound(a[n - 1], b[n - 1]);
    }
  }

  /** Largest dimension at which no two code vectors can overflow the accumulator. */
  const SAFE_DIM: nat := 133144

  /** Up to that dimension the integer dot is exact, so its value is independent of any
      splitting of the sum. */
  lemma IdotExact(a: seq<int>, b: seq<int>)
    requires Codes(a) && Codes(b) && Shorter(a, b) <= SAFE_DIM
    ensures Wrap32(IntDot(a, b, Shorter(a, b))) == IntDot(a, b, Shorter(a, b))
  {
    DotBound(a, b, Shorter(a, b));
  }

  lemma {:induction false} FullScaleDot(n: nat, m: nat)
    requires m <= n
    ensures IntDot(seq(n, _ => 127), seq(n, _ => 127), m) == 16129 * m
  {
    if m == 0 {
    } else {
      FullScaleDot(n, m - 1);
    }
  }

  /** One dimension more and it can wrap around. */
  lemma BeyondSafeDim()
    ensures var a := seq(SAFE_DIM + 1, _ => 127); Codes(a) && Wrap32(IntDot(a, a, |a|)) != IntDot(a, a, |a|)
  {
    FullScaleDot(SAFE_DIM + 1, SAFE_DIM + 1);
  }

  // -- 4-bit codes -----------------------------------------------------------------------------

  const NF4_LEVELS: seq<real> := [
    -1.0, -0.6961928, -0.52507305, -0.3949175, -0.28444138, -0.18477343, -0.091050036, 0.0,
    0.0795803, 0.1609302, 0.2461123, 0.33791524, 0.44070983, 0.562617, 0.72295684, 1.0]

  /** First nearest level. */
  method NearestLevel(val: real) returns (best: nat)
    ensures best < |NF4_LEVELS| == 16
    ensures forall k :: 0 <= k < 16 ==> Abs(val - NF4_LEVELS[best]) <= Abs(val - NF4_LEVELS[k])
    ensures forall k :: 0 <= k < best ==> Abs(val - NF4_LEVELS[best]) < Abs(val - NF4_LEVELS[k])
  {
    best := 0;
    var bd := Abs(val - NF4_LEVELS[0]);
    for k := 1 to |NF4_LEVELS|
      invariant best < k && bd == Abs(val - NF4_LEVELS[best])
      invariant forall j :: 0 <= j < k ==> bd <= Abs(val - NF4_LEVELS[j])
      invariant forall j :: 0 <= j < best ==> bd < Abs(val - NF4_LEVELS[j])
    {
      var d := Abs(val - NF4_LEVELS[k]);
      if d < bd {
        bd, best := d, k;
      }
    }
  }

  ghost predicate Nibbles(codes: seq<nat>) {
    forall j :: 0 <= j < |codes| ==> codes[j] < 16
  }

  /** Code `j` of a packed row: low nibble first. */
  function Unpacked(packed: seq<Byte>, j: nat): nat
    requires j / 2 < |packed|
  {
    if j % 2 == 0 then packed[j / 2] % 16 else packed[j / 2] / 16
  }

  /** Packs two codes to a byte, in place; every code is read back as written. */
  method Pack(codes: seq<nat>) returns (packed: seq<Byte>)
    requires Nibbles(codes)
    ensures |packed| == (|codes| + 1) / 2
    ensures forall j :: 0 <= j < |codes| ==> Unpacked(packed, j) == codes[j]
  {
    packed := seq((|codes| + 1) / 2, _ => 0);
    for j := 0 to |codes|
      invariant |packed| == (|codes| + 1) / 2
      invariant forall i :: 0 <= i < j ==> Unpacked(packed, i) == codes[i]
      invariant forall b :: (j + 1) / 2 <= b < |packed| ==> packed[b] == 0
      invariant j % 2 == 1 ==> packed[j / 2] < 16
    {
      ghost var before := packed;
      var code := codes[j];
      var byte: Byte := packed[j / 2] + if j % 2 == 0 then code else 16 * code;
      packed := packed[j / 2 := byte];
      forall i | 0 <= i < j
        ensures Unpacked(packed, i) == codes[i]
      {
        assert Unpacked(before, i) == codes[i];
      }
    }
  }
}
