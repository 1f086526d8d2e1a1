/** The matrix-vector products behind PCA calibration: the sequential one, and the
    work-stealing one whose threads race on a chunk cursor. Addition is an arbitrary
    function here, so nothing below relies on it being associative or commutative. */
module ParallelPca {
  import opened Wrappers

  // -- the fixed row ranges -----------------------------------------------------------------

  const PCA_CHUNKS: nat := 64

  function ChunkCount(n: nat): (k: nat)
    ensures 0 < k <= PCA_CHUNKS && (n > 0 ==> k <= n)
  {
    if n == 0 then 1 else if n < PCA_CHUNKS then n else PCA_CHUNKS
  }

  function Bound(n: nat, c: nat): nat {
    c * n / ChunkCount(n)
  }

  /** Ranges of the first `c` chunks, empty ones dropped. */
  function RangesUpTo(n: nat, c: nat): (ranges: seq<(nat, nat)>) {
    if c == 0 then []
    else
      var a, b := Bound(n, c - 1), Bound(n, c);
      RangesUpTo(n, c - 1) + if a < b then [(a, b)] else []
  }

  function Ranges(n: nat): (ranges: seq<(nat, nat)>)
    ensures forall c :: 0 <= c < |ranges| ==> ranges[c].0 < ranges[c].1 <= n
  {
    RangesTile(n, ChunkCount(n));
    LastBound(n);
    TilesInside(RangesUpTo(n, ChunkCount(n)), 0, n);
    RangesUpTo(n, ChunkCount(n))
  }

  /** `ranges` cover `[from, to)` in order, without gap, overlap or empty range. */
  ghost predicate Tiles(ranges: seq<(nat, nat)>, from: nat, to: nat) {
    if ranges == [] then from == to
    else
      var last := |ranges| - 1;
      ranges[last].1 == to && ranges[last].0 < to && Tiles(ranges[..last], from, ranges[last].0)
  }

  lemma DivideStep(c: nat, n: nat, k: nat)
    requires 0 < k <= n
    ensures c * n / k < (c + 1) * n / k <= c * n / k + n / k + 1
  {
    var x := c * n;
    assert (c + 1) * n == x + n;
    StepOf(x, n, k);
  }

  lemma StepOf(x: nat, n: nat, k: nat)
    requires 0 < k <= n
    ensures x / k < (x + n) / k <= x / k + n / k + 1
  {
    var q, r, a, b := x / k, x % k, n / k, n % k;
    SumTimes(q, a, k);
    QuotientParts(x, k);
    QuotientParts(n, k);
    DivideIs(x + n, q + a, k, r + b);
    OneOrTwo(r, b, k);
    AtLeastOne(n, k);
  }

  lemma QuotientParts(x: nat, k: nat)
    requires k > 0
    ensures x == x / k * k + x % k && x % k < k
  {
  }

  lemma DivideIs(y: nat, q: nat, k: nat, z: nat)
    requires k > 0 && y == q * k + z
    ensures y / k == q + z / k
  {
    DividePlus(q, k, z);
  }

  lemma SumTimes(q: nat, a: nat, k: nat)
    ensures q * k + a * k == (q + a) * k
  {
  }

  lemma OneOrTwo(r: nat, b: nat, k: nat)
    requires r < k && b < k
    ensures (r + b) / k <= 1
  {
    if r + b >= k {
      QuotientIs(r + b, k, 1, r + b - k);
    } else {
      QuotientIs(r + b, k, 0, r + b);
    }
  }

  lemma AtLeastOne(n: nat, k: nat)
    requires 0 < k <= n
    ensures n / k >= 1
  {
    DividePlus(1, k, n - k);
  }

  lemma DividePlus(q: nat, k: nat, x: nat)
    requires k > 0
    ensures (q * k + x) / k == q + x / k
  {
    var a, b := x / k, x % k;
    assert q * k + x == (q + a) * k + b;
    QuotientIs(q * k + x, k, q + a, b);
  }

  lemma QuotientIs(y: nat, k: nat, q: nat, r: nat)
    requires k > 0 && y == q * k + r && r < k
    ensures y / k == q
  {
    var p, s := y / k, y % k;
    assert y == p * k + s;
    if p < q {
      Larger(p, q, k);
    } else if q < p {
      Larger(q, p, k);
    }
  }

  lemma Larger(a: nat, b: nat, k: nat)
    requires a < b
    ensures a * k + k <= b * k
  {
    assert b * k - a * k == (b - a) * k;
    assert (b - a) * k >= 1 * k by {
      AtLeastOnce(b - a, k);
    }
  }

  lemma AtLeastOnce(m: nat, k: nat)
    requires m >= 1
    ensures m * k >= k
  {
  }

  lemma {:induction false} RangesTile(n: nat, c: nat)
    requires c <= ChunkCount(n)
    ensures Tiles(RangesUpTo(n, c), 0, Bound(n, c))
    ensures n > 0 ==> |RangesUpTo(n, c)| == c
  {
    if c > 0 {
      RangesTile(n, c - 1);
      var ranges := RangesUpTo(n, c);
      if n > 0 {
        DivideStep(c - 1, n, ChunkCount(n));
        assert ranges[..|ranges| - 1] == RangesUpTo(n, c - 1);
      } else {
        assert c * n == 0 && (c - 1) * n == 0;
      }
    } else {
      assert 0 * n == 0;
    }
  }

  lemma LastBound(n: nat)
    ensures Bound(n, ChunkCount(n)) == n
  {
    var k := ChunkCount(n);
    assert k * n == n * k + 0;
    QuotientIs(k * n, k, n, 0);
  }

  lemma {:induction false} TilesInside(ranges: seq<(nat, nat)>, from: nat, to: nat)
    requires Tiles(ranges, from, to)
    ensures from <= to && forall c :: 0 <= c < |ranges| ==> from <= ranges[c].0 < ranges[c].1 <= to
  {
    if ranges == [] {
    } else {
      TilesInside(ranges[..|ranges| - 1], from, ranges[|ranges| - 1].0);
    }
  }

  /** The chunks tile all rows; with any rows at all there are exactly min(64, n). */
  lemma ChunksTile(n: nat)
    ensures Tiles(Ranges(n), 0, n)
    ensures |Ranges(n)| == if n == 0 then 0 else ChunkCount(n)
  {
    RangesTile(n, ChunkCount(n));
    LastBound(n);
    if n == 0 {
      assert Bound(0, 0) == 0 && Bound(0, 1) == 0;
      assert RangesUpTo(0, 1) == RangesUpTo(0, 0);
    }
  }

  /** The bounds of the chunks, written out. */
  lemma {:induction false} RangeAt(n: nat, c: nat, upTo: nat)
    requires n > 0 && c < upTo <= ChunkCount(n)
    ensures |RangesUpTo(n, upTo)| == upTo
    ensures var k := if n < 64 then n else 64;
      RangesUpTo(n, upTo)[c] == (c * n / k, (c + 1) * n / k)
  {
    RangesTile(n, upTo);
    RangesTile(n, upTo - 1);
    DivideStep(upTo - 1, n, ChunkCount(n));
    if c == upTo - 1 {
    } else {
      RangeAt(n, c, upTo - 1);
    }
  }

  /** No chunk is more than one row larger than the average. */
  lemma ChunksBalanced(n: nat, c: nat)
    requires n > 0 && c < ChunkCount(n)
    ensures 1 <= Bound(n, c + 1) - Bound(n, c) <= n / ChunkCount(n) + 1
  {
    DivideStep(c, n, ChunkCount(n));
  }

  // -- matrices -----------------------------------------------------------------------------

  datatype Arith<!T> = Arith(zero: T, add: (T, T) -> T, mul: (T, T) -> T)

  /** A row-major `n` by `d` matrix. */
  datatype Matrix<T> = Matrix(data: seq<T>, n: nat, d: nat)

  predicate Shaped<T>(m: Matrix<T>, v: seq<T>, transpose: bool) {
    |m.data| == m.n * m.d && |v| == if transpose then m.n else m.d
  }

  lemma RowFits(n: nat, d: nat, i: nat)
    requires i < n
    ensures 0 <= i * d <= (i + 1) * d <= n * d
  {
    assert (i + 1) * d == i * d + d;
    RowsAbove(i + 1, n - i - 1, d);
  }

  lemma RowsAbove(a: nat, b: nat, d: nat)
    ensures 0 <= a * d <= (a + b) * d
  {
    assert (a + b) * d == a * d + b * d;
  }

  function Row<T>(m: Matrix<T>, i: nat): (row: seq<T>)
    requires |m.data| == m.n * m.d && i < m.n
    ensures |row| == m.d
  {
    RowFits(m.n, m.d, i);
    m.data[i * m.d..(i + 1) * m.d]
  }

  // -- sequential meaning --------------------------------------------------------------

  /** A left-to-right dot product of the first `j` entries. */
  function DotUpTo<T>(ar: Arith<T>, row: seq<T>, v: seq<T>, j: nat): T
    requires j <= |row| && j <= |v|
  {
    if j == 0 then ar.zero else ar.add(DotUpTo(ar, row, v, j - 1), ar.mul(row[j - 1], v[j - 1]))
  }

  function RowDots<T>(ar: Arith<T>, m: Matrix<T>, v: seq<T>, a: nat, b: nat): (out: seq<T>)
    requires Shaped(m, v, false) && a <= b <= m.n
    ensures |out| == b - a
  {
    if a == b then [] else RowDots(ar, m, v, a, b - 1) + [DotUpTo(ar, Row(m, b - 1), v, m.d)]
  }

  function Zeros<T>(ar: Arith<T>, d: nat): (out: seq<T>)
    ensures |out| == d
  {
    seq(d, _ => ar.zero)
  }

  function AddScaled<T>(ar: Arith<T>, out: seq<T>, row: seq<T>, scalar: T): (sum: seq<T>)
    requires |row| == |out|
    ensures |sum| == |out|
  {
    seq(|out|, j requires 0 <= j < |out| => ar.add(out[j], ar.mul(row[j], scalar)))
  }

  /** Rows `a..b` of the transposed product, added in ascending order. */
  function Accumulate<T>(ar: Arith<T>, m: Matrix<T>, v: seq<T>, a: nat, b: nat): (out: seq<T>)
    requires Shaped(m, v, true) && a <= b <= m.n
    ensures |out| == m.d
  {
    if a == b then Zeros(ar, m.d) else AddScaled(ar, Accumulate(ar, m, v, a, b - 1), Row(m, b - 1), v[b - 1])
  }

  function Partial<T>(ar: Arith<T>, m: Matrix<T>, v: seq<T>, transpose: bool, range: (nat, nat)): (out: seq<T>)
    requires Shaped(m, v, transpose) && range.0 <= range.1 <= m.n
    ensures |out| == if transpose then m.d else range.1 - range.0
  {
    if transpose then Accumulate(ar, m, v, range.0, range.1) else RowDots(ar, m, v, range.0, range.1)
  }

  method DotRow<T>(ar: Arith<T>, row: seq<T>, v: seq<T>) returns (sum: T)
    requires |row| == |v|
    ensures sum == DotUpTo(ar, row, v, |row|)
  {
    sum := ar.zero;
    for j := 0 to |row|
      invariant sum == DotUpTo(ar, row, v, j)
    {
      sum := ar.add(sum, ar.mul(row[j], v[j]));
    }
  }

  method AddRow<T>(ar: Arith<T>, out: array<T>, row: seq<T>, scalar: T)
    requires out.Length == |row|
    modifies out
    ensures out[..] == AddScaled(ar, old(out[..]), row, scalar)
  {
    for j := 0 to |row|
      invariant forall i :: 0 <= i < j ==> out[i] == ar.add(old(out[i]), ar.mul(row[i], scalar))
      invariant forall i :: j <= i < |row| ==> out[i] == old(out[i])
    {
      out[j] := ar.add(out[j], ar.mul(row[j], scalar));
    }
  }

  /** One chunk's work, as a thread does it; the whole range is the sequential product. */
  method ComputePartial<T>(ar: Arith<T>, m: Matrix<T>, v: seq<T>, transpose: bool, range: (nat, nat)) returns (partial: seq<T>)
    requires Shaped(m, v, transpose) && range.0 <= range.1 <= m.n
    ensures partial == Partial(ar, m, v, transpose, range)
  {
    if transpose {
      var out := new T[m.d](_ => ar.zero);
      assert out[..] == Zeros(ar, m.d);
      for i := range.0 to range.1
        invariant out[..] == Accumulate(ar, m, v, range.0, i)
      {
        AddRow(ar, out, Row(m, i), v[i]);
      }
      partial := out[..];
    } else {
      partial := [];
      for i := range.0 to range.1
        invariant partial == RowDots(ar, m, v, range.0, i)
      {
        var sum := DotRow(ar, Row(m, i), v);
        partial := partial + [sum];
      }
    }
  }

  method MatVecMul<T(!new)>(ar: Arith<T>, m: Matrix<T>, v: seq<T>, transpose: bool) returns (out: seq<T>)
    requires Shaped(m, v, transpose)
    ensures out == Partial(ar, m, v, transpose, (0, m.n))
    ensures |out| == if transpose then m.d else m.n
    ensures !transpose ==> forall i: nat :: i < m.n ==> IsSum(ar, m.d, (j: nat) => Term(ar, m, v, i, j, j), out[i])
    ensures transpose ==> forall j: nat :: j < m.d ==> IsSum(ar, m.n, (i: nat) => Term(ar, m, v, 0 + i, j, 0 + i), out[j])
  {
    hide IsSum, Term, Accumulate, RowDots;
    out := ComputePartial(ar, m, v, transpose, (0, m.n));
    if transpose {
      forall j: nat | j < m.d
        ensures IsSum(ar, m.n, (i: nat) => Term(ar, m, v, 0 + i, j, 0 + i), out[j])
      {
        ColumnProduct(ar, m, v, 0, m.n, j);
      }
    } else {
      forall i: nat | i < m.n
        ensures IsSum(ar, m.d, (j: nat) => Term(ar, m, v, i, j, j), out[i])
      {
        RowProduct(ar, m, v, i);
      }
    }
  }

  // -- the products, written out -----------------------------------------------------------

  /** `total` is what adding `term(0)`, `term(1)`, ... `term(n - 1)` to zero, one after the
      other, comes to. */
  ghost predicate IsSum<T(!new)>(ar: Arith<T>, n: nat, term: nat -> T, total: T) {
    exists sums: seq<T> :: RunningSums(ar, n, term, sums) && sums[n] == total
  }

  ghost predicate RunningSums<T>(ar: Arith<T>, n: nat, term: nat -> T, sums: seq<T>) {
    |sums| == n + 1 && sums[0] == ar.zero && forall j :: 0 <= j < n ==> sums[j + 1] == ar.add(sums[j], term(j))
  }

  /** Entry (i, j) of the row-major matrix times a factor. */
  function Term<T>(ar: Arith<T>, m: Matrix<T>, v: seq<T>, i: nat, j: nat, factor: nat): T {
    if i * m.d + j < |m.data| && factor < |v| then ar.mul(m.data[i * m.d + j], v[factor]) else ar.zero
  }

  lemma RowAt<T>(m: Matrix<T>, i: nat, j: nat)
    requires |m.data| == m.n * m.d && i < m.n && j < m.d
    ensures i * m.d + j < |m.data| && Row(m, i)[j] == m.data[i * m.d + j]
  {
    RowFits(m.n, m.d, i);
    assert (i + 1) * m.d == i * m.d + m.d;
  }

  lemma {:induction false} DotIsSum<T(!new)>(ar: Arith<T>, row: seq<T>, v: seq<T>, n: nat, term: nat -> T)
    requires n <= |row| && n <= |v| && forall j: nat :: j < n ==> term(j) == ar.mul(row[j], v[j])
    ensures IsSum(ar, n, term, DotUpTo(ar, row, v, n))
  {
    if n == 0 {
      assert RunningSums(ar, 0, term, [ar.zero]);
    } else {
      DotIsSum(ar, row, v, n - 1, term);
      ExtendSum(ar, n - 1, term, DotUpTo(ar, row, v, n - 1));
    }
  }

  lemma ExtendSum<T(!new)>(ar: Arith<T>, n: nat, term: nat -> T, total: T)
    requires IsSum(ar, n, term, total)
    ensures IsSum(ar, n + 1, term, ar.add(total, term(n)))
  {
    var sums :| RunningSums(ar, n, term, sums) && sums[n] == total;
    var more := sums + [ar.add(total, term(n))];
    assert RunningSums(ar, n + 1, term, more);
  }

  lemma {:induction false} RowDotsAt<T>(ar: Arith<T>, m: Matrix<T>, v: seq<T>, a: nat, b: nat, i: nat)
    requires Shaped(m, v, false) && a <= i < b <= m.n
    ensures RowDots(ar, m, v, a, b)[i - a] == DotUpTo(ar, Row(m, i), v, m.d)
  {
    if i == b - 1 {
    } else {
      RowDotsAt(ar, m, v, a, b - 1, i);
    }
  }

  lemma {:induction false} AccumulateIsSum<T(!new)>(ar: Arith<T>, m: Matrix<T>, v: seq<T>, a: nat, b: nat, j: nat, term: nat -> T)
    requires Shaped(m, v, true) && a <= b <= m.n && j < m.d
    requires forall i: nat :: a <= i < b ==> term(i - a) == ar.mul(Row(m, i)[j], v[i])
    ensures IsSum(ar, b - a, term, Accumulate(ar, m, v, a, b)[j])
  {
    if a == b {
      assert RunningSums(ar, 0, term, [ar.zero]);
    } else {
      AccumulateIsSum(ar, m, v, a, b - 1, j, term);
      ExtendSum(ar, b - 1 - a, term, Accumulate(ar, m, v, a, b - 1)[j]);
    }
  }

  lemma TermIs<T>(ar: Arith<T>, m: Matrix<T>, v: seq<T>, i: nat, j: nat, factor: nat)
    requires |m.data| == m.n * m.d && i < m.n && j < m.d && factor < |v|
    ensures Term(ar, m, v, i, j, factor) == ar.mul(Row(m, i)[j], v[factor])
  {
    RowAt(m, i, j);
    hide Row;
  }

  /** Entry `i` of the product adds the terms `data[i * d + j] * v[j]`, j ascending. */
  lemma RowProduct<T(!new)>(ar: Arith<T>, m: Matrix<T>, v: seq<T>, i: nat)
    requires Shaped(m, v, false) && i < m.n
    ensures IsSum(ar, m.d, (j: nat) => Term(ar, m, v, i, j, j), RowDots(ar, m, v, 0, m.n)[i])
  {
    hide IsSum, Term, Row, DotUpTo, RowDots;
    var term := (j: nat) => Term(ar, m, v, i, j, j);
    forall j: nat | j < m.d
      ensures term(j) == ar.mul(Row(m, i)[j], v[j])
    {
      TermIs(ar, m, v, i, j, j);
    }
    DotIsSum(ar, Row(m, i), v, m.d, term);
    RowDotsAt(ar, m, v, 0, m.n, i);
  }

  /** Entry `j` of rows `a..b` of the transposed product adds the terms
      `data[i * d + j] * v[i]`, i ascending from `a`. */
  lemma ColumnProduct<T(!new)>(ar: Arith<T>, m: Matrix<T>, v: seq<T>, a: nat, b: nat, j: nat)
    requires Shaped(m, v, true) && a <= b <= m.n && j < m.d
    ensures IsSum(ar, b - a, (i: nat) => Term(ar, m, v, a + i, j, a + i), Accumulate(ar, m, v, a, b)[j])
  {
    hide IsSum, Term, Row, Accumulate;
    var term := (i: nat) => Term(ar, m, v, a + i, j, a + i);
    forall i: nat | a <= i < b
      ensures term(i - a) == ar.mul(Row(m, i)[j], v[i])
    {
      TermIs(ar, m, v, i, j, i);
      assert a + (i - a) == i;
    }
    AccumulateIsSum(ar, m, v, a, b, j, term);
  }

  // -- the racing threads -----------------------------------------------------------------

  datatype Thread = Idle | Working(chunk: nat) | Done

  /** `log` lists the slot writes in the order they happened. */
  datatype State<T> = State(cursor: nat, threads: seq<Thread>, slots: seq<seq<T>>, log: seq<nat>)

  function Start<T>(threads: nat, chunks: nat): State<T> {
    State(0, seq(if threads == 0 then 1 else threads, _ => Idle), seq(chunks, _ => []), [])
  }

  /** One atomic step of thread `t`: claim the next chunk, or publish the claimed one. */
  function Step<T>(partials: seq<seq<T>>, s: State<T>, t: nat): State<T> {
    if t >= |s.threads| then s
    else
      match s.threads[t]
      case Done => s
      case Idle =>
        var next := if s.cursor >= |partials| then Done else Working(s.cursor);
        s.(cursor := s.cursor + 1, threads := s.threads[t := next])
      case Working(c) =>
        if c < |partials| && c < |s.slots| then
          s.(threads := s.threads[t := Idle], slots := s.slots[c := partials[c]], log := s.log + [c])
        else s
  }

  function Run<T>(partials: seq<seq<T>>, s: State<T>, schedule: seq<nat>): State<T> {
    if schedule == [] then s
    else Step(partials, Run(partials, s, schedule[..|schedule| - 1]), schedule[|schedule| - 1])
  }

  predicate AllDone<T>(s: State<T>) {
    forall t :: 0 <= t < |s.threads| ==> s.threads[t] == Done
  }

  function Clipped(cursor: nat, chunks: nat): nat {
    if cursor < chunks then cursor else chunks
  }

  /** Every chunk below the cursor is either in the hands of exactly one thread or written
      exactly once; nothing else is claimed or written. */
  ghost predicate Inv<T>(partials: seq<seq<T>>, s: State<T>) {
    && |s.slots| == |partials|
    && (forall t, u :: 0 <= t < u < |s.threads| && s.threads[t].Working? ==> s.threads[t] != s.threads[u])
    && (forall t :: 0 <= t < |s.threads| && s.threads[t].Working? ==>
          s.threads[t].chunk < Clipped(s.cursor, |partials|) && s.threads[t].chunk !in s.log)
    && (forall i, j :: 0 <= i < j < |s.log| ==> s.log[i] != s.log[j])
    && (forall c :: c in s.log ==> c < Clipped(s.cursor, |partials|) && s.slots[c] == partials[c])
    && (forall c: nat :: c < Clipped(s.cursor, |partials|) ==> c in s.log || Working(c) in s.threads)
    && (forall t :: 0 <= t < |s.threads| && s.threads[t].Done? ==> s.cursor >= |partials|)
  }

  lemma ClaimKeepsInv<T>(partials: seq<seq<T>>, s: State<T>, t: nat)
    requires Inv(partials, s) && t < |s.threads| && s.threads[t].Idle?
    ensures Inv(partials, Step(partials, s, t))
  {
    var r := Step(partials, s, t);
    forall c: nat | c < Clipped(r.cursor, |partials|)
      ensures c in r.log || Working(c) in r.threads
    {
      if c == s.cursor {
        assert r.threads[t] == Working(c);
      } else if c !in s.log {
        var u :| 0 <= u < |s.threads| && s.threads[u] == Working(c);
        assert r.threads[u] == Working(c);
      }
    }
  }

  lemma WriteKeepsInv<T>(partials: seq<seq<T>>, s: State<T>, t: nat)
    requires Inv(partials, s) && t < |s.threads| && s.threads[t].Working?
    ensures Inv(partials, Step(partials, s, t))
  {
    var r := Step(partials, s, t);
    forall c: nat | c < Clipped(r.cursor, |partials|)
      ensures c in r.log || Working(c) in r.threads
    {
      if c == s.threads[t].chunk {
        assert r.log[|s.log|] == c;
      } else if c !in s.log {
        var u :| 0 <= u < |s.threads| && s.threads[u] == Working(c);
        assert r.threads[u] == Working(c);
      }
    }
  }

  lemma {:induction false} RunKeepsInv<T>(partials: seq<seq<T>>, threads: nat, schedule: seq<nat>)
    ensures Inv(partials, Run(partials, Start(threads, |partials|), schedule))
    ensures |Run(partials, Start(threads, |partials|), schedule).threads| == if threads == 0 then 1 else threads
  {
    if schedule == [] {
    } else {
      var before, t := schedule[..|schedule| - 1], schedule[|schedule| - 1];
      RunKeepsInv(partials, threads, before);
      var s := Run(partials, Start(threads, |partials|), before);
      if t < |s.threads| && s.threads[t].Idle? {
        ClaimKeepsInv(partials, s, t);
      } else if t < |s.threads| && s.threads[t].Working? {
        WriteKeepsInv(partials, s, t);
      }
    }
  }

  /** Any number of threads, any interleaving: once all threads are done, every chunk has
      been computed exactly once and the slots hold exactly the partials. */
  lemma EveryScheduleFillsSlots<T>(partials: seq<seq<T>>, threads: nat, schedule: seq<nat>)
    requires AllDone(Run(partials, Start(threads, |partials|), schedule))
    ensures var s := Run(partials, Start(threads, |partials|), schedule);
      && s.slots == partials
      && (forall c: nat :: c in s.log <==> c < |partials|)
      && (forall i, j :: 0 <= i < j < |s.log| ==> s.log[i] != s.log[j])
  {
    var s := Run(partials, Start(threads, |partials|), schedule);
    RunKeepsInv(partials, threads, schedule);
    assert s.threads[0].Done?;
    forall c: nat | c < |partials|
      ensures c in s.log
    {
    }
  }

  // -- the number of steps ---------------------------------------------------------------

  function Remaining(threads: seq<Thread>): nat {
    if threads == [] then 0
    else
      Remaining(threads[..|threads| - 1]) +
      match threads[|threads| - 1] { case Idle => 1 case Working(_) => 2 case Done => 0 }
  }

  function StepsLeft<T>(partials: seq<seq<T>>, s: State<T>): nat {
    Remaining(s.threads) + 2 * (|partials| - Clipped(s.cursor, |partials|))
  }

  lemma {:induction false} RemainingUpdate(threads: seq<Thread>, t: nat, x: Thread)
    requires t < |threads|
    ensures Remaining(threads[t := x]) + Remaining([threads[t]]) == Remaining(threads) + Remaining([x])
  {
    var front := threads[..|threads| - 1];
    if t < |front| {
      RemainingUpdate(front, t, x);
      assert threads[t := x][..|threads| - 1] == front[t := x];
    } else {
      assert threads[t := x][..|threads| - 1] == front;
    }
    assert [x][..0] == [] && [threads[t]][..0] == [];
  }

  /** Each step of a thread that is not done uses up exactly one unit of work. */
  lemma StepsCountDown<T>(partials: seq<seq<T>>, s: State<T>, t: nat)
    requires Inv(partials, s) && t < |s.threads| && !s.threads[t].Done?
    ensures StepsLeft(partials, Step(partials, s, t)) == StepsLeft(partials, s) - 1
  {
    var r := Step(partials, s, t);
    RemainingUpdate(s.threads, t, r.threads[t]);
    assert [s.threads[t]][..0] == [] && [r.threads[t]][..0] == [];
  }

  /** The steps a whole run takes. */
  function RunLength(threads: nat, chunks: nat): nat {
    (if threads == 0 then 1 else threads) + 2 * chunks
  }

  lemma {:induction false} StepsAtStart<T>(partials: seq<seq<T>>, threads: nat)
    ensures StepsLeft(partials, Start(threads, |partials|)) == RunLength(threads, |partials|)
  {
    IdleRemaining(if threads == 0 then 1 else threads);
  }

  lemma {:induction false} IdleRemaining(n: nat)
    ensures Remaining(seq(n, _ => Idle)) == n
  {
    if n == 0 {
    } else {
      assert seq(n, _ => Idle)[..n - 1] == seq(n - 1, _ => Idle);
      IdleRemaining(n - 1);
    }
  }

  lemma {:induction false} NoStepsLeftMeansDone<T>(partials: seq<seq<T>>, s: State<T>)
    requires Inv(partials, s) && s.threads != []
    ensures StepsLeft(partials, s) == 0 <==> AllDone(s)
  {
    RemainingZero(s.threads);
    if AllDone(s) {
      assert s.threads[0].Done?;
    }
  }

  lemma {:induction false} RemainingZero(threads: seq<Thread>)
    ensures Remaining(threads) == 0 <==> forall t :: 0 <= t < |threads| ==> threads[t] == Done
  {
    if threads == [] {
    } else {
      RemainingZero(threads[..|threads| - 1]);
    }
  }

  /** Every turn of the schedule is one of a thread that is still running. */
  ghost predicate NoIdleTurns<T>(partials: seq<seq<T>>, threads: nat, schedule: seq<nat>) {
    forall i :: 0 <= i < |schedule| ==> Runs(Run(partials, Start(threads, |partials|), schedule[..i]), schedule[i])
  }

  predicate Runs<T>(s: State<T>, t: nat) {
    t < |s.threads| && !s.threads[t].Done?
  }

  lemma {:induction false} StepsTaken<T>(partials: seq<seq<T>>, threads: nat, schedule: seq<nat>)
    requires NoIdleTurns(partials, threads, schedule)
    ensures |schedule| + StepsLeft(partials, Run(partials, Start(threads, |partials|), schedule)) == RunLength(threads, |partials|)
  {
    hide StepsLeft, Inv, Step, Start;
    if schedule == [] {
      StepsAtStart(partials, threads);
    } else {
      var before, t := schedule[..|schedule| - 1], schedule[|schedule| - 1];
      forall i | 0 <= i < |before|
        ensures Runs(Run(partials, Start(threads, |partials|), before[..i]), before[i])
      {
        assert before[..i] == schedule[..i];
      }
      StepsTaken(partials, threads, before);
      RunKeepsInv(partials, threads, before);
      StepsCountDown(partials, Run(partials, Start(threads, |partials|), before), t);
    }
  }

  /** A run in which only running threads take turns cannot go on for more than
      `threads + 2 * chunks` steps; then, and not before, every thread is done. */
  lemma WholeRun<T>(partials: seq<seq<T>>, threads: nat, schedule: seq<nat>)
    requires NoIdleTurns(partials, threads, schedule)
    ensures |schedule| <= RunLength(threads, |partials|)
    ensures AllDone(Run(partials, Start(threads, |partials|), schedule)) <==> |schedule| == RunLength(threads, |partials|)
  {
    StepsTaken(partials, threads, schedule);
    RunKeepsInv(partials, threads, schedule);
    NoStepsLeftMeansDone(partials, Run(partials, Start(threads, |partials|), schedule));
  }

  /** And every such run can be carried on to its end. */
  lemma {:induction false} RunsToTheEnd<T>(partials: seq<seq<T>>, threads: nat, schedule: seq<nat>)
    requires NoIdleTurns(partials, threads, schedule)
    ensures exists whole ::
      && schedule <= whole && NoIdleTurns(partials, threads, whole)
      && AllDone(Run(partials, Start(threads, |partials|), whole))
    decreases RunLength(threads, |partials|) - |schedule|
  {
    hide NoIdleTurns, Run;
    WholeRun(partials, threads, schedule);
    var s := Run(partials, Start(threads, |partials|), schedule);
    if AllDone(s) {
      assert schedule <= schedule;
    } else {
      var t: nat :| t < |s.threads| && s.threads[t] != Done;
      OneMoreTurn(partials, threads, schedule, t);
      WholeRun(partials, threads, schedule + [t]);
      RunsToTheEnd(partials, threads, schedule + [t]);
    }
  }

  lemma OneMoreTurn<T>(partials: seq<seq<T>>, threads: nat, schedule: seq<nat>, t: nat)
    requires NoIdleTurns(partials, threads, schedule) && Runs(Run(partials, Start(threads, |partials|), schedule), t)
    ensures NoIdleTurns(partials, threads, schedule + [t])
  {
    hide Run, Start, Runs;
    var longer := schedule + [t];
    forall i | 0 <= i < |longer|
      ensures Runs(Run(partials, Start(threads, |partials|), longer[..i]), longer[i])
    {
      assert longer[..i] == if i < |schedule| then schedule[..i] else schedule;
    }
  }

  // -- combining the slots ----------------------------------------------------------------

  function PartialsOf<T>(ar: Arith<T>, m: Matrix<T>, v: seq<T>, transpose: bool, ranges: seq<(nat, nat)>): (partials: seq<seq<T>>)
    requires Shaped(m, v, transpose) && forall c :: 0 <= c < |ranges| ==> ranges[c].0 <= ranges[c].1 <= m.n
  {
    seq(|ranges|, c requires 0 <= c < |ranges| => Partial(ar, m, v, transpose, ranges[c]))
  }

  function Partials<T>(ar: Arith<T>, m: Matrix<T>, v: seq<T>, transpose: bool): (partials: seq<seq<T>>)
    requires Shaped(m, v, transpose)
  {
    PartialsOf(ar, m, v, transpose, Ranges(m.n))
  }

  function AddVec<T>(ar: Arith<T>, out: seq<T>, p: seq<T>): (sum: seq<T>)
    ensures |sum| == |out|
  {
    seq(|out|, j requires 0 <= j < |out| => if j < |p| then ar.add(out[j], p[j]) else out[j])
  }

  /** Partials added in ascending chunk order. */
  function Folded<T>(ar: Arith<T>, d: nat, slots: seq<seq<T>>): (out: seq<T>)
    ensures |out| == d
  {
    if slots == [] then Zeros(ar, d) else AddVec(ar, Folded(ar, d, slots[..|slots| - 1]), slots[|slots| - 1])
  }

  function Stitched<T>(slots: seq<seq<T>>): seq<T> {
    if slots == [] then [] else Stitched(slots[..|slots| - 1]) + slots[|slots| - 1]
  }

  /** The one value every schedule must give: no thread count, no order of events. */
  function ParallelValue<T>(ar: Arith<T>, m: Matrix<T>, v: seq<T>, transpose: bool): (out: seq<T>)
    requires Shaped(m, v, transpose)
    ensures transpose ==> |out| == m.d
  {
    var partials := Partials(ar, m, v, transpose);
    if transpose then Folded(ar, m.d, partials) else Stitched(partials)
  }

  method Combine<T>(ar: Arith<T>, d: nat, slots: seq<seq<T>>, transpose: bool) returns (out: seq<T>)
    ensures out == if transpose then Folded(ar, d, slots) else Stitched(slots)
  {
    out := if transpose then Zeros(ar, d) else [];
    for c := 0 to |slots|
      invariant out == if transpose then Folded(ar, d, slots[..c]) else Stitched(slots[..c])
    {
      assert slots[..c + 1][..c] == slots[..c];
      out := if transpose then AddVec(ar, out, slots[c]) else out + slots[c];
    }
    assert slots[..|slots|] == slots;
  }

  method ThreadStep<T>(ar: Arith<T>, m: Matrix<T>, v: seq<T>, transpose: bool, s: State<T>, t: nat) returns (r: State<T>)
    requires Shaped(m, v, transpose)
    ensures r == Step(Partials(ar, m, v, transpose), s, t)
  {
    var ranges := Ranges(m.n);
    if t >= |s.threads| || s.threads[t].Done? {
      return s;
    }
    if s.threads[t].Idle? {
      var next := if s.cursor >= |ranges| then Done else Working(s.cursor);
      return s.(cursor := s.cursor + 1, threads := s.threads[t := next]);
    }
    var c := s.threads[t].chunk;
    if c >= |ranges| || c >= |s.slots| {
      return s;
    }
    var partial := ComputePartial(ar, m, v, transpose, ranges[c]);
    r := s.(threads := s.threads[t := Idle], slots := s.slots[c := partial], log := s.log + [c]);
  }

  // -- the parallel products, written out ----------------------------------------------------

  lemma {:induction false} FoldedIsSum<T(!new)>(ar: Arith<T>, d: nat, slots: seq<seq<T>>, j: nat, n: nat, term: nat -> T)
    requires j < d && n <= |slots| && forall c: nat :: c < n ==> j < |slots[c]| && term(c) == slots[c][j]
    ensures IsSum(ar, n, term, Folded(ar, d, slots[..n])[j])
  {
    if n == 0 {
      assert RunningSums(ar, 0, term, [ar.zero]);
    } else {
      FoldedIsSum(ar, d, slots, j, n - 1, term);
      assert slots[..n][..n - 1] == slots[..n - 1];
      ExtendSum(ar, n - 1, term, Folded(ar, d, slots[..n - 1])[j]);
    }
  }

  /** Part `c` adds the terms of rows `c * n / k` up to `(c + 1) * n / k` in column `j`. */
  ghost predicate IsPart<T(!new)>(ar: Arith<T>, m: Matrix<T>, v: seq<T>, j: nat, k: nat, c: nat, part: T)
    requires k > 0
  {
    var a, b := c * m.n / k, (c + 1) * m.n / k;
    a <= b && IsSum(ar, b - a, (i: nat) => Term(ar, m, v, a + i, j, a + i), part)
  }

  /** Entry `j` of the transposed parallel product adds min(64, n) parts in ascending order,
      each the sum of its own rows. */
  ghost predicate IsSumOfParts<T(!new)>(ar: Arith<T>, m: Matrix<T>, v: seq<T>, j: nat, total: T) {
    var k := if m.n < 64 then m.n else 64;
    exists parts: seq<T> ::
      && |parts| == k && IsSum(ar, k, (c: nat) => if c < |parts| then parts[c] else ar.zero, total)
      && (k > 0 ==> forall c: nat :: c < k ==> IsPart(ar, m, v, j, k, c, parts[c]))
  }

  lemma ParallelColumn<T(!new)>(ar: Arith<T>, m: Matrix<T>, v: seq<T>, j: nat)
    requires Shaped(m, v, true) && j < m.d
    ensures IsSumOfParts(ar, m, v, j, ParallelValue(ar, m, v, true)[j])
  {
    hide IsSum, Term, Accumulate, Ranges, Folded;
    var k, slots := if m.n < 64 then m.n else 64, Partials(ar, m, v, true);
    ChunksTile(m.n);
    assert |slots| == k;
    var parts := seq(k, c requires 0 <= c < k => slots[c][j]);
    var term := (c: nat) => if c < |parts| then parts[c] else ar.zero;
    FoldedIsSum(ar, m.d, slots, j, k, term);
    assert slots[..k] == slots;
    forall c: nat | k > 0 && c < k
      ensures IsPart(ar, m, v, j, k, c, parts[c])
    {
      PartOfChunk(ar, m, v, j, c);
    }
  }

  lemma PartOfChunk<T(!new)>(ar: Arith<T>, m: Matrix<T>, v: seq<T>, j: nat, c: nat)
    requires Shaped(m, v, true) && j < m.d && c < (if m.n < 64 then m.n else 64)
    ensures |Partials(ar, m, v, true)| == |Ranges(m.n)| == if m.n < 64 then m.n else 64
    ensures IsPart(ar, m, v, j, if m.n < 64 then m.n else 64, c, Partials(ar, m, v, true)[c][j])
  {
    hide IsSum, Term, Accumulate;
    ChunksTile(m.n);
    RangeAt(m.n, c, ChunkCount(m.n));
    var range := Ranges(m.n)[c];
    ColumnProduct(ar, m, v, range.0, range.1, j);
  }

  lemma ParallelWritten<T(!new)>(ar: Arith<T>, m: Matrix<T>, v: seq<T>, transpose: bool)
    requires Shaped(m, v, transpose)
    ensures |ParallelValue(ar, m, v, transpose)| == if transpose then m.d else m.n
    ensures !transpose ==> forall i: nat :: i < m.n ==>
      IsSum(ar, m.d, (j: nat) => Term(ar, m, v, i, j, j), ParallelValue(ar, m, v, false)[i])
    ensures transpose ==> forall j: nat :: j < m.d ==> IsSumOfParts(ar, m, v, j, ParallelValue(ar, m, v, true)[j])
  {
    hide IsSum, IsSumOfParts, Term, RowDots, Partials;
    if transpose {
      forall j: nat | j < m.d
        ensures IsSumOfParts(ar, m, v, j, ParallelValue(ar, m, v, true)[j])
      {
        ParallelColumn(ar, m, v, j);
      }
    } else {
      RowsMatchSequential(ar, m, v);
      forall i: nat | i < m.n
        ensures IsSum(ar, m.d, (j: nat) => Term(ar, m, v, i, j, j), ParallelValue(ar, m, v, false)[i])
      {
        RowProduct(ar, m, v, i);
      }
    }
  }

  /** Runs the threads under a given interleaving and combines the slots after the join.
      Whatever the number of threads and the interleaving, the result is the same. */
  method MatVecMulParallel<T(!new)>(ar: Arith<T>, m: Matrix<T>, v: seq<T>, transpose: bool, threads: nat, schedule: seq<nat>)
    returns (out: Option<seq<T>>)
    requires Shaped(m, v, transpose)
    ensures out.Some? <==>
      AllDone(Run(Partials(ar, m, v, transpose), Start(threads, |Ranges(m.n)|), schedule))
    ensures out.Some? ==> out.value == ParallelValue(ar, m, v, transpose)
    ensures out.Some? ==> |out.value| == if transpose then m.d else m.n
    ensures out.Some? && !transpose ==> forall i: nat :: i < m.n ==> IsSum(ar, m.d, (j: nat) => Term(ar, m, v, i, j, j), out.value[i])
    ensures out.Some? && transpose ==> forall j: nat :: j < m.d ==> IsSumOfParts(ar, m, v, j, out.value[j])
  {
    ParallelWritten(ar, m, v, transpose);
    ghost var partials := Partials(ar, m, v, transpose);
    var s: State<T> := Start(threads, |Ranges(m.n)|);
    for i := 0 to |schedule|
      invariant s == Run(partials, Start(threads, |Ranges(m.n)|), schedule[..i])
    {
      assert schedule[..i + 1][..i] == schedule[..i];
      s := ThreadStep(ar, m, v, transpose, s, schedule[i]);
    }
    assert schedule[..|schedule|] == schedule;
    if !AllDone(s) {
      return None;
    }
    EveryScheduleFillsSlots(partials, threads, schedule);
    var combined := Combine(ar, m.d, s.slots, transpose);
    out := Some(combined);
  }

  // -- against the sequential product ---------------------------------------------------------

  lemma {:induction false} RowDotsJoin<T>(ar: Arith<T>, m: Matrix<T>, v: seq<T>, a: nat, b: nat, c: nat)
    requires Shaped(m, v, false) && a <= b <= c <= m.n
    ensures RowDots(ar, m, v, a, b) + RowDots(ar, m, v, b, c) == RowDots(ar, m, v, a, c)
  {
    if b == c {
    } else {
      RowDotsJoin(ar, m, v, a, b, c - 1);
    }
  }

  lemma {:induction false} StitchedTiles<T>(ar: Arith<T>, m: Matrix<T>, v: seq<T>, ranges: seq<(nat, nat)>, to: nat)
    requires Shaped(m, v, false) && Tiles(ranges, 0, to) && to <= m.n
    requires forall c :: 0 <= c < |ranges| ==> ranges[c].0 <= ranges[c].1 <= m.n
    ensures Stitched(PartialsOf(ar, m, v, false, ranges)) == RowDots(ar, m, v, 0, to)
  {
    if ranges == [] {
    } else {
      var front, last := ranges[..|ranges| - 1], ranges[|ranges| - 1];
      StitchedTiles(ar, m, v, front, last.0);
      assert PartialsOf(ar, m, v, false, ranges)[..|front|] == PartialsOf(ar, m, v, false, front);
      TilesInside(front, 0, last.0);
      RowDotsJoin(ar, m, v, 0, last.0, to);
    }
  }

  /** Row outputs are stitched into exactly the sequential product. */
  lemma RowsMatchSequential<T>(ar: Arith<T>, m: Matrix<T>, v: seq<T>)
    requires Shaped(m, v, false)
    ensures ParallelValue(ar, m, v, false) == Partial(ar, m, v, false, (0, m.n))
  {
    ChunksTile(m.n);
    StitchedTiles(ar, m, v, Ranges(m.n), m.n);
  }

  ghost predicate Associates<T(!new)>(ar: Arith<T>) {
    && (forall x, y, z :: ar.add(ar.add(x, y), z) == ar.add(x, ar.add(y, z)))
    && (forall x :: ar.add(x, ar.zero) == x)
  }

  lemma {:induction false} AccumulateJoin<T(!new)>(ar: Arith<T>, m: Matrix<T>, v: seq<T>, a: nat, b: nat, c: nat)
    requires Shaped(m, v, true) && a <= b <= c <= m.n && Associates(ar)
    ensures AddVec(ar, Accumulate(ar, m, v, a, b), Accumulate(ar, m, v, b, c)) == Accumulate(ar, m, v, a, c)
  {
    if b == c {
    } else {
      AccumulateJoin(ar, m, v, a, b, c - 1);
    }
  }

  lemma {:induction false} FoldedTiles<T(!new)>(ar: Arith<T>, m: Matrix<T>, v: seq<T>, ranges: seq<(nat, nat)>, to: nat)
    requires Shaped(m, v, true) && Tiles(ranges, 0, to) && to <= m.n && Associates(ar)
    requires forall c :: 0 <= c < |ranges| ==> ranges[c].0 <= ranges[c].1 <= m.n
    ensures Folded(ar, m.d, PartialsOf(ar, m, v, true, ranges)) == Accumulate(ar, m, v, 0, to)
  {
    if ranges == [] {
    } else {
      var front, last := ranges[..|ranges| - 1], ranges[|ranges| - 1];
      FoldedTiles(ar, m, v, front, last.0);
      assert PartialsOf(ar, m, v, true, ranges)[..|front|] == PartialsOf(ar, m, v, true, front);
      TilesInside(front, 0, last.0);
      AccumulateJoin(ar, m, v, 0, last.0, to);
    }
  }

  /** The transposed product differs from the sequential one only by association: with an
      associative addition the two agree. */
  lemma ColumnsMatchUpToAssociation<T(!new)>(ar: Arith<T>, m: Matrix<T>, v: seq<T>)
    requires Shaped(m, v, true) && Associates(ar)
    ensures ParallelValue(ar, m, v, true) == Partial(ar, m, v, true, (0, m.n))
  {
    ChunksTile(m.n);
    FoldedTiles(ar, m, v, Ranges(m.n), m.n);
  }

  /** Without associativity they can differ, already for two rows. */
  lemma AssociationMatters()
    ensures var ar := Arith(0, (x: int, y: int) => x - y, (x: int, y: int) => x * y);
      var m := Matrix([1, 1], 2, 1);
      ParallelValue(ar, m, [1, 1], true) == [2] && Partial(ar, m, [1, 1], true, (0, 2)) == [-2]
  {
    var ar := Arith(0, (x: int, y: int) => x - y, (x: int, y: int) => x * y);
    var m, v := Matrix([1, 1], 2, 1), [1, 1];
    assert Ranges(2) == [(0, 1), (1, 2)] by {
      assert Bound(2, 0) == 0 && Bound(2, 1) == 1 && Bound(2, 2) == 2;
      assert RangesUpTo(2, 0) == [] && RangesUpTo(2, 1) == [(0, 1)];
    }
    assert Accumulate(ar, m, v, 0, 0) == [0] && Accumulate(ar, m, v, 1, 1) == [0];
    assert Accumulate(ar, m, v, 0, 1) == [-1];
    assert Accumulate(ar, m, v, 1, 2) == [-1];
    var partials: seq<seq<int>> := Partials(ar, m, v, true);
    assert partials == [[-1], [-1]];
    var first: seq<seq<int>> := partials[..1];
    assert first == [[-1]] && first[..0] == [];
    assert Folded(ar, 1, []) == [0];
    assert Folded(ar, 1, first) == [1];
  }
}
