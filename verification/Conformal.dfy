/** Split-conformal quantiles and risk-controlling selection. Reals stand for `f64`;
    a missing value stands for plus infinity. */
module Conformal {
  import opened Wrappers
  import opened ItemIds
  import opened Ranking
  import Sorting

  predicate AtMost(a: real, b: real) {
    a <= b
  }

  function Ceil(r: real): int {
    -((-r).Floor)
  }

  /** The 1-indexed rank the finite-sample correction asks for. */
  function QuantileRank(n: nat, alpha: real): int {
    Ceil(Share(n, alpha))
  }

  function Share(n: nat, alpha: real): real {
    (n + 1) as real * (1.0 - alpha)
  }

  function Quantile(scores: seq<real>, alpha: real): Option<real> {
    var n, k := |scores|, QuantileRank(|scores|, alpha);
    if n == 0 || !(1 <= k <= n) then None
    else
      Sorting.SortByMultiset(scores, AtMost);
      Some(Sorting.SortBy(scores, AtMost)[k - 1])
  }

  method ConformalQuantile(scores: seq<real>, alpha: real) returns (q: Option<real>)
    requires 0.0 < alpha < 1.0
    ensures q == Quantile(scores, alpha)
    ensures IsQuantile(scores, alpha, q)
  {
    QuantileMeans(scores, alpha);
    var n := |scores|;
    if n == 0 {
      return None;
    }
    var s := Sorting.SortBy(scores, AtMost);
    Sorting.SortByMultiset(scores, AtMost);
    hide QuantileRank;
    var k := QuantileRank(n, alpha);
    q := if 1 <= k <= n then Some(s[k - 1]) else None;
  }

  // -- counting ---------------------------------------------------------------------

  function Count(s: seq<real>, f: real -> bool): nat {
    if s == [] then 0 else Count(s[..|s| - 1], f) + (if f(s[|s| - 1]) then 1 else 0)
  }

  ghost function IdsWhere(s: seq<real>, f: real -> bool): set<nat> {
    set j: nat | j < |s| && f(KeyAt(s, j))
  }

  ghost function AtMostIds(s: seq<real>, v: real): set<nat> {
    set j: nat | j < |s| && KeyAt(s, j) <= v
  }

  ghost function BelowIds(s: seq<real>, v: real): set<nat> {
    set j: nat | j < |s| && KeyAt(s, j) < v
  }

  lemma {:induction false} CountIsSize(s: seq<real>, f: real -> bool)
    ensures Count(s, f) == |IdsWhere(s, f)|
  {
    if s == [] {
    } else {
      var front, n := s[..|s| - 1], |s| - 1;
      CountIsSize(front, f);
      assert forall j: nat :: j < n ==> KeyAt(front, j) == KeyAt(s, j);
      assert IdsWhere(s, f) == IdsWhere(front, f) + (if f(s[n]) then {n} else {});
    }
  }

  lemma {:induction false} CountAppend(s: seq<real>, t: seq<real>, f: real -> bool)
    ensures Count(s + t, f) == Count(s, f) + Count(t, f)
  {
    if t == [] {
      assert s + t == s;
    } else {
      assert (s + t)[..|s + t| - 1] == s + t[..|t| - 1];
      CountAppend(s, t[..|t| - 1], f);
    }
  }

  lemma {:induction false} CountPermuted(s: seq<real>, t: seq<real>, f: real -> bool)
    requires multiset(s) == multiset(t)
    ensures Count(s, f) == Count(t, f)
    decreases |s|
  {
    assert |s| == |multiset(s)| == |multiset(t)| == |t|;
    if s == [] {
    } else {
      var front, last := s[..|s| - 1], s[|s| - 1];
      assert s == front + [last];
      assert last in multiset(t);
      var j :| 0 <= j < |t| && t[j] == last;
      var lo, hi := t[..j], t[j + 1..];
      assert t == lo + [last] + hi;
      Sorting.RemoveOne(front, lo, last, hi);
      CountPermuted(front, lo + hi, f);
      CountAppend(lo, hi, f);
      CountAppend(lo + [last], hi, f);
      CountAppend(lo, [last], f);
      assert [last][..0] == [];
    }
  }

  /** At least `k` where the first `k` satisfy `f`, at most `k` where only they may. */
  lemma {:induction false} CountPrefix(s: seq<real>, k: nat, f: real -> bool)
    requires k <= |s|
    ensures (forall i :: 0 <= i < k ==> f(s[i])) ==> Count(s, f) >= k
    ensures (forall i :: k <= i < |s| ==> !f(s[i])) ==> Count(s, f) <= k
  {
    if s == [] {
    } else {
      CountPrefix(s[..|s| - 1], if k == |s| then k - 1 else k, f);
    }
  }

  /** The score of rank `k` is one of the scores, at least `k` are at or below it, and fewer
      than `k` below. */
  lemma SortedRank(scores: seq<real>, k: nat)
    requires 1 <= k <= |scores|
    ensures |Sorting.SortBy(scores, AtMost)| == |scores|
    ensures var v := Sorting.SortBy(scores, AtMost)[k - 1];
      v in scores && |AtMostIds(scores, v)| >= k && |BelowIds(scores, v)| < k
  {
    hide Sorting.SortBy, Count;
    var s := Sorting.SortBy(scores, AtMost);
    Sorting.SortByMultiset(scores, AtMost);
    Sorting.SortBySorted(scores, AtMost);
    var v := s[k - 1];
    Sorting.SortByElement(scores, AtMost, v);
    var atMost, below := (x: real) => x <= v, (x: real) => x < v;
    assert forall i :: 0 <= i < k ==> AtMost(s[i], v);
    assert forall i :: k - 1 <= i < |s| ==> AtMost(v, s[i]);
    CountPrefix(s, k, atMost);
    CountPrefix(s, k - 1, below);
    CountPermuted(s, scores, atMost);
    CountPermuted(s, scores, below);
    CountIsSize(scores, atMost);
    CountIsSize(scores, below);
    assert IdsWhere(scores, atMost) == AtMostIds(scores, v);
    assert IdsWhere(scores, below) == BelowIds(scores, v);
  }

  /** The quantile is a rank: at least `k` scores are at or below it. */
  lemma QuantileRankReached(scores: seq<real>, alpha: real)
    requires Quantile(scores, alpha).Some?
    ensures |AtMostIds(scores, Quantile(scores, alpha).value)| >= QuantileRank(|scores|, alpha)
  {
    hide QuantileRank;
    Sorting.SortByMultiset(scores, AtMost);
    hide Sorting.SortBy;
    SortedRank(scores, QuantileRank(|scores|, alpha));
  }

  lemma CeilMeans(x: real)
    ensures x <= Ceil(x) as real < x + 1.0
  {
  }

  lemma RankIsCeiling(n: nat, alpha: real)
    ensures (n + 1) as real * (1.0 - alpha) <= QuantileRank(n, alpha) as real < (n + 1) as real * (1.0 - alpha) + 1.0
  {
    hide Ceil;
    CeilMeans(Share(n, alpha));
  }

  /** What the quantile is: a score with at least (n + 1)(1 - alpha) scores at or below it and
      fewer than that many below it; none exactly when that is more than there are. */
  ghost predicate IsQuantile(scores: seq<real>, alpha: real, q: Option<real>) {
    && (q.None? <==> (|scores| + 1) as real * (1.0 - alpha) > |scores| as real)
    && (q.Some? ==>
          && q.value in scores
          && |set j: nat | j < |scores| && scores[j] <= q.value| as real >= (|scores| + 1) as real * (1.0 - alpha)
          && (|set j: nat | j < |scores| && scores[j] < q.value|) as real < (|scores| + 1) as real * (1.0 - alpha))
  }

  lemma QuantileMeans(scores: seq<real>, alpha: real)
    requires 0.0 < alpha < 1.0
    ensures IsQuantile(scores, alpha, Quantile(scores, alpha))
  {
    hide QuantileRank, Sorting.SortBy;
    var n, k := |scores|, QuantileRank(|scores|, alpha);
    RankIsCeiling(n, alpha);
    RankBounds(n, alpha);
    if n > 0 && k <= n {
      SortedRank(scores, k);
      var v := Quantile(scores, alpha).value;
      assert (set j: nat | j < |scores| && scores[j] <= v) == AtMostIds(scores, v);
      assert (set j: nat | j < |scores| && scores[j] < v) == BelowIds(scores, v);
    }
  }

  // -- leave-one-out coverage ----------------------------------------------------------

  function Without(s: seq<real>, i: nat): seq<real>
    requires i < |s|
  {
    s[..i] + s[i + 1..]
  }

  /** Score `i` is covered when the quantile of the others reaches it. */
  predicate Covered(s: seq<real>, alpha: real, i: nat)
    requires i < |s|
  {
    var q := Quantile(Without(s, i), alpha);
    q.None? || s[i] <= q.value
  }

  ghost function CoveredIds(s: seq<real>, alpha: real): set<nat> {
    set i: nat | 0 <= i < |s| && Covered(s, alpha, i)
  }

  /** A score counts as covered exactly when no quantile of the others is below it. */
  lemma CoveredMeans(s: seq<real>, alpha: real, i: nat, q: Option<real>)
    requires 0.0 < alpha < 1.0 && i < |s| && IsQuantile(s[..i] + s[i + 1..], alpha, q)
    ensures i in CoveredIds(s, alpha) <==> (q.Some? ==> s[i] <= q.value)
  {
    hide Quantile;
    var others := s[..i] + s[i + 1..];
    QuantileMeans(others, alpha);
    QuantileUnique(others, alpha, q, Quantile(others, alpha));
  }

  lemma QuantileUnique(s: seq<real>, alpha: real, p: Option<real>, q: Option<real>)
    requires IsQuantile(s, alpha, p) && IsQuantile(s, alpha, q)
    ensures p == q
  {
    if p.Some? {
      if p.value < q.value {
        QuantilesCross(s, alpha, p.value, q.value);
      } else if q.value < p.value {
        QuantilesCross(s, alpha, q.value, p.value);
      }
    }
  }

  lemma QuantilesCross(s: seq<real>, alpha: real, low: real, high: real)
    requires IsQuantile(s, alpha, Some(low)) && IsQuantile(s, alpha, Some(high))
    ensures low >= high
  {
    if low < high {
      SubsetSize(set j: nat | j < |s| && s[j] <= low, set j: nat | j < |s| && s[j] < high);
    }
  }

  /** Positions of the other scores, seen in the full list. */
  lemma {:induction false} OthersBelow(s: seq<real>, i: nat, v: real)
    requires i < |s| && v < s[i]
    ensures |AtMostIds(Without(s, i), v)| <= |BelowIds(s, s[i])|
  {
    var w, atMost := Without(s, i), (x: real) => x <= v;
    CountIsSize(w, atMost);
    CountAppend(s[..i], s[i + 1..], atMost);
    assert s == s[..i] + [s[i]] + s[i + 1..];
    CountAppend(s[..i] + [s[i]], s[i + 1..], atMost);
    CountAppend(s[..i], [s[i]], atMost);
    assert [s[i]][..0] == [];
    CountIsSize(s, atMost);
    assert IdsWhere(w, atMost) == AtMostIds(w, v) && IdsWhere(s, atMost) == AtMostIds(s, v);
    assert AtMostIds(s, v) <= BelowIds(s, s[i]);
    SubsetSize(AtMostIds(s, v), BelowIds(s, s[i]));
  }

  lemma BelowIsAhead(s: seq<real>, i: nat)
    requires i < |s|
    ensures |BelowIds(s, s[i])| <= |Ahead(s, AllIds(|s|), i)|
  {
    assert BelowIds(s, s[i]) <= Ahead(s, AllIds(|s|), i);
    SubsetSize(BelowIds(s, s[i]), Ahead(s, AllIds(|s|), i));
  }

  /** A score among the `k` smallest is covered by the others' quantile of rank `k`. */
  lemma SmallIsCovered(s: seq<real>, alpha: real, i: nat)
    requires i < |s|
    requires i in Top(s, AllIds(|s|), if QuantileRank(|s| - 1, alpha) < 0 then 0 else QuantileRank(|s| - 1, alpha))
    ensures Covered(s, alpha, i)
  {
    hide Quantile, QuantileRank, AtMostIds;
    var w := Without(s, i);
    assert |w| == |s| - 1;
    hide Without;
    var q := Quantile(w, alpha);
    if q.Some? && q.value < s[i] {
      QuantileRankReached(w, alpha);
      OthersBelow(s, i, q.value);
      BelowIsAhead(s, i);
    }
  }

  lemma CeilBounds(x: real, m: nat)
    requires 0.0 < x < m as real
    ensures 1 <= Ceil(x) <= m
  {
    assert (-x).Floor <= -1;
    assert (-x).Floor as real > -x - 1.0;
  }

  lemma RankBounds(n: nat, alpha: real)
    requires 0.0 < alpha < 1.0
    ensures 1 <= QuantileRank(n, alpha) <= n + 1
  {
    FractionBounds((n + 1) as real, 1.0 - alpha);
    hide Ceil;
    CeilBounds(Share(n, alpha), n + 1);
  }

  lemma FractionBounds(m: real, f: real)
    requires m > 0.0 && 0.0 < f < 1.0
    ensures 0.0 < m * f < m
  {
    Product(m, f);
    Product(m, 1.0 - f);
    assert m * (1.0 - f) == m - m * f;
  }

  lemma Product(x: real, y: real)
    requires x > 0.0 && y > 0.0
    ensures x * y > 0.0
  {
  }

  /** Leave-one-out coverage: among any n + 1 scores, at least ceil((n + 1)(1 - alpha))
      lie within the conformal quantile of the other n. */
  lemma LeaveOneOutCoverage(s: seq<real>, alpha: real)
    requires s != [] && 0.0 < alpha < 1.0
    ensures |CoveredIds(s, alpha)| >= QuantileRank(|s| - 1, alpha)
  {
    var k := QuantileRank(|s| - 1, alpha);
    RankBounds(|s| - 1, alpha);
    AllIdsSize(|s|);
    TopSize(s, AllIds(|s|), k);
    forall i | i in Top(s, AllIds(|s|), k)
      ensures i in CoveredIds(s, alpha)
    {
      SmallIsCovered(s, alpha, i);
    }
    SubsetSize(Top(s, AllIds(|s|), k), CoveredIds(s, alpha));
  }

  lemma RankReachesShare(m: nat, alpha: real)
    requires m > 0
    ensures QuantileRank(m - 1, alpha) as real >= m as real * (1.0 - alpha)
  {
    hide Ceil;
    CeilMeans(Share(m - 1, alpha));
  }

  /** So at least the share 1 - alpha of any scores is covered by the quantile of the others. */
  lemma CoverageShare(s: seq<real>, alpha: real)
    requires s != [] && 0.0 < alpha < 1.0
    ensures |CoveredIds(s, alpha)| as real >= |s| as real * (1.0 - alpha)
  {
    hide QuantileRank, CoveredIds;
    LeaveOneOutCoverage(s, alpha);
    RankReachesShare(|s|, alpha);
  }

  // -- risk-controlling selection -------------------------------------------------------

  /** Mean plus the (non-negative) slack of the sample size; infinite without data. */
  function HoeffdingUcb(mean: real, n: nat, slack: real): Option<real> {
    if n == 0 then None else Some(mean + slack)
  }

  predicate Controls(risk: real, n: nat, slack: real, alpha: real) {
    var ucb := HoeffdingUcb(risk, n, slack);
    ucb.Some? && ucb.value <= alpha
  }

  /** The right-to-left scan: the smallest candidate that controls the risk together
      with every larger one. */
  method RcpsSelect(risks: seq<real>, n: nat, slack: real, alpha: real) returns (hat: Option<nat>)
    ensures hat.None? <==> (risks == [] || !Controls(risks[|risks| - 1], n, slack, alpha))
    ensures hat.Some? ==>
      && hat.value < |risks|
      && (forall j :: hat.value <= j < |risks| ==> Controls(risks[j], n, slack, alpha))
      && (hat.value > 0 ==> !Controls(risks[hat.value - 1], n, slack, alpha))
    ensures hat.None? <==> (risks == [] || n == 0 || risks[|risks| - 1] + slack > alpha)
    ensures hat.Some? ==> n > 0 && forall j :: hat.value <= j < |risks| ==> risks[j] + slack <= alpha
  {
    hat := None;
    var i := |risks|;
    while i > 0
      invariant 0 <= i <= |risks|
      invariant hat.None? <==> i == |risks|
      invariant hat.Some? ==> hat.value == i
      invariant forall j :: i <= j < |risks| ==> Controls(risks[j], n, slack, alpha)
    {
      i := i - 1;
      if Controls(risks[i], n, slack, alpha) {
        hat := Some(i);
      } else {
        break;
      }
    }
  }

  ghost predicate NonIncreasing(risks: seq<real>) {
    forall i, j :: 0 <= i <= j < |risks| ==> risks[j] <= risks[i]
  }

  /** On a non-increasing family the scan finds the smallest controlling candidate of all,
      and it finds one exactly when the largest candidate controls. */
  lemma SelectsSmallest(risks: seq<real>, n: nat, slack: real, alpha: real, hat: nat)
    requires NonIncreasing(risks) && hat < |risks|
    requires forall j :: hat <= j < |risks| ==> Controls(risks[j], n, slack, alpha)
    requires hat > 0 ==> !Controls(risks[hat - 1], n, slack, alpha)
    ensures forall j :: 0 <= j < |risks| ==> (Controls(risks[j], n, slack, alpha) <==> j >= hat)
  {
    forall j | 0 <= j < hat
      ensures !Controls(risks[j], n, slack, alpha)
    {
      assert risks[hat - 1] <= risks[j];
    }
  }
}
