/** The sketch index: parallel rows of normalised vectors, sign sketches and payloads. */
module SketchStore {
  import opened Bytes
  import opened Conformal
  import opened ItemIds
  import opened PrecisionTier
  import opened Ranking
  import opened Wrappers
  import Sorting
  import Vectors

  datatype ShortlistCertificate = ShortlistCertificate(
    shortlist: nat, k: nat, alpha: real, calibrationN: nat, empiricalRisk: real, riskUcb: real, grid: seq<nat>)

  datatype RadiusCertificate = RadiusCertificate(
    lambda: nat, k: nat, alpha: real, calibrationN: nat, empiricalRisk: real, riskUcb: real, grid: seq<nat>)

  function WithDim(qs: seq<seq<real>>, dim: nat): (valid: seq<seq<real>>)
    ensures forall j :: 0 <= j < |valid| ==> |valid[j]| == dim
    ensures valid == [] <==> forall j :: 0 <= j < |qs| ==> |qs[j]| != dim
  {
    if qs == [] then []
    else
      var front, last := WithDim(qs[..|qs| - 1], dim), qs[|qs| - 1];
      if |last| == dim then front + [last] else front
  }

  function InRange(ids: seq<nat>, n: nat): (kept: seq<nat>)
    ensures forall i :: i in kept <==> i in ids && i < n
  {
    if ids == [] then []
    else
      var front, last := InRange(ids[..|ids| - 1], n), ids[|ids| - 1];
      assert ids == ids[..|ids| - 1] + [last];
      if last < n then front + [last] else front
  }

  lemma {:induction false} InRangeSet(ids: seq<nat>, n: nat)
    requires Sorting.Distinct(ids)
    ensures SetOf(InRange(ids, n)) == SetOf(ids) * AllIds(n) && Sorting.Distinct(InRange(ids, n))
  {
    if ids == [] {
    } else {
      var front, last := ids[..|ids| - 1], ids[|ids| - 1];
      InRangeSet(front, n);
      assert last !in front;
    }
  }

  /** Queries of the right dimension keep all their occurrences. */
  lemma {:induction false} WithDimCount(qs: seq<seq<real>>, dim: nat, q: seq<real>)
    ensures multiset(WithDim(qs, dim))[q] == if |q| == dim then multiset(qs)[q] else 0
  {
    if qs == [] {
      assert WithDim(qs, dim) == [];
    } else {
      var front, last := qs[..|qs| - 1], qs[|qs| - 1];
      assert qs == front + [last];
      WithDimCount(front, dim, q);
    }
  }

  /** Ids in range keep all their occurrences. */
  lemma {:induction false} InRangeCount(ids: seq<nat>, n: nat, i: nat)
    ensures multiset(InRange(ids, n))[i] == if i < n then multiset(ids)[i] else 0
  {
    if ids == [] {
      assert InRange(ids, n) == [];
    } else {
      var front, last := ids[..|ids| - 1], ids[|ids| - 1];
      assert ids == front + [last];
      InRangeCount(front, n, i);
    }
  }

  method AtMostLimit(key: seq<real>, limit: real) returns (ids: seq<nat>)
    ensures Sorting.Distinct(ids) && SetOf(ids) == Radius(key, AllIds(|key|), limit)
  {
    ids := [];
    for i := 0 to |key|
      invariant Sorting.Distinct(ids)
      invariant forall j: nat :: j in ids <==> j < i && KeyAt(key, j) <= limit
    {
      assert i !in ids;
      if key[i] <= limit {
        ids := ids + [i];
      }
    }
  }

  lemma TotalStep(oracles: seq<set<nat>>, kept: seq<set<nat>>, j: nat)
    requires |oracles| == |kept| && j < |oracles| && Answered(oracles)
    ensures TotalLoss(oracles[..j + 1], kept[..j + 1]) == TotalLoss(oracles[..j], kept[..j]) + Loss(oracles[j], kept[j])
  {
    assert oracles[..j + 1][..j] == oracles[..j] && kept[..j + 1][..j] == kept[..j];
  }

  lemma PushFirst(a: seq<nat>, x: nat, rest: seq<nat>)
    ensures a + ([x] + rest) == (a + [x]) + rest
  {
  }

  lemma LambdaGridStep(lambda: nat, bits: nat)
    requires bits < MAX_U32
    ensures lambda > bits ==> LambdaGrid(lambda, bits) == [lambda]
    ensures lambda <= bits ==>
      NextLambda(lambda) > lambda && LambdaGrid(lambda, bits) == [lambda] + LambdaGrid(NextLambda(lambda), bits)
  {
  }

  /** Pushes the doubling radii one by one; a width of 2^32 - 1 bits or more would never
      be passed. */
  method RadiusGrid(bits: nat) returns (grid: seq<nat>)
    requires bits < MAX_U32
    ensures grid == LambdaGrid(0, bits)
  {
    hide LambdaGrid, NextLambda;
    grid := [];
    var lambda: nat := 0;
    while lambda <= bits
      invariant grid + LambdaGrid(lambda, bits) == LambdaGrid(0, bits)
      decreases bits + 1 - lambda
    {
      LambdaGridStep(lambda, bits);
      PushFirst(grid, lambda, LambdaGrid(NextLambda(lambda), bits));
      grid := grid + [lambda];
      lambda := NextLambda(lambda);
    }
    LambdaGridStep(lambda, bits);
    grid := grid + [lambda];
  }

  /** `grid` is what the doubling from `k` has pushed before it reached `m`. */
  ghost predicate Pushed(grid: seq<nat>, m: nat, k: nat, n: nat)
    requires k > 0
  {
    m > 0 && grid + SizeGrid(m, n) == SizeGrid(k, n)
  }

  lemma PushedNone(k: nat, n: nat)
    requires k > 0
    ensures Pushed([], k, k, n)
  {
  }

  lemma PushedStep(grid: seq<nat>, m: nat, k: nat, n: nat)
    requires k > 0 && Pushed(grid, m, k, n)
    ensures m > 0
    ensures if m < n then Pushed(grid + [m], 2 * m, k, n) else grid + [n] == SizeGrid(k, n)
  {
    if m < n {
      PushFirst(grid, m, SizeGrid(2 * m, n));
    }
  }

  method ShortlistGrid(k: nat, n: nat) returns (grid: seq<nat>)
    requires k > 0
    ensures grid == SizeGrid(k, n)
  {
    hide SizeGrid, Pushed;
    PushedNone(k, n);
    grid := [];
    var m: nat := k;
    while m < n
      invariant Pushed(grid, m, k, n)
      decreases n - m
    {
      PushedStep(grid, m, k, n);
      grid := grid + [m];
      m := 2 * m;
    }
    PushedStep(grid, m, k, n);
    grid := grid + [n];
  }

  lemma NextHit(oracle: seq<nat>, got: seq<nat>, i: nat)
    requires Sorting.Distinct(oracle) && i < |oracle|
    ensures |SetOf(oracle[..i + 1]) * SetOf(got)| == |SetOf(oracle[..i]) * SetOf(got)| + if oracle[i] in got then 1 else 0
  {
    assert oracle[..i + 1] == oracle[..i] + [oracle[i]];
    assert oracle[i] !in SetOf(oracle[..i]);
    assert SetOf(oracle[..i + 1]) * SetOf(got) == SetOf(oracle[..i]) * SetOf(got) + (if oracle[i] in got then {oracle[i]} else {});
  }

  ghost predicate OraclesOf(t: Tier, embeddings: seq<seq<real>>, qs: seq<seq<real>>, k: nat, oracles: seq<seq<nat>>) {
    && |oracles| == |qs|
    && forall j :: 0 <= j < |qs| ==> Lists(ScoreKey(t, embeddings, qs[j]), AllIds(|embeddings|), k, oracles[j])
  }

  /** The empirical risk of a shortlist size on the calibration queries. */
  ghost function SizeRisk(t: Tier, embeddings: seq<seq<real>>, sketches: seq<seq<bool>>, qs: seq<seq<real>>,
                          k: nat, m: nat): real
    requires k > 0 && embeddings != [] && |sketches| == |embeddings| && qs != []
  {
    ExactNonEmpty(t, embeddings, qs, k);
    MeanLoss(ExactSets(t, embeddings, qs, k), ShortlistSets(t, sketches, qs, m))
  }

  ghost function RadiusRisk(t: Tier, embeddings: seq<seq<real>>, sketches: seq<seq<bool>>, qs: seq<seq<real>>,
                            k: nat, lambda: nat): real
    requires k > 0 && embeddings != [] && |sketches| == |embeddings| && qs != []
  {
    ExactNonEmpty(t, embeddings, qs, k);
    MeanLoss(ExactSets(t, embeddings, qs, k), AdaptiveSets(t, sketches, qs, k, lambda))
  }

  /** A larger shortlist never has more risk, whether or not it is on a grid. */
  lemma SizeRiskShrinks(t: Tier, embeddings: seq<seq<real>>, sketches: seq<seq<bool>>, qs: seq<seq<real>>,
                        k: nat, m: nat, l: nat)
    requires k > 0 && embeddings != [] && |sketches| == |embeddings| && qs != [] && m <= l
    ensures SizeRisk(t, embeddings, sketches, qs, k, l) <= SizeRisk(t, embeddings, sketches, qs, k, m)
  {
    hide Exact, HammingKey, MeanLoss;
    ExactNonEmpty(t, embeddings, qs, k);
    forall j | 0 <= j < |qs|
      ensures Shortlist(t, sketches, qs[j], m) <= Shortlist(t, sketches, qs[j], l)
    {
      TopNested(HammingKey(sketches, t.sketchOf(qs[j])), AllIds(|sketches|), m, l);
    }
    RiskShrinks(ExactSets(t, embeddings, qs, k), ShortlistSets(t, sketches, qs, m), ShortlistSets(t, sketches, qs, l));
  }

  lemma RadiusRiskShrinks(t: Tier, embeddings: seq<seq<real>>, sketches: seq<seq<bool>>, qs: seq<seq<real>>,
                          k: nat, m: nat, l: nat)
    requires k > 0 && embeddings != [] && |sketches| == |embeddings| && qs != [] && m <= l
    ensures RadiusRisk(t, embeddings, sketches, qs, k, l) <= RadiusRisk(t, embeddings, sketches, qs, k, m)
  {
    hide Exact, HammingKey, Adaptive, MeanLoss;
    ExactNonEmpty(t, embeddings, qs, k);
    forall j | 0 <= j < |qs|
      ensures Adaptive(t, sketches, qs[j], k, m) <= Adaptive(t, sketches, qs[j], k, l)
    {
      AdaptiveGrows(t, sketches, qs[j], k, m, l);
    }
    RiskShrinks(ExactSets(t, embeddings, qs, k), AdaptiveSets(t, sketches, qs, k, m), AdaptiveSets(t, sketches, qs, k, l));
  }

  /** What a shortlist certificate guarantees on its calibration queries: the chosen size
      and every larger one stay within `alpha`, and no smaller grid size does. */
  ghost predicate CertifiedSize(t: Tier, embeddings: seq<seq<real>>, sketches: seq<seq<bool>>, qs: seq<seq<real>>,
                                k: nat, alpha: real, slack: real, cert: ShortlistCertificate)
    requires k > 0 && embeddings != [] && |sketches| == |embeddings| && qs != []
  {
    && cert.k == k && cert.alpha == alpha && cert.calibrationN == |qs|
    && cert.grid == SizeGrid(k, |embeddings|) && cert.shortlist in cert.grid
    && cert.empiricalRisk == SizeRisk(t, embeddings, sketches, qs, k, cert.shortlist)
    && cert.riskUcb == cert.empiricalRisk + slack
    && (forall m :: m >= cert.shortlist ==> SizeRisk(t, embeddings, sketches, qs, k, m) + slack <= alpha)
    && (forall m :: m in cert.grid && m < cert.shortlist ==> SizeRisk(t, embeddings, sketches, qs, k, m) + slack > alpha)
  }

  ghost predicate CertifiedRadius(t: Tier, embeddings: seq<seq<real>>, sketches: seq<seq<bool>>, qs: seq<seq<real>>,
                                  k: nat, alpha: real, slack: real, cert: RadiusCertificate)
    requires k > 0 && embeddings != [] && |sketches| == |embeddings| && qs != [] && t.bits < MAX_U32
  {
    && cert.k == k && cert.alpha == alpha && cert.calibrationN == |qs|
    && cert.grid == LambdaGrid(0, t.bits) && cert.lambda in cert.grid
    && cert.empiricalRisk == RadiusRisk(t, embeddings, sketches, qs, k, cert.lambda)
    && cert.riskUcb == cert.empiricalRisk + slack
    && (forall l :: l >= cert.lambda ==> RadiusRisk(t, embeddings, sketches, qs, k, l) + slack <= alpha)
    && (forall l :: l in cert.grid && l < cert.lambda ==> RadiusRisk(t, embeddings, sketches, qs, k, l) + slack > alpha)
  }

  lemma SizeTable(t: Tier, embeddings: seq<seq<real>>, sketches: seq<seq<bool>>, qs: seq<seq<real>>, k: nat,
                  slack: real, alpha: real, grid: seq<nat>, risks: seq<real>)
    requires k > 0 && embeddings != [] && |sketches| == |embeddings| && qs != []
    requires grid == SizeGrid(k, |embeddings|) && |risks| == |grid|
    requires forall g :: 0 <= g < |risks| ==> risks[g] == SizeRisk(t, embeddings, sketches, qs, k, grid[g])
    ensures NonIncreasing(risks)
    ensures Controls(risks[|risks| - 1], |qs|, slack, alpha) <==> slack <= alpha
  {
    ExactNonEmpty(t, embeddings, qs, k);
    ShortlistTable(t, embeddings, sketches, qs, k, grid, risks);
    TableSelection(ExactSets(t, embeddings, qs, k), ShortlistFamily(t, sketches, qs, grid), risks, slack, alpha);
  }

  lemma RadiusTable(t: Tier, embeddings: seq<seq<real>>, sketches: seq<seq<bool>>, qs: seq<seq<real>>, k: nat,
                    slack: real, alpha: real, grid: seq<nat>, risks: seq<real>)
    requires SoundTier(t) && k > 0 && embeddings != [] && |sketches| == |embeddings| && qs != []
    requires forall j :: 0 <= j < |qs| ==> |qs[j]| == t.dim
    requires grid == LambdaGrid(0, t.bits) && |risks| == |grid|
    requires forall g :: 0 <= g < |risks| ==> risks[g] == RadiusRisk(t, embeddings, sketches, qs, k, grid[g])
    ensures NonIncreasing(risks)
    ensures Controls(risks[|risks| - 1], |qs|, slack, alpha) <==> slack <= alpha
  {
    ExactNonEmpty(t, embeddings, qs, k);
    AdaptiveTable(t, embeddings, sketches, qs, k, grid, risks);
    TableSelection(ExactSets(t, embeddings, qs, k), AdaptiveFamily(t, sketches, qs, k, grid), risks, slack, alpha);
  }

  /** From the scan of the risk table to the certificate. */
  lemma SizeCertified(t: Tier, embeddings: seq<seq<real>>, sketches: seq<seq<bool>>, qs: seq<seq<real>>, k: nat,
                      alpha: real, slack: real, risks: seq<real>, c: nat, cert: ShortlistCertificate)
    requires k > 0 && embeddings != [] && |sketches| == |embeddings| && qs != []
    requires cert.grid == SizeGrid(k, |embeddings|) && |risks| == |cert.grid| && c < |risks|
    requires forall g :: 0 <= g < |risks| ==> risks[g] == SizeRisk(t, embeddings, sketches, qs, k, cert.grid[g])
    requires forall j :: 0 <= j < |risks| ==> (Controls(risks[j], |qs|, slack, alpha) <==> j >= c)
    requires cert == ShortlistCertificate(cert.grid[c], k, alpha, |qs|, risks[c], risks[c] + slack, cert.grid)
    ensures CertifiedSize(t, embeddings, sketches, qs, k, alpha, slack, cert)
  {
    hide SizeRisk, SizeGrid;
    forall m | m >= cert.shortlist
      ensures SizeRisk(t, embeddings, sketches, qs, k, m) + slack <= alpha
    {
      SizeRiskShrinks(t, embeddings, sketches, qs, k, cert.shortlist, m);
      assert Controls(risks[c], |qs|, slack, alpha);
    }
    forall m | m in cert.grid && m < cert.shortlist
      ensures SizeRisk(t, embeddings, sketches, qs, k, m) + slack > alpha
    {
      var g :| 0 <= g < |cert.grid| && cert.grid[g] == m;
      assert !Controls(risks[g], |qs|, slack, alpha);
    }
  }

  lemma RadiusCertified(t: Tier, embeddings: seq<seq<real>>, sketches: seq<seq<bool>>, qs: seq<seq<real>>, k: nat,
                        alpha: real, slack: real, risks: seq<real>, c: nat, cert: RadiusCertificate)
    requires k > 0 && embeddings != [] && |sketches| == |embeddings| && qs != [] && t.bits < MAX_U32
    requires cert.grid == LambdaGrid(0, t.bits) && |risks| == |cert.grid| && c < |risks|
    requires forall g :: 0 <= g < |risks| ==> risks[g] == RadiusRisk(t, embeddings, sketches, qs, k, cert.grid[g])
    requires forall j :: 0 <= j < |risks| ==> (Controls(risks[j], |qs|, slack, alpha) <==> j >= c)
    requires cert == RadiusCertificate(cert.grid[c], k, alpha, |qs|, risks[c], risks[c] + slack, cert.grid)
    ensures CertifiedRadius(t, embeddings, sketches, qs, k, alpha, slack, cert)
  {
    hide RadiusRisk;
    forall l | l >= cert.lambda
      ensures RadiusRisk(t, embeddings, sketches, qs, k, l) + slack <= alpha
    {
      RadiusRiskShrinks(t, embeddings, sketches, qs, k, cert.lambda, l);
      assert Controls(risks[c], |qs|, slack, alpha);
    }
    forall l | l in cert.grid && l < cert.lambda
      ensures RadiusRisk(t, embeddings, sketches, qs, k, l) + slack > alpha
    {
      var g :| 0 <= g < |cert.grid| && cert.grid[g] == l;
      assert !Controls(risks[g], |qs|, slack, alpha);
    }
  }

  // -- what a query answers, written out -----------------------------------------------

  /** `c` is the shortlist: of ids below `n`, those whose sketches differ from the query's in
      the fewest places, smaller ids first; at least `k` of them, and `shortlist` if that
      is more. */
  ghost predicate IsShortlist(sketches: seq<seq<bool>>, querySketch: seq<bool>, k: nat, shortlist: nat, c: set<nat>) {
    && (forall i :: i in c ==> i < |sketches|)
    && |c| == (if k >= |sketches| || shortlist >= |sketches| then |sketches| else if k < shortlist then shortlist else k)
    && forall i, j: nat :: i in c && j < |sketches| && j !in c ==>
         var near, far := |Vectors.Differing(querySketch, sketches[i])|, |Vectors.Differing(querySketch, sketches[j])|;
         near < far || (near == far && i < j)
  }

  /** `hits` are the `k` entries of `c` with the highest scores, highest first, smaller ids
      first among equals, each with its own score. */
  ghost predicate AreBestScored(t: Tier, embeddings: seq<seq<real>>, query: seq<real>, c: set<nat>, k: nat, hits: seq<Hit>) {
    && |hits| == (if k < |c| then k else |c|)
    && (forall p :: 0 <= p < |hits| ==>
          hits[p].id in c && hits[p].id < |embeddings| && hits[p].score == t.score(embeddings[hits[p].id], query))
    && (forall p, q :: 0 <= p < q < |hits| ==>
          hits[p].score > hits[q].score || (hits[p].score == hits[q].score && hits[p].id < hits[q].id))
    && forall i, p :: i in c && i < |embeddings| && 0 <= p < |hits| && i !in Ids(hits) ==>
         var score := t.score(embeddings[i], query);
         score < hits[p].score || (score == hits[p].score && hits[p].id < i)
  }

  lemma ShortlistWritten(sketches: seq<seq<bool>>, querySketch: seq<bool>, k: nat, shortlist: nat)
    requires forall i :: 0 <= i < |sketches| ==> |sketches[i]| == |querySketch|
    ensures IsShortlist(sketches, querySketch, k, shortlist,
                        Top(HammingKey(sketches, querySketch), AllIds(|sketches|), ShortlistSize(k, shortlist, |sketches|)))
  {
    var n, key := |sketches|, HammingKey(sketches, querySketch);
    var m := ShortlistSize(k, shortlist, n);
    var c := Top(key, AllIds(n), m);
    AllIdsSize(n);
    TopSize(key, AllIds(n), m);
    forall i, j: nat | i in c && j < n && j !in c
      ensures var near, far := |Vectors.Differing(querySketch, sketches[i])|, |Vectors.Differing(querySketch, sketches[j])|;
        near < far || (near == far && i < j)
    {
      TopSeparates(key, AllIds(n), m, i, j);
      Vectors.HammingMeans(querySketch, sketches[i]);
      Vectors.HammingMeans(querySketch, sketches[j]);
    }
  }

  lemma BestScoredWritten(t: Tier, embeddings: seq<seq<real>>, query: seq<real>, c: set<nat>, k: nat, hits: seq<Hit>)
    requires Ranks(ScoreKey(t, embeddings, query), c, k, hits) && c <= AllIds(|embeddings|)
    ensures AreBestScored(t, embeddings, query, c, k, hits)
  {
    var key := ScoreKey(t, embeddings, query);
    ListSize(key, c, k, Ids(hits));
    TopSize(key, c, k);
    forall p | 0 <= p < |hits|
      ensures hits[p].id in c && hits[p].id < |embeddings| && hits[p].score == t.score(embeddings[hits[p].id], query)
    {
      assert Ids(hits)[p] in SetOf(Ids(hits));
    }
    forall p, q | 0 <= p < q < |hits|
      ensures hits[p].score > hits[q].score || (hits[p].score == hits[q].score && hits[p].id < hits[q].id)
    {
      assert Before(key, Ids(hits)[p], Ids(hits)[q]);
    }
    forall i, p | i in c && i < |embeddings| && 0 <= p < |hits| && i !in Ids(hits)
      ensures var score := t.score(embeddings[i], query); score < hits[p].score || (score == hits[p].score && hits[p].id < i)
    {
      assert Ids(hits)[p] in SetOf(Ids(hits));
      assert i !in SetOf(Ids(hits));
      TopSeparates(key, c, k, hits[p].id, i);
    }
  }

  /** An entry with the query's own sketch is shortlisted before any with another one. */
  lemma EqualSketchFirst(sketches: seq<seq<bool>>, querySketch: seq<bool>, k: nat, shortlist: nat, c: set<nat>, same: nat, other: nat)
    requires forall i :: 0 <= i < |sketches| ==> |sketches[i]| == |querySketch|
    requires IsShortlist(sketches, querySketch, k, shortlist, c) && same < |sketches| && other < |sketches|
    requires sketches[same] == querySketch && sketches[other] != querySketch
    ensures other in c ==> same in c
  {
    assert Vectors.Differing(querySketch, sketches[same]) == {};
    assert |Vectors.Differing(querySketch, sketches[same])| == 0;
    Vectors.HammingMeans(querySketch, sketches[other]);
    Vectors.HammingMetric(querySketch, sketches[other], sketches[other]);
  }

  class SketchIndex {
    const tier: Tier
    var embeddings: seq<seq<real>>
    var sketches: seq<seq<bool>>
    var payloads: seq<seq<Byte>>

    ghost predicate Valid()
      reads this
    {
      && SoundTier(tier)
      && |embeddings| == |sketches| == |payloads|
      && (forall i :: 0 <= i < |embeddings| ==> |embeddings[i]| == tier.dim && |sketches[i]| == tier.bits)
    }

    constructor (tier: Tier)
      requires SoundTier(tier)
      ensures Valid() && this.tier == tier && embeddings == [] && sketches == [] && payloads == []
    {
      this.tier := tier;
      embeddings, sketches, payloads := [], [], [];
    }

    /** Sketches the raw vector, stores the normalised one. */
    method Insert(embedding: seq<real>, payload: seq<Byte>) returns (ok: bool)
      requires Valid()
      modifies this
      ensures Valid() && ok == (|embedding| == tier.dim)
      ensures ok ==>
        && embeddings == old(embeddings) + [tier.normalize(embedding)]
        && sketches == old(sketches) + [tier.sketchOf(embedding)]
        && payloads == old(payloads) + [payload]
      ensures !ok ==> embeddings == old(embeddings) && sketches == old(sketches) && payloads == old(payloads)
    {
      if |embedding| != tier.dim {
        return false;
      }
      sketches := sketches + [tier.sketchOf(embedding)];
      embeddings := embeddings + [tier.normalize(embedding)];
      payloads := payloads + [payload];
      ok := true;
    }

    method EveryId() returns (ids: seq<nat>)
      requires Valid()
      ensures Sorting.Distinct(ids) && SetOf(ids) == AllIds(|embeddings|)
    {
      ids := seq(|embeddings|, i => i);
      forall i: nat
        ensures i in ids <==> i < |embeddings|
      {
        assert i < |embeddings| ==> ids[i] == i;
      }
    }

    /** Ranks candidate ids by exact score. */
    method RankByScore(query: seq<real>, candidates: seq<nat>, k: nat) returns (hits: seq<Hit>)
      ensures FirstListed(ScoreKey(tier, embeddings, query), candidates, k, Ids(hits))
      ensures forall p :: 0 <= p < |hits| ==> hits[p].score == -KeyAt(ScoreKey(tier, embeddings, query), hits[p].id)
      ensures Sorting.Distinct(candidates) ==> Ranks(ScoreKey(tier, embeddings, query), SetOf(candidates), k, hits)
    {
      hide ScoreKey, KeyAt, FirstListed, Lists, Sorting.Distinct;
      var key := ScoreKey(tier, embeddings, query);
      var ids := RankTop(key, candidates, k);
      hits := seq(|ids|, p requires 0 <= p < |ids| => Hit(ids[p], -KeyAt(key, ids[p])));
      assert Ids(hits) == ids;
    }

    method NearestIdsWithSketch(query: seq<real>, querySketch: seq<bool>, k: nat, shortlist: nat)
      returns (hits: seq<Hit>)
      requires Valid()
      ensures |query| != tier.dim || |querySketch| != tier.bits || k == 0 || embeddings == [] ==> hits == []
      ensures |query| == tier.dim && |querySketch| == tier.bits && k > 0 && embeddings != [] ==>
        Ranks(ScoreKey(tier, embeddings, query),
              Top(HammingKey(sketches, querySketch), AllIds(|embeddings|), ShortlistSize(k, shortlist, |embeddings|)),
              k, hits)
      ensures |query| == tier.dim && |querySketch| == tier.bits && k > 0 && embeddings != [] ==>
        exists c :: IsShortlist(sketches, querySketch, k, shortlist, c) && AreBestScored(tier, embeddings, query, c, k, hits)
    {
      if |query| != tier.dim || |querySketch| != tier.bits || k == 0 || embeddings == [] {
        return [];
      }
      var ids := EveryId();
      var chosen := SelectSmallest(HammingKey(sketches, querySketch), ids, ShortlistSize(k, shortlist, |embeddings|));
      hits := RankByScore(query, chosen, k);
      ghost var c := Top(HammingKey(sketches, querySketch), AllIds(|embeddings|), ShortlistSize(k, shortlist, |embeddings|));
      ShortlistWritten(sketches, querySketch, k, shortlist);
      BestScoredWritten(tier, embeddings, query, c, k, hits);
    }

    method NearestIds(query: seq<real>, k: nat, shortlist: nat) returns (hits: seq<Hit>)
      requires Valid()
      ensures |query| != tier.dim || k == 0 || embeddings == [] ==> hits == []
      ensures |query| == tier.dim && k > 0 && embeddings != [] ==>
        Ranks(ScoreKey(tier, embeddings, query),
              Shortlist(tier, sketches, query, ShortlistSize(k, shortlist, |embeddings|)), k, hits)
      ensures |query| == tier.dim && k > 0 && embeddings != [] ==>
        exists c ::
          && IsShortlist(sketches, tier.sketchOf(query), k, shortlist, c)
          && AreBestScored(tier, embeddings, query, c, k, hits)
    {
      if |query| != tier.dim {
        return [];
      }
      hits := NearestIdsWithSketch(query, tier.sketchOf(query), k, shortlist);
    }

    /** The oracle of both calibrations: the exact ranking of the whole corpus. */
    method ExactTopIds(query: seq<real>, k: nat) returns (ids: seq<nat>)
      requires Valid()
      ensures Lists(ScoreKey(tier, embeddings, query), AllIds(|embeddings|), k, ids)
    {
      var every := EveryId();
      ids := RankTop(ScoreKey(tier, embeddings, query), every, k);
    }

    /** Exact rerank of listed ids; ids out of range are skipped, and an id listed twice is
        ranked twice. */
    method Rerank(query: seq<real>, ids: seq<nat>, k: nat) returns (hits: seq<Hit>)
      requires Valid()
      ensures |query| != tier.dim ==> hits == []
      ensures |query| == tier.dim ==>
        && FirstListed(ScoreKey(tier, embeddings, query), InRange(ids, |embeddings|), k, Ids(hits))
        && forall p :: 0 <= p < |hits| ==> hits[p].score == -KeyAt(ScoreKey(tier, embeddings, query), hits[p].id)
      ensures |query| == tier.dim && Sorting.Distinct(ids) ==>
        Ranks(ScoreKey(tier, embeddings, query), SetOf(ids) * AllIds(|embeddings|), k, hits)
    {
      hide ScoreKey, KeyAt, FirstListed, Lists, Sorting.Distinct;
      if |query| != tier.dim {
        return [];
      }
      if Sorting.Distinct(ids) {
        InRangeSet(ids, |embeddings|);
      }
      hits := RankByScore(query, InRange(ids, |embeddings|), k);
    }

    /** The `m` listed ids that are closest by sketch. */
    method HammingRank(query: seq<real>, ids: seq<nat>, m: nat) returns (ranked: seq<nat>)
      requires Valid()
      ensures |query| != tier.dim ==> ranked == []
      ensures |query| == tier.dim ==>
        FirstListed(HammingKey(sketches, tier.sketchOf(query)), InRange(ids, |embeddings|), m, ranked)
      ensures |query| == tier.dim && Sorting.Distinct(ids) ==>
        Lists(HammingKey(sketches, tier.sketchOf(query)), SetOf(ids) * AllIds(|embeddings|), m, ranked)
    {
      hide HammingKey, FirstListed, Lists, Sorting.Distinct;
      if |query| != tier.dim {
        return [];
      }
      if Sorting.Distinct(ids) {
        InRangeSet(ids, |embeddings|);
      }
      ranked := RankTop(HammingKey(sketches, tier.sketchOf(query)), InRange(ids, |embeddings|), m);
    }

    // -- adaptive radius ---------------------------------------------------------------

    /** Zero for an empty store or `k == 0`. */
    method KthSketchDistance(querySketch: seq<bool>, k: nat) returns (d: nat)
      requires Valid() && |querySketch| == tier.bits
      ensures |AllIds(|sketches|)| == |sketches| && d <= tier.bits
      ensures if k == 0 || embeddings == [] then d == 0
              else d as real == Kth(HammingKey(sketches, querySketch), AllIds(|sketches|), ClampedK(k, |sketches|))
    {
      AllIdsSize(|sketches|);
      if embeddings == [] || k == 0 {
        return 0;
      }
      var key, m := HammingKey(sketches, querySketch), ClampedK(k, |sketches|);
      var ids := EveryId();
      var best := RankTop(key, ids, m);
      KthIsDistance(sketches, querySketch, m);
      LastIsKth(key, AllIds(|sketches|), m, best);
      assert best[m - 1] in SetOf(best);
      KeyIsDistance(sketches, querySketch, best[m - 1]);
      d := Vectors.Hamming(querySketch, sketches[best[m - 1]]);
    }

    /** Every id within the query's own radius, ties at the radius included. */
    method WithinRadius(query: seq<real>, k: nat, lambda: nat) returns (ids: seq<nat>)
      requires Valid() && |query| == tier.dim && k > 0 && embeddings != []
      ensures Sorting.Distinct(ids) && SetOf(ids) == Adaptive(tier, sketches, query, k, lambda)
    {
      var sketch := tier.sketchOf(query);
      var d := KthSketchDistance(sketch, k);
      ids := AtMostLimit(HammingKey(sketches, sketch), Saturating(d + lambda) as real);
    }

    method NearestAdaptive(query: seq<real>, k: nat, lambda: nat) returns (hits: seq<Hit>)
      requires Valid()
      ensures |query| != tier.dim || k == 0 || embeddings == [] ==> hits == []
      ensures |query| == tier.dim && k > 0 && embeddings != [] ==>
        Ranks(ScoreKey(tier, embeddings, query), Adaptive(tier, sketches, query, k, lambda), k, hits)
    {
      if k == 0 || embeddings == [] || |query| != tier.dim {
        return [];
      }
      var ids := WithinRadius(query, k, lambda);
      hits := RankByScore(query, ids, k);
    }

    // -- calibration ---------------------------------------------------------------------

    /** One query's measured loss: the part of its exact answer the pipeline misses. */
    method MeasuredLoss(oracle: seq<nat>, got: seq<nat>) returns (loss: real)
      requires Sorting.Distinct(oracle) && oracle != []
      ensures SetOf(oracle) != {} && loss == Loss(SetOf(oracle), SetOf(got))
    {
      var hits := 0;
      for i := 0 to |oracle|
        invariant hits == |SetOf(oracle[..i]) * SetOf(got)|
      {
        NextHit(oracle, got, i);
        hits := hits + if oracle[i] in got then 1 else 0;
      }
      assert oracle[..|oracle|] == oracle;
      DistinctSize(oracle);
      loss := 1.0 - hits as real / |oracle| as real;
    }

    method OracleLists(queries: seq<seq<real>>, k: nat) returns (oracles: seq<seq<nat>>)
      requires Valid() && k > 0 && embeddings != []
      ensures OraclesOf(tier, embeddings, queries, k, oracles)
    {
      oracles := [];
      for j := 0 to |queries|
        invariant |oracles| == j
        invariant forall i :: 0 <= i < j ==>
          Lists(ScoreKey(tier, embeddings, queries[i]), AllIds(|embeddings|), k, oracles[i])
      {
        var oracle := ExactTopIds(queries[j], k);
        oracles := oracles + [oracle];
      }
    }

    /** The empirical risk of one shortlist size, measured by running the pipeline. */
    method ShortlistRisk(queries: seq<seq<real>>, oracles: seq<seq<nat>>, k: nat, m: nat) returns (risk: real)
      requires Valid() && k > 0 && embeddings != [] && queries != []
      requires OraclesOf(tier, embeddings, queries, k, oracles)
      requires forall j :: 0 <= j < |queries| ==> |queries[j]| == tier.dim
      requires ShortlistSize(k, m, |embeddings|) == m
      ensures risk == SizeRisk(tier, embeddings, sketches, queries, k, m)
    {
      ExactNonEmpty(tier, embeddings, queries, k);
      ghost var exact, kept := ExactSets(tier, embeddings, queries, k), ShortlistSets(tier, sketches, queries, m);
      var total := 0.0;
      for j := 0 to |queries|
        invariant total == TotalLoss(exact[..j], kept[..j])
      {
        var got := NearestIds(queries[j], k, m);
        var loss := QueryLoss(queries[j], oracles[j], got, k);
        PipelineLoss(tier, embeddings, sketches, queries[j], k, m, got);
        TotalStep(exact, kept, j);
        total := total + loss;
      }
      assert exact[..|queries|] == exact && kept[..|queries|] == kept;
      risk := total / |queries| as real;
    }

    method QueryLoss(query: seq<real>, oracle: seq<nat>, got: seq<Hit>, k: nat) returns (loss: real)
      requires Valid() && k > 0 && embeddings != []
      requires Lists(ScoreKey(tier, embeddings, query), AllIds(|embeddings|), k, oracle)
      ensures Exact(tier, embeddings, query, k) != {}
      ensures loss == Loss(Exact(tier, embeddings, query, k), SetOf(Ids(got)))
    {
      ExactNonEmpty(tier, embeddings, [query], k);
      assert ExactSets(tier, embeddings, [query], k)[0] == Exact(tier, embeddings, query, k);
      InOrderDistinct(ScoreKey(tier, embeddings, query), oracle);
      assert SetOf(oracle) != {};
      loss := MeasuredLoss(oracle, Ids(got));
    }

    method ShortlistRisks(queries: seq<seq<real>>, k: nat, grid: seq<nat>) returns (risks: seq<real>)
      requires Valid() && k > 0 && embeddings != [] && queries != []
      requires forall j :: 0 <= j < |queries| ==> |queries[j]| == tier.dim
      requires forall g :: 0 <= g < |grid| ==> ShortlistSize(k, grid[g], |embeddings|) == grid[g]
      ensures |risks| == |grid|
      ensures forall g :: 0 <= g < |grid| ==> risks[g] == SizeRisk(tier, embeddings, sketches, queries, k, grid[g])
    {
      hide OraclesOf, SizeRisk, RadiusRisk, MeanLoss, ExactSets, ShortlistSets;
      var oracles := OracleLists(queries, k);
      risks := [];
      for g := 0 to |grid|
        invariant |risks| == g
        invariant forall h :: 0 <= h < g ==> risks[h] == SizeRisk(tier, embeddings, sketches, queries, k, grid[h])
      {
        var risk := ShortlistRisk(queries, oracles, k, grid[g]);
        risks := risks + [risk];
      }
    }

    /** Certifies the smallest grid size whose risk, slack included, is at most `alpha`.
        `slack` is the Hoeffding slack for the number of valid queries. Nothing certifies
        exactly when there is nothing to measure or the slack alone exceeds `alpha`. */
    method CertifyShortlist(queries: seq<seq<real>>, k: nat, alpha: real, slack: nat -> real)
      returns (cert: Option<ShortlistCertificate>)
      requires Valid()
      ensures cert.None? <==>
        k == 0 || embeddings == [] || WithDim(queries, tier.dim) == [] || slack(|WithDim(queries, tier.dim)|) > alpha
      ensures cert.Some? ==>
        CertifiedSize(tier, embeddings, sketches, WithDim(queries, tier.dim), k, alpha,
                      slack(|WithDim(queries, tier.dim)|), cert.value)
    {
      hide SizeRisk, CertifiedSize;
      if k == 0 || embeddings == [] {
        return None;
      }
      var valid := WithDim(queries, tier.dim);
      if valid == [] {
        return None;
      }
      var grid := ShortlistGrid(k, |embeddings|);
      var risks := ShortlistRisks(valid, k, grid);
      SizeTable(tier, embeddings, sketches, valid, k, slack(|valid|), alpha, grid, risks);
      var chosen := RcpsSelect(risks, |valid|, slack(|valid|), alpha);
      if chosen.None? {
        return None;
      }
      var c := chosen.value;
      SelectsSmallest(risks, |valid|, slack(|valid|), alpha, c);
      cert := Some(ShortlistCertificate(grid[c], k, alpha, |valid|, risks[c], risks[c] + slack(|valid|), grid));
      SizeCertified(tier, embeddings, sketches, valid, k, alpha, slack(|valid|), risks, c, cert.value);
    }

    /** The share of the exact answer beyond the query's radius, as calibration counts it. */
    method BeyondRadius(query: seq<real>, oracle: seq<nat>, k: nat, lambda: nat) returns (loss: real)
      requires Valid() && |query| == tier.dim && k > 0 && embeddings != []
      requires Lists(ScoreKey(tier, embeddings, query), AllIds(|embeddings|), k, oracle)
      ensures Exact(tier, embeddings, query, k) != {}
      ensures loss == Loss(Exact(tier, embeddings, query, k), Adaptive(tier, sketches, query, k, lambda))
    {
      ExactNonEmpty(tier, embeddings, [query], k);
      assert ExactSets(tier, embeddings, [query], k)[0] == Exact(tier, embeddings, query, k);
      InOrderDistinct(ScoreKey(tier, embeddings, query), oracle);
      assert SetOf(oracle) != {};
      var kept := WithinRadius(query, k, lambda);
      loss := MeasuredLoss(oracle, kept);
    }

    method RadiusRiskAt(queries: seq<seq<real>>, oracles: seq<seq<nat>>, k: nat, lambda: nat) returns (risk: real)
      requires Valid() && k > 0 && embeddings != [] && queries != []
      requires OraclesOf(tier, embeddings, queries, k, oracles)
      requires forall j :: 0 <= j < |queries| ==> |queries[j]| == tier.dim
      ensures risk == RadiusRisk(tier, embeddings, sketches, queries, k, lambda)
    {
      hide Exact, Adaptive, Lists, Loss, AllIds, ScoreKey;
      ExactNonEmpty(tier, embeddings, queries, k);
      ghost var exact, kept := ExactSets(tier, embeddings, queries, k), AdaptiveSets(tier, sketches, queries, k, lambda);
      var total := 0.0;
      for j := 0 to |queries|
        invariant total == TotalLoss(exact[..j], kept[..j])
      {
        var loss := BeyondRadius(queries[j], oracles[j], k, lambda);
        TotalStep(exact, kept, j);
        total := total + loss;
      }
      assert exact[..|queries|] == exact && kept[..|queries|] == kept;
      risk := total / |queries| as real;
    }

    method RadiusRisks(queries: seq<seq<real>>, k: nat, grid: seq<nat>) returns (risks: seq<real>)
      requires Valid() && k > 0 && embeddings != [] && queries != []
      requires forall j :: 0 <= j < |queries| ==> |queries[j]| == tier.dim
      ensures |risks| == |grid|
      ensures forall g :: 0 <= g < |grid| ==> risks[g] == RadiusRisk(tier, embeddings, sketches, queries, k, grid[g])
    {
      hide OraclesOf, SizeRisk, RadiusRisk, MeanLoss, ExactSets, ShortlistSets;
      var oracles := OracleLists(queries, k);
      risks := [];
      for g := 0 to |grid|
        invariant |risks| == g
        invariant forall h :: 0 <= h < g ==> risks[h] == RadiusRisk(tier, embeddings, sketches, queries, k, grid[h])
      {
        var risk := RadiusRiskAt(queries, oracles, k, grid[g]);
        risks := risks + [risk];
      }
    }

    method CalibrateAdaptiveRadius(queries: seq<seq<real>>, k: nat, alpha: real, slack: nat -> real)
      returns (cert: Option<RadiusCertificate>)
      requires Valid()
      ensures cert.None? <==>
        k == 0 || embeddings == [] || WithDim(queries, tier.dim) == [] || slack(|WithDim(queries, tier.dim)|) > alpha
      ensures cert.Some? ==>
        CertifiedRadius(tier, embeddings, sketches, WithDim(queries, tier.dim), k, alpha,
                        slack(|WithDim(queries, tier.dim)|), cert.value)
    {
      hide RadiusRisk, CertifiedRadius;
      if k == 0 || embeddings == [] {
        return None;
      }
      var valid := WithDim(queries, tier.dim);
      if valid == [] {
        return None;
      }
      var grid := RadiusGrid(tier.bits);
      var risks := RadiusRisks(valid, k, grid);
      RadiusTable(tier, embeddings, sketches, valid, k, slack(|valid|), alpha, grid, risks);
      var chosen := RcpsSelect(risks, |valid|, slack(|valid|), alpha);
      if chosen.None? {
        return None;
      }
      var c := chosen.value;
      SelectsSmallest(risks, |valid|, slack(|valid|), alpha, c);
      cert := Some(RadiusCertificate(grid[c], k, alpha, |valid|, risks[c], risks[c] + slack(|valid|), grid));
      RadiusCertified(tier, embeddings, sketches, valid, k, alpha, slack(|valid|), risks, c, cert.value);
    }
  }
}
