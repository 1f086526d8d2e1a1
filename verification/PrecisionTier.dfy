/** The precision tier: a Hamming shortlist over sign sketches, reranked by exact score.
    How a vector is sketched, normalised and scored is a parameter; only the order of the
    scores matters here. Ids are insertion positions. */
module PrecisionTier {
  import opened Conformal
  import opened ItemIds
  import opened Ranking
  import opened Vectors

  /** `score` compares a stored (normalised, perhaps quantised) vector with a raw query. */
  datatype Tier = Tier(dim: nat, bits: nat, sketchOf: seq<real> -> seq<bool>,
                       normalize: seq<real> -> seq<real>, score: (seq<real>, seq<real>) -> real)

  ghost predicate SoundTier(t: Tier) {
    && 0 < t.bits < MAX_U32
    && (forall v :: |v| == t.dim ==> |t.sketchOf(v)| == t.bits)
    && (forall v :: |v| == t.dim ==> |t.normalize(v)| == t.dim)
  }

  const MAX_U32: nat := 0xFFFF_FFFF

  /** The exact tier: cosine as one dot product of normalised vectors. */
  function F32Tier(dim: nat, planes: seq<seq<real>>, norm: seq<real> -> real): Tier {
    Tier(dim, |planes|, v => Sketch(planes, v), v => Normalized(norm, v),
         (v, q) => Dot(v, Normalized(norm, q)))
  }

  /** Its score is the cosine: scaled back by both norms it is the dot product of the raw
      vectors. */
  lemma CosineScore(dim: nat, planes: seq<seq<real>>, norm: seq<real> -> real, v: seq<real>, q: seq<real>)
    requires norm(v) > 0.0 && norm(q) > 0.0
    ensures var t := F32Tier(dim, planes, norm);
      t.score(t.normalize(v), q) * norm(q) * norm(v) == Dot(v, q)
  {
    hide Dot, Normalized;
    DotNormalizedRight(norm, Normalized(norm, v), q);
    DotNormalizedLeft(norm, v, q);
  }

  lemma DotNormalizedRight(norm: seq<real> -> real, u: seq<real>, q: seq<real>)
    requires norm(q) > 0.0
    ensures Dot(u, Normalized(norm, q)) * norm(q) == Dot(u, q)
  {
    hide Dot, Scaled;
    DotScaledRight(u, q, 1.0 / norm(q));
    Undone(Dot(u, q), norm(q));
  }

  lemma DotNormalizedLeft(norm: seq<real> -> real, v: seq<real>, q: seq<real>)
    requires norm(v) > 0.0
    ensures Dot(Normalized(norm, v), q) * norm(v) == Dot(v, q)
  {
    hide Dot, Scaled;
    DotScaledLeft(v, q, 1.0 / norm(v));
    Undone(Dot(v, q), norm(v));
  }

  lemma Undone(x: real, n: real)
    requires n > 0.0
    ensures x * (1.0 / n) * n == x
  {
    assert (1.0 / n) * n == 1.0;
  }

  datatype Hit = Hit(id: nat, score: real)

  function Ids(hits: seq<Hit>): (ids: seq<nat>)
    ensures |ids| == |hits|
  {
    seq(|hits|, p requires 0 <= p < |hits| => hits[p].id)
  }

  function HammingKey(sketches: seq<seq<bool>>, query: seq<bool>): (key: seq<real>)
    ensures |key| == |sketches|
  {
    seq(|sketches|, i requires 0 <= i < |sketches| => Hamming(query, sketches[i]) as real)
  }

  /** Scores are ranked downwards, so the key is the negated score. */
  function ScoreKey(t: Tier, embeddings: seq<seq<real>>, query: seq<real>): (key: seq<real>)
    ensures |key| == |embeddings|
  {
    seq(|embeddings|, i requires 0 <= i < |embeddings| => -t.score(embeddings[i], query))
  }

  /** `hits` are the `k` best of `c`, best first, each with its own score. */
  ghost predicate Ranks(key: seq<real>, c: set<nat>, k: nat, hits: seq<Hit>) {
    && Lists(key, c, k, Ids(hits))
    && forall p :: 0 <= p < |hits| ==> hits[p].score == -KeyAt(key, hits[p].id)
  }

  // -- recall loss ------------------------------------------------------------------------

  /** The part of the exact answer that the candidates miss. */
  ghost function Loss(oracle: set<nat>, kept: set<nat>): (loss: real)
    requires oracle != {}
  {
    1.0 - |oracle * kept| as real / |oracle| as real
  }

  /** The loss is the share of the exact answer that was missed. */
  lemma LossMeans(oracle: set<nat>, kept: set<nat>)
    requires oracle != {}
    ensures Loss(oracle, kept) == |oracle - kept| as real / |oracle| as real
  {
    assert oracle == oracle * kept + (oracle - kept);
    MissedShare(|oracle| as real, |oracle * kept| as real, |oracle - kept| as real);
  }

  lemma MissedShare(n: real, kept: real, missed: real)
    requires n > 0.0 && n == kept + missed
    ensures 1.0 - kept / n == missed / n
  {
    assert missed / n == (n - kept) / n == n / n - kept / n;
  }

  lemma RatioOrder(a: nat, b: nat, d: nat)
    requires a <= b && d > 0
    ensures a as real / d as real <= b as real / d as real
  {
  }

  lemma LossShrinks(oracle: set<nat>, small: set<nat>, large: set<nat>)
    requires oracle != {} && small <= large
    ensures Loss(oracle, large) <= Loss(oracle, small)
  {
    SubsetSize(oracle * small, oracle * large);
    RatioOrder(|oracle * small|, |oracle * large|, |oracle|);
  }

  lemma LossOfAll(oracle: set<nat>, kept: set<nat>)
    requires oracle != {} && oracle <= kept
    ensures Loss(oracle, kept) == 0.0
  {
    assert oracle * kept == oracle;
  }

  ghost predicate Answered(oracles: seq<set<nat>>) {
    forall j :: 0 <= j < |oracles| ==> oracles[j] != {}
  }

  ghost function TotalLoss(oracles: seq<set<nat>>, kept: seq<set<nat>>): real
    requires |oracles| == |kept| && Answered(oracles)
  {
    if oracles == [] then 0.0
    else
      var n := |oracles| - 1;
      TotalLoss(oracles[..n], kept[..n]) + Loss(oracles[n], kept[n])
  }

  /** The empirical risk: the mean loss over the calibration queries. */
  ghost function MeanLoss(oracles: seq<set<nat>>, kept: seq<set<nat>>): real
    requires |oracles| == |kept| > 0 && Answered(oracles)
  {
    TotalLoss(oracles, kept) / |oracles| as real
  }

  ghost predicate Within(small: seq<set<nat>>, large: seq<set<nat>>)
    requires |small| == |large|
  {
    forall j :: 0 <= j < |small| ==> small[j] <= large[j]
  }

  lemma {:induction false} TotalShrinks(oracles: seq<set<nat>>, small: seq<set<nat>>, large: seq<set<nat>>)
    requires |oracles| == |small| == |large| && Answered(oracles) && Within(small, large)
    ensures TotalLoss(oracles, large) <= TotalLoss(oracles, small)
  {
    if oracles == [] {
    } else {
      var n := |oracles| - 1;
      TotalShrinks(oracles[..n], small[..n], large[..n]);
      LossShrinks(oracles[n], small[n], large[n]);
    }
  }

  lemma {:induction false} TotalOfAll(oracles: seq<set<nat>>, kept: seq<set<nat>>)
    requires |oracles| == |kept| && Answered(oracles) && Within(oracles, kept)
    ensures TotalLoss(oracles, kept) == 0.0
  {
    if oracles == [] {
    } else {
      var n := |oracles| - 1;
      TotalOfAll(oracles[..n], kept[..n]);
      LossOfAll(oracles[n], kept[n]);
    }
  }

  lemma QuotientOrder(a: real, b: real, d: real)
    requires a <= b && d > 0.0
    ensures a / d <= b / d
  {
    assert b / d - a / d == (b - a) / d;
  }

  /** Larger candidate sets never raise the empirical risk. */
  lemma RiskShrinks(oracles: seq<set<nat>>, small: seq<set<nat>>, large: seq<set<nat>>)
    requires |oracles| == |small| == |large| > 0 && Answered(oracles) && Within(small, large)
    ensures MeanLoss(oracles, large) <= MeanLoss(oracles, small)
  {
    TotalShrinks(oracles, small, large);
    QuotientOrder(TotalLoss(oracles, large), TotalLoss(oracles, small), |oracles| as real);
  }

  /** A family that covers every exact answer has no risk at all. */
  lemma RiskOfAll(oracles: seq<set<nat>>, kept: seq<set<nat>>)
    requires |oracles| == |kept| > 0 && Answered(oracles) && Within(oracles, kept)
    ensures MeanLoss(oracles, kept) == 0.0
  {
    TotalOfAll(oracles, kept);
  }

  // -- selecting from a risk table ---------------------------------------------------

  /** The empirical risks of a nested family whose last member covers every answer. */
  ghost predicate RiskTable(oracles: seq<set<nat>>, family: seq<seq<set<nat>>>, risks: seq<real>) {
    && |oracles| > 0 && Answered(oracles) && |family| == |risks| > 0
    && (forall g :: 0 <= g < |family| ==> |family[g]| == |oracles| && risks[g] == MeanLoss(oracles, family[g]))
    && (forall g, h :: 0 <= g <= h < |family| ==> Within(family[g], family[h]))
    && Within(oracles, family[|family| - 1])
  }

  /** On such a table the scan finds a member exactly when the slack alone fits, and then
      the members that control the risk are exactly the chosen one and the larger ones. */
  lemma TableSelection(oracles: seq<set<nat>>, family: seq<seq<set<nat>>>, risks: seq<real>,
                       slack: real, alpha: real)
    requires RiskTable(oracles, family, risks)
    ensures NonIncreasing(risks)
    ensures Controls(risks[|risks| - 1], |oracles|, slack, alpha) <==> slack <= alpha
  {
    RiskOfAll(oracles, family[|family| - 1]);
    forall g, h | 0 <= g <= h < |risks|
      ensures risks[h] <= risks[g]
    {
      RiskShrinks(oracles, family[g], family[h]);
    }
  }

  // -- radii ---------------------------------------------------------------------------

  /** Everything at most `limit` away, ties at the limit included. */
  ghost function Radius(key: seq<real>, c: set<nat>, limit: real): set<nat> {
    set i | i in c && KeyAt(key, i) <= limit
  }

  /** The `m`-th smallest key of `c`. */
  ghost function Kth(key: seq<real>, c: set<nat>, m: nat): real
    requires 1 <= m <= |c|
  {
    var s := Listing(key, c);
    DistinctSize(s);
    KeyAt(key, s[m - 1])
  }

  /** A radius that reaches the `m`-th smallest key holds the whole size-`m` shortlist. */
  lemma RadiusHoldsTop(key: seq<real>, c: set<nat>, m: nat, limit: real)
    requires 1 <= m <= |c| && Kth(key, c, m) <= limit
    ensures Top(key, c, m) <= Radius(key, c, limit)
  {
    var s := Listing(key, c);
    DistinctSize(s);
    forall i | i in Top(key, c, m)
      ensures i in Radius(key, c, limit)
    {
      assert i in SetOf(s);
      var p :| 0 <= p < |s| && s[p] == i;
      PositionIsRank(key, s, p);
    }
  }

  /** Any listing of the `m` best ends at the `m`-th smallest key. */
  lemma LastIsKth(key: seq<real>, c: set<nat>, m: nat, s: seq<nat>)
    requires 1 <= m <= |c| && Lists(key, c, m, s)
    ensures |s| == m && KeyAt(key, s[m - 1]) == Kth(key, c, m)
  {
    var t := Listing(key, c);
    DistinctSize(t);
    PrefixLists(key, t, m);
    ListingUnique(key, s, t[..m]);
  }

  // -- grids -----------------------------------------------------------------------

  /** Doubling from `m` up to the corpus, which is always the last point. */
  function SizeGrid(m: nat, n: nat): (grid: seq<nat>)
    requires m > 0
    ensures grid != [] && grid[|grid| - 1] == n
    ensures forall g :: 0 <= g < |grid| ==> grid[g] == n || m <= grid[g] < n
    ensures forall g, h :: 0 <= g < h < |grid| ==> grid[g] < grid[h]
    decreases n - m
  {
    if m < n then [m] + SizeGrid(2 * m, n) else [n]
  }

  function NextLambda(lambda: nat): nat {
    var doubled := 2 * (if lambda == 0 then 1 else lambda);
    if doubled > MAX_U32 then MAX_U32 else doubled
  }

  /** Doubling from zero until past the sketch width. */
  function LambdaGrid(lambda: nat, bits: nat): (grid: seq<nat>)
    requires bits < MAX_U32
    ensures grid != [] && grid[0] == lambda && grid[|grid| - 1] > bits
    ensures forall g, h :: 0 <= g < h < |grid| ==> grid[g] < grid[h]
    decreases if lambda > bits then 0 else bits + 1 - lambda
  {
    [lambda] + if lambda > bits then [] else LambdaGrid(NextLambda(lambda), bits)
  }

  function Pow2(n: nat): nat {
    if n == 0 then 1 else 2 * Pow2(n - 1)
  }

  lemma {:induction false} Pow2Shift(m: nat, i: nat)
    ensures 2 * m * Pow2(i) == m * Pow2(i + 1)
  {
    assert Pow2(i + 1) == 2 * Pow2(i);
    assert m * (2 * Pow2(i)) == 2 * m * Pow2(i);
  }

  /** The shortlist grid doubles from its first size; only its last point, the corpus, need not
      be a doubling. */
  lemma {:induction false} SizeGridAt(m: nat, n: nat, i: nat)
    requires m > 0 && i < |SizeGrid(m, n)|
    ensures SizeGrid(m, n)[i] == if i == |SizeGrid(m, n)| - 1 then n else m * Pow2(i)
    decreases i
  {
    if i > 0 {
      SizeGridAt(2 * m, n, i - 1);
      Pow2Shift(m, i - 1);
    }
  }

  /** The lambda grid is 0, 2, 4, 8 and so on, cut at the largest `u32`. */
  lemma {:induction false} LambdaAfterIs(n: nat)
    ensures n > 0 ==> LambdaAfter(n) == if Pow2(n) < MAX_U32 then Pow2(n) else MAX_U32
  {
    if n > 1 {
      LambdaAfterIs(n - 1);
    } else if n == 1 {
      assert LambdaAfter(0) == 0 && Pow2(1) == 2 * Pow2(0);
    }
  }

  lemma {:induction false} LambdaGridAt(n: nat, bits: nat, i: nat)
    requires bits < MAX_U32 && i < |LambdaGrid(LambdaAfter(n), bits)|
    ensures LambdaGrid(LambdaAfter(n), bits)[i] == LambdaAfter(n + i)
    decreases i
  {
    hide NextLambda;
    if i > 0 {
      assert LambdaAfter(n + 1) == NextLambda(LambdaAfter(n));
      LambdaGridAt(n + 1, bits, i - 1);
    }
  }

  /** What the grid loop holds after `n` rounds. */
  function LambdaAfter(n: nat): nat {
    if n == 0 then 0 else NextLambda(LambdaAfter(n - 1))
  }

  lemma {:induction false} LambdaBounds(n: nat, bits: nat)
    ensures LambdaAfter(n) <= MAX_U32
    ensures bits < MAX_U32 ==> LambdaAfter(n) > bits || LambdaAfter(n) >= n
  {
    if n == 0 {
    } else {
      LambdaBounds(n - 1, bits);
    }
  }

  /** The saturating loop ever passes the sketch width exactly when the width is below the
      largest `u32`; for any other width it pushes that value for ever. */
  lemma GridEndsIff(bits: nat)
    ensures (exists n: nat :: LambdaAfter(n) > bits) <==> bits < MAX_U32
  {
    LambdaBounds(bits + 1, bits);
    if exists n: nat :: LambdaAfter(n) > bits {
      var n: nat :| LambdaAfter(n) > bits;
      LambdaBounds(n, bits);
    }
  }

  function Saturating(a: nat): (r: nat)
    ensures r <= a && r <= MAX_U32 && (r == a || r == MAX_U32)
  {
    if a > MAX_U32 then MAX_U32 else a
  }

  // -- what the two query rules keep ---------------------------------------------------

  ghost function Exact(t: Tier, embeddings: seq<seq<real>>, q: seq<real>, k: nat): set<nat> {
    Top(ScoreKey(t, embeddings, q), AllIds(|embeddings|), k)
  }

  ghost function Shortlist(t: Tier, sketches: seq<seq<bool>>, q: seq<real>, m: nat): set<nat> {
    Top(HammingKey(sketches, t.sketchOf(q)), AllIds(|sketches|), m)
  }

  /** The shortlist is at least `k` and at most the corpus. */
  function ShortlistSize(k: nat, shortlist: nat, n: nat): (size: nat)
    ensures size <= n && (k >= n || shortlist >= n ==> size == n)
    ensures k < n && shortlist < n ==> size >= k && size >= shortlist && (size == k || size == shortlist)
  {
    var wanted := if shortlist < k then k else shortlist;
    if wanted < n then wanted else n
  }

  function ClampedK(k: nat, n: nat): (m: nat)
    ensures m <= k && m <= n && (m == k || m == n)
  {
    if k < n then k else n
  }

  /** Everything within the query's own k-th sketch distance plus `lambda`. */
  ghost function Adaptive(t: Tier, sketches: seq<seq<bool>>, q: seq<real>, k: nat, lambda: nat): set<nat>
    requires k > 0 && sketches != []
  {
    AllIdsSize(|sketches|);
    var key, all := HammingKey(sketches, t.sketchOf(q)), AllIds(|sketches|);
    var dk := Kth(key, all, ClampedK(k, |sketches|)).Floor;
    Radius(key, all, Saturating(if dk + lambda < 0 then 0 else dk + lambda) as real)
  }

  ghost function ExactSets(t: Tier, embeddings: seq<seq<real>>, qs: seq<seq<real>>, k: nat): seq<set<nat>> {
    seq(|qs|, j requires 0 <= j < |qs| => Exact(t, embeddings, qs[j], k))
  }

  ghost function ShortlistSets(t: Tier, sketches: seq<seq<bool>>, qs: seq<seq<real>>, m: nat): seq<set<nat>> {
    seq(|qs|, j requires 0 <= j < |qs| => Shortlist(t, sketches, qs[j], m))
  }

  ghost function AdaptiveSets(t: Tier, sketches: seq<seq<bool>>, qs: seq<seq<real>>, k: nat, lambda: nat): seq<set<nat>>
    requires k > 0 && sketches != []
  {
    seq(|qs|, j requires 0 <= j < |qs| => Adaptive(t, sketches, qs[j], k, lambda))
  }

  // -- the two nested families -----------------------------------------------------------

  lemma ExactNonEmpty(t: Tier, embeddings: seq<seq<real>>, qs: seq<seq<real>>, k: nat)
    requires k > 0 && embeddings != []
    ensures Answered(ExactSets(t, embeddings, qs, k))
  {
    AllIdsSize(|embeddings|);
    forall j | 0 <= j < |qs|
      ensures Exact(t, embeddings, qs[j], k) != {}
    {
      TopSize(ScoreKey(t, embeddings, qs[j]), AllIds(|embeddings|), k);
    }
  }

  lemma ShortlistOfAll(t: Tier, sketches: seq<seq<bool>>, q: seq<real>, m: nat)
    requires m >= |sketches|
    ensures Shortlist(t, sketches, q, m) == AllIds(|sketches|)
  {
    AllIdsSize(|sketches|);
    TopOfAll(HammingKey(sketches, t.sketchOf(q)), AllIds(|sketches|), m);
  }

  lemma KeyIsDistance(sketches: seq<seq<bool>>, query: seq<bool>, i: nat)
    requires i < |sketches|
    ensures KeyAt(HammingKey(sketches, query), i) == Hamming(query, sketches[i]) as real
    ensures 0.0 <= KeyAt(HammingKey(sketches, query), i) <= |query| as real
    ensures KeyAt(HammingKey(sketches, query), i).Floor as real == KeyAt(HammingKey(sketches, query), i)
  {
  }

  /** The k-th distance is one of the distances. */
  lemma KthIsDistance(sketches: seq<seq<bool>>, query: seq<bool>, m: nat)
    requires 1 <= m <= |sketches|
    ensures |AllIds(|sketches|)| == |sketches|
    ensures 0.0 <= Kth(HammingKey(sketches, query), AllIds(|sketches|), m) <= |query| as real
    ensures var d := Kth(HammingKey(sketches, query), AllIds(|sketches|), m); d.Floor as real == d
  {
    AllIdsSize(|sketches|);
    var s := Listing(HammingKey(sketches, query), AllIds(|sketches|));
    DistinctSize(s);
    assert s[m - 1] in SetOf(s);
    KeyIsDistance(sketches, query, s[m - 1]);
  }

  lemma ShortlistGrows(t: Tier, sketches: seq<seq<bool>>, q: seq<real>, small: nat, large: nat)
    requires small <= large
    ensures Shortlist(t, sketches, q, small) <= Shortlist(t, sketches, q, large)
  {
    TopNested(HammingKey(sketches, t.sketchOf(q)), AllIds(|sketches|), small, large);
  }

  lemma AdaptiveGrows(t: Tier, sketches: seq<seq<bool>>, q: seq<real>, k: nat, small: nat, large: nat)
    requires k > 0 && sketches != [] && small <= large
    ensures Adaptive(t, sketches, q, k, small) <= Adaptive(t, sketches, q, k, large)
  {
    AllIdsSize(|sketches|);
  }

  /** Past the sketch width the radius holds the whole corpus. */
  lemma AdaptiveOfAll(t: Tier, sketches: seq<seq<bool>>, q: seq<real>, k: nat, lambda: nat)
    requires SoundTier(t) && |q| == t.dim && k > 0 && sketches != [] && lambda > t.bits
    ensures Adaptive(t, sketches, q, k, lambda) == AllIds(|sketches|)
  {
    KthIsDistance(sketches, t.sketchOf(q), ClampedK(k, |sketches|));
    forall i | i in AllIds(|sketches|)
      ensures i in Adaptive(t, sketches, q, k, lambda)
    {
      KeyIsDistance(sketches, t.sketchOf(q), i);
    }
  }

  /** At every lambda the adaptive candidates include the fixed shortlist of size `k`. */
  lemma AdaptiveHoldsShortlist(t: Tier, sketches: seq<seq<bool>>, q: seq<real>, k: nat, lambda: nat)
    requires SoundTier(t) && |q| == t.dim && k > 0 && sketches != []
    ensures Shortlist(t, sketches, q, ClampedK(k, |sketches|)) <= Adaptive(t, sketches, q, k, lambda)
  {
    var m := ClampedK(k, |sketches|);
    var key, all := HammingKey(sketches, t.sketchOf(q)), AllIds(|sketches|);
    KthIsDistance(sketches, t.sketchOf(q), m);
    var dk := Kth(key, all, m);
    RadiusHoldsTop(key, all, m, Saturating(dk.Floor + lambda) as real);
  }

  // -- consequences for answers -----------------------------------------------------------

  /** The loss measured on the answers of the pipeline is the loss of its shortlist. */
  lemma PipelineLoss(t: Tier, embeddings: seq<seq<real>>, sketches: seq<seq<bool>>, q: seq<real>, k: nat, m: nat,
                     got: seq<Hit>)
    requires k > 0 && embeddings != [] && |sketches| == |embeddings|
    requires Ranks(ScoreKey(t, embeddings, q), Shortlist(t, sketches, q, m), k, got)
    ensures Exact(t, embeddings, q, k) != {}
    ensures Exact(t, embeddings, q, k) * SetOf(Ids(got)) == Exact(t, embeddings, q, k) * Shortlist(t, sketches, q, m)
    ensures Loss(Exact(t, embeddings, q, k), SetOf(Ids(got)))
         == Loss(Exact(t, embeddings, q, k), Shortlist(t, sketches, q, m))
  {
    ExactNonEmpty(t, embeddings, [q], k);
    assert ExactSets(t, embeddings, [q], k)[0] == Exact(t, embeddings, q, k);
    HitsAreKept(ScoreKey(t, embeddings, q), AllIds(|embeddings|), Shortlist(t, sketches, q, m), k);
  }

  /** The same for the adaptive rule: the loss its calibration measures is the loss of
      its answers. */
  lemma AdaptiveLoss(t: Tier, embeddings: seq<seq<real>>, sketches: seq<seq<bool>>, q: seq<real>, k: nat, lambda: nat,
                     got: seq<Hit>)
    requires k > 0 && embeddings != [] && |sketches| == |embeddings|
    requires Ranks(ScoreKey(t, embeddings, q), Adaptive(t, sketches, q, k, lambda), k, got)
    ensures Exact(t, embeddings, q, k) != {}
    ensures Loss(Exact(t, embeddings, q, k), SetOf(Ids(got)))
         == Loss(Exact(t, embeddings, q, k), Adaptive(t, sketches, q, k, lambda))
  {
    ExactNonEmpty(t, embeddings, [q], k);
    assert ExactSets(t, embeddings, [q], k)[0] == Exact(t, embeddings, q, k);
    HitsAreKept(ScoreKey(t, embeddings, q), AllIds(|embeddings|), Adaptive(t, sketches, q, k, lambda), k);
    assert Exact(t, embeddings, q, k) * SetOf(Ids(got))
        == Exact(t, embeddings, q, k) * Adaptive(t, sketches, q, k, lambda);
  }

  /** Answers drawn from more candidates are at least as good, place by place. */
  lemma MoreCandidatesBetter(key: seq<real>, small: set<nat>, large: set<nat>, k: nat, few: seq<Hit>, many: seq<Hit>)
    requires small <= large && Ranks(key, small, k, few) && Ranks(key, large, k, many)
    ensures |few| <= |many| && forall p :: 0 <= p < |few| ==> few[p].score <= many[p].score
  {
    LargerSetDominates(key, small, large, k, Ids(few), Ids(many));
    assert forall p :: 0 <= p < |few| ==> few[p].id == Ids(few)[p];
    assert forall p :: 0 <= p < |many| ==> many[p].id == Ids(many)[p];
  }

  /** The adaptive rule never ranks worse than the fixed shortlist of size `k`, at any
      lambda, and past the sketch width it is the exact ranking. */
  lemma AdaptiveNeverWorse(t: Tier, embeddings: seq<seq<real>>, sketches: seq<seq<bool>>, q: seq<real>,
                           k: nat, lambda: nat, fixed: seq<Hit>, adaptive: seq<Hit>)
    requires SoundTier(t) && |q| == t.dim && k > 0 && embeddings != [] && |sketches| == |embeddings|
    requires Ranks(ScoreKey(t, embeddings, q), Shortlist(t, sketches, q, ClampedK(k, |sketches|)), k, fixed)
    requires Ranks(ScoreKey(t, embeddings, q), Adaptive(t, sketches, q, k, lambda), k, adaptive)
    ensures |fixed| <= |adaptive| && forall p :: 0 <= p < |fixed| ==> fixed[p].score <= adaptive[p].score
    ensures lambda > t.bits ==> Ranks(ScoreKey(t, embeddings, q), AllIds(|embeddings|), k, adaptive)
  {
    AdaptiveHoldsShortlist(t, sketches, q, k, lambda);
    MoreCandidatesBetter(ScoreKey(t, embeddings, q), Shortlist(t, sketches, q, ClampedK(k, |sketches|)),
                         Adaptive(t, sketches, q, k, lambda), k, fixed, adaptive);
    if lambda > t.bits {
      AdaptiveOfAll(t, sketches, q, k, lambda);
    }
  }

  /** The ranking of a candidate set is one definite list. */
  lemma RankingUnique(key: seq<real>, c: set<nat>, k: nat, a: seq<Hit>, b: seq<Hit>)
    requires Ranks(key, c, k, a) && Ranks(key, c, k, b)
    ensures a == b
  {
    ListingUnique(key, Ids(a), Ids(b));
    forall p | 0 <= p < |a|
      ensures a[p] == b[p]
    {
      assert Ids(a)[p] == Ids(b)[p];
    }
  }

  // -- the risk tables of the two calibrations ------------------------------------------------

  ghost function ShortlistFamily(t: Tier, sketches: seq<seq<bool>>, qs: seq<seq<real>>, grid: seq<nat>): seq<seq<set<nat>>> {
    seq(|grid|, g requires 0 <= g < |grid| => ShortlistSets(t, sketches, qs, grid[g]))
  }

  ghost function AdaptiveFamily(t: Tier, sketches: seq<seq<bool>>, qs: seq<seq<real>>, k: nat, grid: seq<nat>): seq<seq<set<nat>>>
    requires k > 0 && sketches != []
  {
    seq(|grid|, g requires 0 <= g < |grid| => AdaptiveSets(t, sketches, qs, k, grid[g]))
  }

  lemma ShortlistTable(t: Tier, embeddings: seq<seq<real>>, sketches: seq<seq<bool>>, qs: seq<seq<real>>, k: nat,
                       grid: seq<nat>, risks: seq<real>)
    requires k > 0 && embeddings != [] && |sketches| == |embeddings| && qs != []
    requires grid == SizeGrid(k, |sketches|) && |risks| == |grid|
    requires Answered(ExactSets(t, embeddings, qs, k))
    requires forall g :: 0 <= g < |grid| ==>
      risks[g] == MeanLoss(ExactSets(t, embeddings, qs, k), ShortlistSets(t, sketches, qs, grid[g]))
    ensures RiskTable(ExactSets(t, embeddings, qs, k), ShortlistFamily(t, sketches, qs, grid), risks)
  {
    hide SizeGrid, Exact, MeanLoss, HammingKey, Shortlist;
    var family := ShortlistFamily(t, sketches, qs, grid);
    forall g, h | 0 <= g <= h < |grid|
      ensures Within(family[g], family[h])
    {
      forall j | 0 <= j < |qs|
        ensures Shortlist(t, sketches, qs[j], grid[g]) <= Shortlist(t, sketches, qs[j], grid[h])
      {
        ShortlistGrows(t, sketches, qs[j], grid[g], grid[h]);
      }
    }
    forall j | 0 <= j < |qs|
      ensures ExactSets(t, embeddings, qs, k)[j] <= family[|grid| - 1][j]
    {
      ShortlistOfAll(t, sketches, qs[j], |sketches|);
      ExactWithinAll(t, embeddings, qs[j], k);
    }
  }

  lemma ExactWithinAll(t: Tier, embeddings: seq<seq<real>>, q: seq<real>, k: nat)
    ensures Exact(t, embeddings, q, k) <= AllIds(|embeddings|)
  {
  }

  lemma AdaptiveTable(t: Tier, embeddings: seq<seq<real>>, sketches: seq<seq<bool>>, qs: seq<seq<real>>, k: nat,
                      grid: seq<nat>, risks: seq<real>)
    requires SoundTier(t) && k > 0 && embeddings != [] && |sketches| == |embeddings| && qs != []
    requires forall j :: 0 <= j < |qs| ==> |qs[j]| == t.dim
    requires grid == LambdaGrid(0, t.bits) && |risks| == |grid|
    requires Answered(ExactSets(t, embeddings, qs, k))
    requires forall g :: 0 <= g < |grid| ==>
      risks[g] == MeanLoss(ExactSets(t, embeddings, qs, k), AdaptiveSets(t, sketches, qs, k, grid[g]))
    ensures RiskTable(ExactSets(t, embeddings, qs, k), AdaptiveFamily(t, sketches, qs, k, grid), risks)
  {
    hide Exact, MeanLoss, HammingKey, Adaptive;
    var family := AdaptiveFamily(t, sketches, qs, k, grid);
    forall g, h | 0 <= g <= h < |grid|
      ensures Within(family[g], family[h])
    {
      forall j | 0 <= j < |qs|
        ensures Adaptive(t, sketches, qs[j], k, grid[g]) <= Adaptive(t, sketches, qs[j], k, grid[h])
      {
        assert grid[g] <= grid[h];
        AdaptiveGrows(t, sketches, qs[j], k, grid[g], grid[h]);
      }
    }
    hide LambdaGrid;
    forall j | 0 <= j < |qs|
      ensures ExactSets(t, embeddings, qs, k)[j] <= family[|grid| - 1][j]
    {
      AdaptiveOfAll(t, sketches, qs[j], k, grid[|grid| - 1]);
      ExactWithinAll(t, embeddings, qs[j], k);
    }
  }
}
