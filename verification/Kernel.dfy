/** Conformal recall: as many memories as the calibrated radius asks for, and a flag that
    says when that set is complete. The semantic tier is the only store modelled; the
    embedder is a vector argument. */
module Kernel {
  import opened Conformal
  import opened ItemIds
  import opened PrecisionTier
  import opened Ranking
  import opened SketchStore
  import opened Wrappers

  datatype Source = RetrievedCandidate | ExternalGroundTruth

  datatype FeedbackEntry = FeedbackEntry(memory: nat, score: real, relevant: bool, source: Source)

  /** Only independently chosen relevant targets calibrate the radius. */
  function Nonconformity(log: seq<FeedbackEntry>): seq<real> {
    if log == [] then []
    else
      var rest, e := Nonconformity(log[..|log| - 1]), log[|log| - 1];
      if e.relevant && e.source == ExternalGroundTruth then rest + [1.0 - e.score] else rest
  }

  /** `1 - score` within the radius plus the float-noise floor. */
  const SCORE_EPSILON: real := 0.000001

  datatype ConformalRecall = ConformalRecall(
    memories: seq<Hit>, radius: Option<real>, calibrationN: nat, alpha: real, guaranteed: bool)

  function PoolSize(topK: nat): nat {
    if 4 * topK < 16 then 16 else 4 * topK
  }

  function KeepWithin(scored: seq<Hit>, radius: real): (kept: seq<Hit>)
    ensures |kept| <= |scored|
  {
    if scored == [] then []
    else
      var front, last := KeepWithin(scored[..|scored| - 1], radius), scored[|scored| - 1];
      if 1.0 - last.score <= radius + SCORE_EPSILON then front + [last] else front
  }

  /** Every stored memory the radius asks for. */
  ghost function Inside(key: seq<real>, radius: real): set<nat> {
    Radius(key, AllIds(|key|), radius + SCORE_EPSILON - 1.0)
  }

  lemma {:induction false} KeptMembers(scored: seq<Hit>, radius: real, h: Hit)
    ensures h in KeepWithin(scored, radius) <==> h in scored && 1.0 - h.score <= radius + SCORE_EPSILON
  {
    if scored == [] {
    } else {
      KeptMembers(scored[..|scored| - 1], radius, h);
      assert scored == scored[..|scored| - 1] + [scored[|scored| - 1]];
    }
  }

  lemma IdsMember(hits: seq<Hit>, i: nat)
    ensures i in Ids(hits) <==> exists h :: h in hits && h.id == i
  {
    if i in Ids(hits) {
      var p :| 0 <= p < |hits| && Ids(hits)[p] == i;
      assert hits[p] in hits;
    } else {
      forall h | h in hits
        ensures h.id != i
      {
        var p :| 0 <= p < |hits| && hits[p] == h;
        assert Ids(hits)[p] == h.id;
      }
    }
  }

  lemma IdsAppend(hits: seq<Hit>, h: Hit)
    ensures Ids(hits + [h]) == Ids(hits) + [h.id]
  {
  }

  lemma {:induction false} KeptInOrder(key: seq<real>, scored: seq<Hit>, radius: real)
    requires InOrder(key, Ids(scored))
    ensures InOrder(key, Ids(KeepWithin(scored, radius)))
  {
    if scored == [] {
    } else {
      var front, last := scored[..|scored| - 1], scored[|scored| - 1];
      assert Ids(front) == Ids(scored)[..|front|];
      KeptInOrder(key, front, radius);
      var kept := KeepWithin(front, radius);
      forall p | 0 <= p < |kept|
        ensures Before(key, Ids(kept)[p], last.id)
      {
        KeptMembers(front, radius, kept[p]);
        var q :| 0 <= q < |front| && front[q] == kept[p];
        assert Ids(scored)[q] == kept[p].id && Ids(scored)[|front|] == last.id;
      }
      IdsAppend(kept, last);
    }
  }

  /** Whatever is ahead of an inside memory is inside too. */
  lemma InsideIsPrefix(key: seq<real>, radius: real, k: nat)
    ensures Top(key, AllIds(|key|), k) * Inside(key, radius) == Top(key, Inside(key, radius), k)
  {
    var all, inside := AllIds(|key|), Inside(key, radius);
    TopOfSubset(key, all, inside, k);
    forall i | i in Top(key, inside, k)
      ensures i in Top(key, all, k)
    {
      assert Ahead(key, all, i) == Ahead(key, inside, i);
    }
  }

  /** Filtering the pool by the radius leaves the best memories inside it. */
  lemma KeptRanks(key: seq<real>, k: nat, scored: seq<Hit>, radius: real)
    requires Ranks(key, AllIds(|key|), k, scored)
    ensures Ranks(key, Inside(key, radius), k, KeepWithin(scored, radius))
  {
    var kept := KeepWithin(scored, radius);
    KeptInOrder(key, scored, radius);
    InsideIsPrefix(key, radius, k);
    forall p | 0 <= p < |kept|
      ensures kept[p].score == -KeyAt(key, kept[p].id)
    {
      KeptMembers(scored, radius, kept[p]);
    }
    forall i
      ensures i in SetOf(Ids(kept)) <==> i in Top(key, Inside(key, radius), k)
    {
      KeptIds(key, k, scored, radius, i);
    }
  }

  lemma InsideMeans(key: seq<real>, radius: real, i: nat)
    ensures i in Inside(key, radius) <==> i < |key| && 1.0 + KeyAt(key, i) <= radius + SCORE_EPSILON
  {
  }

  lemma KeptIds(key: seq<real>, k: nat, scored: seq<Hit>, radius: real, i: nat)
    requires Ranks(key, AllIds(|key|), k, scored)
    ensures i in Ids(KeepWithin(scored, radius)) <==> i in Top(key, AllIds(|key|), k) && i in Inside(key, radius)
  {
    assert i in Ids(scored) <==> i in SetOf(Ids(scored));
    assert forall p :: 0 <= p < |scored| ==> scored[p].score == -KeyAt(key, scored[p].id);
    assert forall j :: j in Top(key, AllIds(|key|), k) ==> j < |key|;
    InsideMeans(key, radius, i);
    hide Top, Inside, InOrder, AllIds, KeyAt;
    ScoredIds(key, scored, radius, i);
  }

  lemma ScoredIds(key: seq<real>, scored: seq<Hit>, radius: real, i: nat)
    requires forall p :: 0 <= p < |scored| ==> scored[p].score == -KeyAt(key, scored[p].id)
    ensures i in Ids(KeepWithin(scored, radius)) <==> i in Ids(scored) && 1.0 + KeyAt(key, i) <= radius + SCORE_EPSILON
  {
    hide KeyAt, KeepWithin;
    IdsMember(KeepWithin(scored, radius), i);
    IdsMember(scored, i);
    if i in Ids(scored) {
      var h :| h in scored && h.id == i;
      KeptMembers(scored, radius, h);
    }
    if i in Ids(KeepWithin(scored, radius)) {
      var h :| h in KeepWithin(scored, radius) && h.id == i;
      KeptMembers(scored, radius, h);
    }
  }

  lemma RanksSize(key: seq<real>, c: set<nat>, k: nat, hits: seq<Hit>)
    requires Ranks(key, c, k, hits)
    ensures |hits| == if k < |c| then k else |c|
  {
    ListSize(key, c, k, Ids(hits));
    TopSize(key, c, k);
  }

  /** The truncation test is exact: the pool was cut short of the radius only if at least
      a pool of memories lies inside it. */
  lemma TruncationTest(key: seq<real>, k: nat, scored: seq<Hit>, radius: real)
    requires Ranks(key, AllIds(|key|), k, scored)
    ensures (|KeepWithin(scored, radius)| == |scored| && |scored| >= k) <==> |Inside(key, radius)| >= k
  {
    KeptRanks(key, k, scored, radius);
    RanksSize(key, AllIds(|key|), k, scored);
    RanksSize(key, Inside(key, radius), k, KeepWithin(scored, radius));
    SubsetSize(Inside(key, radius), AllIds(|key|));
  }

  /** The recall is complete exactly when the radius holds no more than a pool. */
  lemma CompleteIffPoolHolds(key: seq<real>, k: nat, radius: real, memories: seq<Hit>)
    requires Ranks(key, Inside(key, radius), k, memories)
    ensures SetOf(Ids(memories)) == Inside(key, radius) <==> |Inside(key, radius)| <= k
  {
    TopSize(key, Inside(key, radius), k);
    if |Inside(key, radius)| <= k {
      TopOfAll(key, Inside(key, radius), k);
    }
  }

  /** What a recall promises about the semantic tier. */
  ghost predicate Recalled(key: seq<real>, topK: nat, scores: seq<real>, alpha: real, r: ConformalRecall)
  {
    && r.radius == Quantile(scores, alpha) && r.calibrationN == |scores| && r.alpha == alpha
    && (r.radius.None? ==> !r.guaranteed && Ranks(key, AllIds(|key|), topK, r.memories))
    && (r.radius.Some? ==>
          && Ranks(key, Inside(key, r.radius.value), PoolSize(topK), r.memories)
          && (r.guaranteed <==> |Inside(key, r.radius.value)| < PoolSize(topK)))
  }

  /** How many stored memories the radius asks for, up to a millionth of float noise. */
  ghost function Within(t: Tier, embeddings: seq<seq<real>>, query: seq<real>, radius: real): set<nat> {
    set i: nat | i < |embeddings| && 1.0 - t.score(embeddings[i], query) <= radius + 0.000001
  }

  /** A recall, written out: every returned memory has its own score and lies within the
      radius plus a millionth; memories come best first; and the recall is guaranteed exactly
      when there is a radius and fewer than 16, or fewer than four times `topK`, stored
      memories lie inside it. */
  ghost predicate RecallWritten(t: Tier, embeddings: seq<seq<real>>, query: seq<real>, topK: nat, r: ConformalRecall) {
    && (forall p :: 0 <= p < |r.memories| ==>
          r.memories[p].id < |embeddings| && r.memories[p].score == t.score(embeddings[r.memories[p].id], query))
    && (forall p, q :: 0 <= p < q < |r.memories| ==>
          && r.memories[p].id != r.memories[q].id
          && r.memories[p].score >= r.memories[q].score)
    && (r.radius.None? ==> !r.guaranteed && |r.memories| == if topK < |embeddings| then topK else |embeddings|)
    && (r.radius.Some? ==>
          && (forall p :: 0 <= p < |r.memories| ==> 1.0 - r.memories[p].score <= r.radius.value + 0.000001)
          && var inside := Within(t, embeddings, query, r.radius.value);
             && (r.guaranteed <==> |inside| < 16 || |inside| < 4 * topK)
             && (r.guaranteed ==> forall i :: i in inside ==> i in Ids(r.memories)))
  }

  lemma RecalledWritten(t: Tier, embeddings: seq<seq<real>>, query: seq<real>, topK: nat, scores: seq<real>, alpha: real, r: ConformalRecall)
    requires Recalled(ScoreKey(t, embeddings, query), topK, scores, alpha, r)
    ensures RecallWritten(t, embeddings, query, topK, r)
  {
    hide Quantile;
    var key := ScoreKey(t, embeddings, query);
    AllIdsSize(|key|);
    var c, k := if r.radius.None? then AllIds(|key|) else Inside(key, r.radius.value), if r.radius.None? then topK else PoolSize(topK);
    RanksSize(key, c, k, r.memories);
    RankedScores(t, embeddings, query, c, k, r.memories);
    if r.radius.Some? {
      assert Inside(key, r.radius.value) == Within(t, embeddings, query, r.radius.value);
      if r.guaranteed {
        GuaranteedIsComplete(key, topK, scores, alpha, r);
        assert forall i :: i in SetOf(Ids(r.memories)) <==> i in Ids(r.memories);
      }
    }
  }

  lemma RankedScores(t: Tier, embeddings: seq<seq<real>>, query: seq<real>, c: set<nat>, k: nat, hits: seq<Hit>)
    requires Ranks(ScoreKey(t, embeddings, query), c, k, hits) && c <= AllIds(|embeddings|)
    ensures forall p :: 0 <= p < |hits| ==>
      hits[p].id in c && hits[p].id < |embeddings| && hits[p].score == t.score(embeddings[hits[p].id], query)
    ensures forall p, q :: 0 <= p < q < |hits| ==> hits[p].id != hits[q].id && hits[p].score >= hits[q].score
  {
    BestScoredWritten(t, embeddings, query, c, k, hits);
  }

  /** A guaranteed recall is exactly every memory within the radius, ranked. */
  lemma GuaranteedIsComplete(key: seq<real>, topK: nat, scores: seq<real>, alpha: real, r: ConformalRecall)
    requires Recalled(key, topK, scores, alpha, r) && r.guaranteed
    ensures InOrder(key, Ids(r.memories)) && SetOf(Ids(r.memories)) == Inside(key, r.radius.value)
  {
    CompleteIffPoolHolds(key, PoolSize(topK), r.radius.value, r.memories);
  }

  /** Leave-one-out: hold any target out of its own calibration list. Whenever the recall
      is guaranteed and the target is covered, the recall returns it. By
      `LeaveOneOutCoverage` at least ceil((n + 1)(1 - alpha)) of the targets are covered. */
  lemma CoveredTargetReturned(key: seq<real>, topK: nat, all: seq<real>, i: nat, target: nat, alpha: real, r: ConformalRecall)
    requires i < |all| && Covered(all, alpha, i) && target < |key| && all[i] == 1.0 + KeyAt(key, target)
    requires Recalled(key, topK, Without(all, i), alpha, r) && r.guaranteed
    ensures target in Ids(r.memories)
  {
    GuaranteedIsComplete(key, topK, Without(all, i), alpha, r);
    assert target in Inside(key, r.radius.value);
    assert target in SetOf(Ids(r.memories));
  }

  function Labels(scored: seq<Hit>, indices: seq<nat>, verdict: bool): seq<FeedbackEntry> {
    if indices == [] then []
    else
      var front, i := Labels(scored, indices[..|indices| - 1], verdict), indices[|indices| - 1];
      if i < |scored| then front + [FeedbackEntry(scored[i].id, scored[i].score, verdict, RetrievedCandidate)] else front
  }

  /** One label for each in-range index, in order, on the memory and score recalled there. */
  lemma {:induction false} LabelsMean(scored: seq<Hit>, a: seq<nat>, b: seq<nat>, i: nat, verdict: bool)
    ensures Labels(scored, a + b, verdict) == Labels(scored, a, verdict) + Labels(scored, b, verdict)
    ensures Labels(scored, [i], verdict) ==
      if i < |scored| then [FeedbackEntry(scored[i].id, scored[i].score, verdict, RetrievedCandidate)] else []
  {
    assert [i][..0] == [];
    if b == [] {
      assert a + b == a;
    } else {
      assert (a + b)[..|a + b| - 1] == a + b[..|b| - 1];
      LabelsMean(scored, a, b[..|b| - 1], i, verdict);
    }
  }

  /** The calibration scores, in order, are those of the independently chosen relevant targets. */
  lemma {:induction false} NonconformityMeans(a: seq<FeedbackEntry>, b: seq<FeedbackEntry>, e: FeedbackEntry)
    ensures Nonconformity(a + b) == Nonconformity(a) + Nonconformity(b)
    ensures Nonconformity([e]) == if e.relevant && e.source.ExternalGroundTruth? then [1.0 - e.score] else []
  {
    assert [e][..0] == [];
    if b == [] {
      assert a + b == a;
    } else {
      assert (a + b)[..|a + b| - 1] == a + b[..|b| - 1];
      NonconformityMeans(a, b[..|b| - 1], e);
    }
  }

  lemma LabelIgnored(log: seq<FeedbackEntry>, e: FeedbackEntry)
    requires e.source == RetrievedCandidate
    ensures Nonconformity(log + [e]) == Nonconformity(log)
  {
    assert (log + [e])[..|log|] == log;
  }

  /** Labels on retrieved candidates never move the radius. */
  lemma {:induction false} LabelsDoNotCalibrate(log: seq<FeedbackEntry>, scored: seq<Hit>, indices: seq<nat>, verdict: bool)
    ensures Nonconformity(log + Labels(scored, indices, verdict)) == Nonconformity(log)
  {
    hide Nonconformity;
    if indices == [] {
      assert log + [] == log;
    } else {
      var front, i := indices[..|indices| - 1], indices[|indices| - 1];
      LabelsDoNotCalibrate(log, scored, front, verdict);
      if i < |scored| {
        var e := FeedbackEntry(scored[i].id, scored[i].score, verdict, RetrievedCandidate);
        LabelIgnored(log + Labels(scored, front, verdict), e);
        assert log + Labels(scored, indices, verdict) == log + Labels(scored, front, verdict) + [e];
      }
    }
  }

  class MemoryKernel {
    const semantic: SketchIndex
    var topK: nat
    var lastRecall: Option<(seq<real>, seq<Hit>)>
    var feedback: seq<FeedbackEntry>

    constructor (semantic: SketchIndex, topK: nat)
      ensures this.semantic == semantic && this.topK == topK && lastRecall == None && feedback == []
    {
      this.semantic, this.topK, lastRecall, feedback := semantic, topK, None, [];
    }

    /** Exact scored recall: the shortlist covers the whole tier. */
    method SemanticScored(query: seq<real>, k: nat) returns (scored: seq<Hit>)
      requires semantic.Valid() && |query| == semantic.tier.dim && k > 0
      ensures Ranks(ScoreKey(semantic.tier, semantic.embeddings, query), AllIds(|semantic.embeddings|), k, scored)
    {
      var n := |semantic.embeddings|;
      scored := semantic.NearestIds(query, k, if n < k then k else n);
      if n > 0 {
        ShortlistOfAll(semantic.tier, semantic.sketches, query, n);
      }
    }

    method RecallSet(query: seq<real>, alpha: real) returns (result: Result<ConformalRecall, string>)
      requires semantic.Valid() && 0.0 < alpha < 1.0
      modifies this
      ensures topK == old(topK) && feedback == old(feedback)
      ensures result.Err? <==> |query| != semantic.tier.dim
      ensures result.Err? ==> lastRecall == old(lastRecall)
      ensures result.Ok? ==>
        && Recalled(ScoreKey(semantic.tier, semantic.embeddings, query), topK, Nonconformity(feedback), alpha, result.value)
        && lastRecall.Some? && lastRecall.value.0 == query
        && Ranks(ScoreKey(semantic.tier, semantic.embeddings, query), AllIds(|semantic.embeddings|), PoolSize(topK),
                 lastRecall.value.1)
      ensures result.Ok? ==>
        && RecallWritten(semantic.tier, semantic.embeddings, query, topK, result.value)
        && IsQuantile(Nonconformity(feedback), alpha, result.value.radius)
    {
      if |query| != semantic.tier.dim {
        return Err("embedding dimension");
      }
      var scores := Nonconformity(feedback);
      var radius := ConformalQuantile(scores, alpha);
      var scored := SemanticScored(query, PoolSize(topK));
      lastRecall := Some((query, scored));
      ghost var key := ScoreKey(semantic.tier, semantic.embeddings, query);
      hide Quantile, Inside, ScoreKey, RecallWritten, IsQuantile;
      if radius.Some? {
        var kept := KeepWithin(scored, radius.value);
        var truncated := |kept| == |scored| && |scored| >= PoolSize(topK);
        KeptRanks(key, PoolSize(topK), scored, radius.value);
        TruncationTest(key, PoolSize(topK), scored, radius.value);
        result := Ok(ConformalRecall(kept, radius, |scores|, alpha, !truncated));
        RecalledWritten(semantic.tier, semantic.embeddings, query, topK, scores, alpha, result.value);
        return result;
      }
      var first := scored[..if topK < |scored| then topK else |scored|];
      FirstOfRanking(key, PoolSize(topK), topK, scored);
      result := Ok(ConformalRecall(first, None, |scores|, alpha, false));
      RecalledWritten(semantic.tier, semantic.embeddings, query, topK, scores, alpha, result.value);
    }

    /** Labels entries of the last recall; indices past its end are ignored. */
    method Feedback(relevant: seq<nat>, irrelevant: seq<nat>) returns (recorded: nat)
      modifies this`feedback
      ensures lastRecall.None? ==> recorded == 0 && feedback == old(feedback)
      ensures lastRecall.Some? ==>
        && feedback == old(feedback) + Labels(lastRecall.value.1, relevant, true) + Labels(lastRecall.value.1, irrelevant, false)
        && recorded == |feedback| - |old(feedback)|
      ensures Nonconformity(feedback) == Nonconformity(old(feedback))
    {
      if lastRecall.None? {
        return 0;
      }
      var scored := lastRecall.value.1;
      var before := |feedback|;
      LabelsDoNotCalibrate(feedback, scored, relevant, true);
      LabelsDoNotCalibrate(feedback + Labels(scored, relevant, true), scored, irrelevant, false);
      feedback := feedback + Labels(scored, relevant, true);
      feedback := feedback + Labels(scored, irrelevant, false);
      recorded := |feedback| - before;
    }

    /** The only channel that calibrates: independently chosen targets. */
    method RecordRecallGroundTruth(memory: nat, score: real, relevant: bool) returns (ok: bool)
      modifies this`feedback
      ensures ok <==> -1.0 <= score <= 1.0
      ensures !ok ==> feedback == old(feedback)
      ensures ok ==> Nonconformity(feedback) == Nonconformity(old(feedback)) + if relevant then [1.0 - score] else []
    {
      ok := -1.0 <= score <= 1.0;
      if ok {
        feedback := feedback + [FeedbackEntry(memory, score, relevant, ExternalGroundTruth)];
      }
    }
  }

  lemma FirstOfRanking(key: seq<real>, pool: nat, k: nat, scored: seq<Hit>)
    requires Ranks(key, AllIds(|key|), pool, scored) && k <= pool
    ensures Ranks(key, AllIds(|key|), k, scored[..if k < |scored| then k else |scored|])
  {
    var m := if k < |scored| then k else |scored|;
    assert Ids(scored[..m]) == Ids(scored)[..m];
    PrefixLists(key, Ids(scored), k);
    TopOfTop(key, AllIds(|key|), k, pool);
  }
}
