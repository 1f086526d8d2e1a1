/** The hybrid memory: one octree and one sketch index over the same items. */
module HybridMemories {
  import opened Bytes
  import opened Geometry
  import opened ItemIds
  import opened PrecisionTier
  import opened Ranking
  import opened SketchStore
  import opened Wrappers
  import Cells
  import Descent
  import Knn
  import Octree
  import Sorting

  const DEFAULT_SHORTLIST: nat := 256

  datatype QueryStrategy = FastSpatial | PrecisionSketch | HybridCascade

  // -- the candidates of a strategy ------------------------------------------------------

  /** `c` may be what a strategy hands to the exact rerank. Nearest neighbours at equal
      distance are interchangeable, so a spatial strategy has several such sets. */
  ghost predicate Gathered(strategy: QueryStrategy, t: Tier, items: seq<Cells.Item>, sketches: seq<seq<bool>>,
                           point: Point, query: seq<real>, shortlist: nat, c: set<nat>)
  {
    match strategy
    case FastSpatial => exists near :: Descent.IsKNearest(near, shortlist, point, items) && c == Knn.IdSet(near)
    case PrecisionSketch => c == Shortlist(t, sketches, query, ShortlistSize(0, shortlist, |sketches|))
    case HybridCascade =>
      exists near :: Descent.IsKNearest(near, 4 * shortlist, point, items)
        && c == Top(HammingKey(sketches, t.sketchOf(query)), Knn.IdSet(near), shortlist)
  }

  function HitIds(near: seq<Knn.Hit>): (ids: seq<nat>)
    ensures |ids| == |near| && forall j :: 0 <= j < |near| ==> ids[j] == near[j].0
  {
    seq(|near|, j requires 0 <= j < |near| => near[j].0)
  }

  lemma HitIdSet(near: seq<Knn.Hit>)
    ensures SetOf(HitIds(near)) == Knn.IdSet(near)
  {
    forall i | i in SetOf(HitIds(near))
      ensures i in Knn.IdSet(near)
    {
      var j: nat :| j < |near| && HitIds(near)[j] == i;
      assert near[j].0 == i;
    }
    forall i | i in Knn.IdSet(near)
      ensures i in SetOf(HitIds(near))
    {
      var j: nat :| j < |near| && near[j].0 == i;
      assert HitIds(near)[j] == i;
    }
  }

  lemma NearestIds(near: seq<Knn.Hit>, k: nat, point: Point, items: seq<Cells.Item>)
    requires Descent.IsKNearest(near, k, point, items)
    ensures Knn.IdSet(near) <= AllIds(|items|) && |Knn.IdSet(near)| == if k < |items| then k else |items|
    ensures Sorting.Distinct(HitIds(near)) && SetOf(HitIds(near)) == Knn.IdSet(near)
  {
    AllIdsSize(|items|);
    Knn.IdSetSize(near);
    HitIdSet(near);
  }

  /** Every strategy gathers a full shortlist: as many candidates as it may, or all items. */
  lemma GatheredSize(strategy: QueryStrategy, t: Tier, items: seq<Cells.Item>, sketches: seq<seq<bool>>,
                     point: Point, query: seq<real>, shortlist: nat, c: set<nat>)
    requires |items| == |sketches| && Gathered(strategy, t, items, sketches, point, query, shortlist, c)
    ensures c <= AllIds(|items|) && |c| == if shortlist < |items| then shortlist else |items|
  {
    AllIdsSize(|items|);
    hide Descent.IsKNearest, Knn.IdSet;
    match strategy
    case FastSpatial =>
      var near :| Descent.IsKNearest(near, shortlist, point, items) && c == Knn.IdSet(near);
      NearestIds(near, shortlist, point, items);
    case PrecisionSketch =>
      TopSize(HammingKey(sketches, t.sketchOf(query)), AllIds(|sketches|), ShortlistSize(0, shortlist, |sketches|));
    case HybridCascade =>
      var near :| Descent.IsKNearest(near, 4 * shortlist, point, items)
        && c == Top(HammingKey(sketches, t.sketchOf(query)), Knn.IdSet(near), shortlist);
      NearestIds(near, 4 * shortlist, point, items);
      TopSize(HammingKey(sketches, t.sketchOf(query)), Knn.IdSet(near), shortlist);
  }

  /** `hits` may be the answer of a strategy. */
  ghost predicate Answers(strategy: QueryStrategy, t: Tier, items: seq<Cells.Item>, embeddings: seq<seq<real>>,
                          sketches: seq<seq<bool>>, point: Point, query: seq<real>, shortlist: nat, k: nat, hits: seq<Hit>)
  {
    exists c :: Gathered(strategy, t, items, sketches, point, query, shortlist, c)
      && Ranks(ScoreKey(t, embeddings, query), c, k, hits)
  }

  lemma CascadeAnswers(t: Tier, items: seq<Cells.Item>, embeddings: seq<seq<real>>, sketches: seq<seq<bool>>, point: Point,
                       query: seq<real>, shortlist: nat, k: nat, broad: set<nat>, pruned: set<nat>, hits: seq<Hit>)
    requires exists near :: Descent.IsKNearest(near, 4 * shortlist, point, items) && broad == Knn.IdSet(near)
    requires broad <= AllIds(|embeddings|) && pruned == Top(HammingKey(sketches, t.sketchOf(query)), broad, shortlist)
    requires Ranks(ScoreKey(t, embeddings, query), pruned * AllIds(|embeddings|), k, hits)
    ensures Answers(HybridCascade, t, items, embeddings, sketches, point, query, shortlist, k, hits)
  {
    hide Ranks, Descent.IsKNearest, Knn.IdSet, HammingKey;
    assert pruned * AllIds(|embeddings|) == pruned;
    assert Gathered(HybridCascade, t, items, sketches, point, query, shortlist, pruned);
  }

  /** A shortlist that covers the store makes every strategy the exact ranking, so all three
      return the identical list. */
  lemma StrategiesAgree(a: QueryStrategy, b: QueryStrategy, t: Tier, items: seq<Cells.Item>, embeddings: seq<seq<real>>,
                        sketches: seq<seq<bool>>, point: Point, query: seq<real>, shortlist: nat, k: nat,
                        x: seq<Hit>, y: seq<Hit>)
    requires |items| == |embeddings| == |sketches| <= shortlist
    requires Answers(a, t, items, embeddings, sketches, point, query, shortlist, k, x)
    requires Answers(b, t, items, embeddings, sketches, point, query, shortlist, k, y)
    ensures x == y && Ranks(ScoreKey(t, embeddings, query), AllIds(|embeddings|), k, x)
  {
    CoveredIsExact(a, t, items, embeddings, sketches, point, query, shortlist, k, x);
    CoveredIsExact(b, t, items, embeddings, sketches, point, query, shortlist, k, y);
    RankingUnique(ScoreKey(t, embeddings, query), AllIds(|embeddings|), k, x, y);
  }

  lemma CoveredIsExact(a: QueryStrategy, t: Tier, items: seq<Cells.Item>, embeddings: seq<seq<real>>,
                       sketches: seq<seq<bool>>, point: Point, query: seq<real>, shortlist: nat, k: nat, x: seq<Hit>)
    requires |items| == |embeddings| == |sketches| <= shortlist
    requires Answers(a, t, items, embeddings, sketches, point, query, shortlist, k, x)
    ensures Ranks(ScoreKey(t, embeddings, query), AllIds(|embeddings|), k, x)
  {
    hide Gathered, Ranks;
    var c :| Gathered(a, t, items, sketches, point, query, shortlist, c) && Ranks(ScoreKey(t, embeddings, query), c, k, x);
    GatheredSize(a, t, items, sketches, point, query, shortlist, c);
    AllIdsSize(|items|);
    SubsetEqual(c, AllIds(|items|));
  }

  /** Otherwise an answer still has full length, and place by place no score above the
      exact ranking's. */
  lemma NeverAboveExact(a: QueryStrategy, t: Tier, items: seq<Cells.Item>, embeddings: seq<seq<real>>,
                        sketches: seq<seq<bool>>, point: Point, query: seq<real>, shortlist: nat, k: nat,
                        x: seq<Hit>, exact: seq<Hit>)
    requires |items| == |embeddings| == |sketches| && k <= shortlist
    requires Answers(a, t, items, embeddings, sketches, point, query, shortlist, k, x)
    requires Ranks(ScoreKey(t, embeddings, query), AllIds(|embeddings|), k, exact)
    ensures |x| == |exact| && forall p :: 0 <= p < |x| ==> x[p].score <= exact[p].score
  {
    hide Gathered;
    var key := ScoreKey(t, embeddings, query);
    var c :| Gathered(a, t, items, sketches, point, query, shortlist, c) && Ranks(key, c, k, x);
    GatheredSize(a, t, items, sketches, point, query, shortlist, c);
    MoreCandidatesBetter(key, c, AllIds(|items|), k, x, exact);
    AllIdsSize(|items|);
    TopSize(key, c, k);
    TopSize(key, AllIds(|items|), k);
    ListSize(key, c, k, Ids(x));
    ListSize(key, AllIds(|items|), k, Ids(exact));
  }

  // -- the memory --------------------------------------------------------------------------------

  class HybridMemory {
    const tree: Octree.FractalMemory3D
    const sketch: SketchIndex
    const dim: nat
    var defaultShortlist: nat
    /** Every inserted embedding and payload, in order. */
    ghost var log: seq<(seq<real>, seq<Byte>)>

    /** Item `i` of both layers is the `i`-th insertion. */
    ghost predicate InSync(i: nat)
      requires i < |log| == |tree.items| == |sketch.embeddings| == |sketch.sketches| == |sketch.payloads|
      requires |tree.projectionMatrix| == 3 * tree.highDim
      reads this, tree, sketch
    {
      && |log[i].0| == dim
      && tree.Project(log[i].0) == Some(tree.items[i].point)
      && tree.GetPayload(i) == Some(log[i].1)
      && sketch.embeddings[i] == sketch.tier.normalize(log[i].0)
      && sketch.sketches[i] == sketch.tier.sketchOf(log[i].0)
      && sketch.payloads[i] == log[i].1
    }

    ghost predicate Valid()
      reads this, tree, sketch
    {
      && tree.Valid() && sketch.Valid()
      && dim == tree.highDim == sketch.tier.dim && defaultShortlist > 0
      && |log| == |tree.items| == |sketch.embeddings|
      && forall i :: 0 <= i < |log| ==> InSync(i)
    }

    constructor (tier: Tier, projection: seq<real>, bucketCapacity: nat, minHalfSize: real)
      requires SoundTier(tier) && tier.dim > 0 && |projection| == 3 * tier.dim && minHalfSize > 0.0
      ensures Valid() && fresh(tree) && fresh(sketch) && log == [] && sketch.tier == tier && dim == tier.dim
      ensures defaultShortlist == DEFAULT_SHORTLIST && tree.projectionMatrix == projection
      ensures tree.bucketCapacity == bucketCapacity && tree.minHalfSize == minHalfSize
    {
      tree := new Octree.FractalMemory3D(tier.dim, projection, bucketCapacity, minHalfSize);
      sketch := new SketchIndex(tier);
      dim := tier.dim;
      defaultShortlist := DEFAULT_SHORTLIST;
      log := [];
    }

    /** Builder: a shortlist of zero becomes one. */
    method SetShortlist(shortlist: nat)
      requires Valid()
      modifies this`defaultShortlist
      ensures Valid() && defaultShortlist == if shortlist == 0 then 1 else shortlist
    {
      defaultShortlist := if shortlist == 0 then 1 else shortlist;
      hide Octree.FractalMemory3D.Valid, SketchIndex.Valid;
      forall i | 0 <= i < |log|
        ensures InSync(i)
      {
        assert old(InSync(i));
      }
    }

    /** Makes a certified shortlist the default; without a certificate nothing changes. */
    method CalibrateShortlist(queries: seq<seq<real>>, k: nat, alpha: real, slack: nat -> real)
      returns (cert: Option<ShortlistCertificate>)
      requires Valid()
      modifies this`defaultShortlist
      ensures Valid()
      ensures cert.None? ==> defaultShortlist == old(defaultShortlist)
      ensures cert.Some? ==>
        && k > 0 && sketch.embeddings != [] && WithDim(queries, dim) != []
        && CertifiedSize(sketch.tier, sketch.embeddings, sketch.sketches, WithDim(queries, dim), k, alpha,
                         slack(|WithDim(queries, dim)|), cert.value)
        && defaultShortlist == cert.value.shortlist
    {
      cert := sketch.CertifyShortlist(queries, k, alpha, slack);
      if cert.Some? {
        assert cert.value.shortlist in cert.value.grid;
        SetShortlist(cert.value.shortlist);
      }
    }

    /** Inserts into both layers, or, on a dimension mismatch, into neither. */
    method Insert(embedding: seq<real>, payload: seq<Byte>) returns (ok: bool)
      requires Valid()
      modifies this`log, tree, sketch
      ensures Valid() && ok == (|embedding| == dim)
      ensures log == old(log) + (if ok then [(embedding, payload)] else [])
      ensures !ok ==> unchanged(tree) && unchanged(sketch)
      ensures ok ==>
        && sketch.embeddings == old(sketch.embeddings) + [sketch.tier.normalize(embedding)]
        && sketch.sketches == old(sketch.sketches) + [sketch.tier.sketchOf(embedding)]
        && sketch.payloads == old(sketch.payloads) + [payload]
    {
      if |embedding| != dim {
        return false;
      }
      ghost var items, arena, n := tree.items, tree.payloadArena, |log|;
      var id := tree.Insert(embedding, Some(payload));
      if id.None? {
        return false;
      }
      ok := sketch.Insert(embedding, payload);
      log := log + [(embedding, payload)];
      hide Octree.FractalMemory3D.Valid, Octree.Grow, Octree.PayloadAt;
      forall i | 0 <= i < |log|
        ensures InSync(i)
      {
        if i < n {
          assert old(InSync(i));
        }
        Octree.PayloadsKept(items, arena, tree.Project(embedding).value, payload, i);
      }
    }

    /** Ids of the spatial neighbours of an embedding. */
    method NearestEmbedding(embedding: seq<real>, k: nat, ghost point: Point) returns (ids: seq<nat>)
      requires Valid() && tree.Project(embedding) == Some(point)
      ensures Sorting.Distinct(ids)
      ensures exists near :: Descent.IsKNearest(near, k, point, tree.items) && SetOf(ids) == Knn.IdSet(near)
      ensures SetOf(ids) <= AllIds(|tree.items|)
    {
      var near := tree.Nearest(tree.Project(embedding).value, k);
      NearestIds(near, k, point, tree.items);
      ids := HitIds(near);
    }

    /** Gathers candidates by strategy and reranks them exactly. */
    method Query(embedding: seq<real>, strategy: QueryStrategy, k: nat) returns (hits: seq<Hit>)
      requires Valid()
      ensures |embedding| != dim || k == 0 ==> hits == []
      ensures |embedding| == dim && k > 0 ==>
        Answers(strategy, sketch.tier, tree.items, sketch.embeddings, sketch.sketches, tree.Project(embedding).value,
                embedding, if defaultShortlist < k then k else defaultShortlist, k, hits)
    {
      var shortlist := if defaultShortlist < k then k else defaultShortlist;
      if |embedding| != dim || k == 0 {
        return [];
      }
      hide Answers, Gathered, Valid;
      match strategy
      case FastSpatial => hits := SpatialHits(embedding, k, shortlist);
      case PrecisionSketch => hits := PreciseHits(embedding, k, shortlist);
      case HybridCascade => hits := CascadeHits(embedding, k, shortlist);
    }

    /** Spatial neighbours, reranked. */
    method SpatialHits(embedding: seq<real>, k: nat, shortlist: nat) returns (hits: seq<Hit>)
      requires Valid() && |embedding| == dim && k > 0
      ensures Answers(FastSpatial, sketch.tier, tree.items, sketch.embeddings, sketch.sketches,
                      tree.Project(embedding).value, embedding, shortlist, k, hits)
    {
      ghost var point := tree.Project(embedding).value;
      hide Ranks, Descent.IsKNearest, Knn.IdSet, HybridMemory.InSync, Octree.FractalMemory3D.Valid;
      var ids := NearestEmbedding(embedding, shortlist, point);
      hits := sketch.Rerank(embedding, ids, k);
      assert SetOf(ids) * AllIds(|sketch.embeddings|) == SetOf(ids);
      assert Gathered(FastSpatial, sketch.tier, tree.items, sketch.sketches, point, embedding, shortlist, SetOf(ids));
    }

    /** The Hamming shortlist, reranked. */
    method PreciseHits(embedding: seq<real>, k: nat, shortlist: nat) returns (hits: seq<Hit>)
      requires Valid() && |embedding| == dim && k > 0 && shortlist >= k
      ensures Answers(PrecisionSketch, sketch.tier, tree.items, sketch.embeddings, sketch.sketches,
                      tree.Project(embedding).value, embedding, shortlist, k, hits)
    {
      hits := sketch.NearestIds(embedding, k, shortlist);
      ghost var c := Shortlist(sketch.tier, sketch.sketches, embedding, ShortlistSize(0, shortlist, |sketch.sketches|));
      if sketch.embeddings == [] {
        assert Ids(hits) == [];
      }
      assert Ranks(ScoreKey(sketch.tier, sketch.embeddings, embedding), c, k, hits);
      hide Ranks, Shortlist;
      assert Gathered(PrecisionSketch, sketch.tier, tree.items, sketch.sketches, tree.Project(embedding).value, embedding,
                      shortlist, c);
    }

    /** A wide neighbourhood, pruned by sketch within it, reranked. */
    method CascadeHits(embedding: seq<real>, k: nat, shortlist: nat) returns (hits: seq<Hit>)
      requires Valid() && |embedding| == dim && k > 0
      ensures Answers(HybridCascade, sketch.tier, tree.items, sketch.embeddings, sketch.sketches,
                      tree.Project(embedding).value, embedding, shortlist, k, hits)
    {
      ghost var point := tree.Project(embedding).value;
      hide Ranks, Descent.IsKNearest, Knn.IdSet, HybridMemory.InSync, Octree.FractalMemory3D.Valid, HammingKey, Answers, Top;
      var broad := NearestEmbedding(embedding, 4 * shortlist, point);
      var pruned := PruneByHamming(embedding, broad, shortlist);
      hits := sketch.Rerank(embedding, pruned, k);
      CascadeAnswers(sketch.tier, tree.items, sketch.embeddings, sketch.sketches, point, embedding, shortlist, k,
                     SetOf(broad), SetOf(pruned), hits);
    }

    method PruneByHamming(embedding: seq<real>, ids: seq<nat>, m: nat) returns (pruned: seq<nat>)
      requires Valid() && |embedding| == dim && Sorting.Distinct(ids) && SetOf(ids) <= AllIds(|sketch.embeddings|)
      ensures Sorting.Distinct(pruned)
      ensures SetOf(pruned) == Top(HammingKey(sketch.sketches, sketch.tier.sketchOf(embedding)), SetOf(ids), m)
    {
      pruned := sketch.HammingRank(embedding, ids, m);
      assert SetOf(ids) * AllIds(|sketch.embeddings|) == SetOf(ids);
      InOrderDistinct(HammingKey(sketch.sketches, sketch.tier.sketchOf(embedding)), pruned);
    }
  }
}
