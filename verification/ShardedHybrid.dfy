/** The sharded memory: one hybrid memory per region over one record layer. Embedders are
    vector arguments; `keyOf` extracts a record id from an index payload. */
module ShardedHybrids {
  import opened Bytes
  import opened Compaction
  import opened FilteredRecalls
  import opened HybridMemories
  import opened ItemIds
  import opened PrecisionTier
  import opened RecallLimits
  import opened SketchStore
  import opened Traversal
  import opened Wrappers
  import Octree
  import Records
  import RecordStore

  datatype MemoryError = StaleGeneration | RejectedEmbedding | UnknownRecord | RejectedRelation

  /** The precision-tier rows of a region, and its default shortlist. */
  datatype Rows = Rows(embeddings: seq<seq<real>>, sketches: seq<seq<bool>>, payloads: seq<seq<Byte>>, shortlist: nat)

  const EMPTY: Rows := Rows([], [], [], DEFAULT_SHORTLIST)

  function Appended(rows: Rows, t: Tier, vector: seq<real>, payload: seq<Byte>): Rows {
    rows.(embeddings := rows.embeddings + [t.normalize(vector)], sketches := rows.sketches + [t.sketchOf(vector)],
          payloads := rows.payloads + [payload])
  }

  /** What compaction leaves of a region. */
  function Compacted(rows: Rows, kept: seq<nat>): Rows
    requires |rows.embeddings| == |rows.sketches| == |rows.payloads|
    requires Positions(kept, |rows.payloads|)
  {
    rows.(embeddings := Selected(rows.embeddings, kept), sketches := Selected(rows.sketches, kept),
          payloads := Selected(rows.payloads, kept))
  }

  /** `s` is a well-formed region holding exactly `rows`. */
  ghost predicate Holds(s: HybridMemory, t: Tier, projection: seq<real>, rows: Rows)
    reads s, s.tree, s.sketch
  {
    && s.Valid() && s.sketch.tier == t && s.tree.projectionMatrix == projection
    && rows == Rows(s.sketch.embeddings, s.sketch.sketches, s.sketch.payloads, s.defaultShortlist)
    && |rows.embeddings| == |rows.sketches| == |rows.payloads|
  }

  /** A region in use: never empty, every row stable. */
  ghost predicate InUse(s: HybridMemory, t: Tier, projection: seq<real>, rows: Rows)
    reads s, s.tree, s.sketch
  {
    Holds(s, t, projection, rows) && rows.embeddings != [] && StableRows(t, rows.embeddings, rows.sketches)
  }

  /** One insertion into a region. */
  method AppendTo(s: HybridMemory, ghost t: Tier, ghost projection: seq<real>, ghost rows: Rows, payload: seq<Byte>,
                  vector: seq<real>) returns (ok: bool)
    requires Holds(s, t, projection, rows) && StableTier(t) && StableRows(t, rows.embeddings, rows.sketches)
    modifies s`log, s.tree, s.sketch
    ensures ok == (|vector| == t.dim) && s.log == old(s.log) + (if ok then [(vector, payload)] else [])
    ensures if ok then InUse(s, t, projection, Appended(rows, t, vector, payload)) else Holds(s, t, projection, rows)
  {
    hide Octree.FractalMemory3D.Valid, HybridMemory.InSync, SoundTier, StableTier, StableRows;
    ok := s.Insert(vector, payload);
    if ok {
      AppendedStable(t, rows, vector, payload);
    }
  }

  /** The same for a region already in use. */
  method AppendMore(s: HybridMemory, ghost t: Tier, ghost projection: seq<real>, ghost rows: Rows, payload: seq<Byte>,
                    vector: seq<real>) returns (ok: bool)
    requires InUse(s, t, projection, rows) && StableTier(t)
    modifies s`log, s.tree, s.sketch
    ensures ok == (|vector| == t.dim)
    ensures InUse(s, t, projection, if ok then Appended(rows, t, vector, payload) else rows)
  {
    hide Holds, StableTier, StableRows;
    ok := AppendTo(s, t, projection, rows, payload, vector);
  }

  lemma AppendedStable(t: Tier, rows: Rows, vector: seq<real>, payload: seq<Byte>)
    requires StableTier(t) && |vector| == t.dim && StableRows(t, rows.embeddings, rows.sketches)
    ensures StableRows(t, Appended(rows, t, vector, payload).embeddings, Appended(rows, t, vector, payload).sketches)
    ensures Appended(rows, t, vector, payload).embeddings != []
  {
    assert t.normalize(t.normalize(vector)) == t.normalize(vector);
  }

  method NewShard(t: Tier, projection: seq<real>, bucketCapacity: nat, minHalfSize: real) returns (s: HybridMemory)
    requires SoundTier(t) && t.dim > 0 && |projection| == 3 * t.dim && minHalfSize > 0.0
    ensures fresh(s) && fresh(s.tree) && fresh(s.sketch) && s.sketch.tier == t && Holds(s, t, projection, EMPTY) && s.log == []
  {
    s := new HybridMemory(t, projection, bucketCapacity, minHalfSize);
  }

  /** Filtered recall answers for a region's rows. */
  ghost predicate Recalls(t: Tier, rows: Rows, records: seq<Records.Record>, filter: Records.Filter, keyOf: KeyOf,
                          query: seq<real>, k: nat, hits: seq<Hit>)
  {
    FilteredRecall(ScoreKey(t, rows.embeddings, query), HammingKey(rows.sketches, t.sketchOf(query)),
                   AdmittedIds(records, filter, keyOf, rows.payloads), k, rows.shortlist, hits)
  }

  /** The overfetched pool. */
  ghost predicate Pool(t: Tier, rows: Rows, query: seq<real>, k: nat, pool: seq<Hit>) {
    var fetch := Fetch(k, |rows.embeddings|);
    Ranks(ScoreKey(t, rows.embeddings, query),
          Shortlist(t, rows.sketches, query, ShortlistSize(fetch, rows.shortlist, |rows.sketches|)), fetch, pool)
  }

  method RecallPool(s: HybridMemory, ghost projection: seq<real>, ghost rows: Rows, query: seq<real>, k: nat)
    returns (pool: seq<Hit>)
    requires Holds(s, s.sketch.tier, projection, rows) && k > 0
    ensures |query| != s.sketch.tier.dim ==> pool == []
    ensures |query| == s.sketch.tier.dim ==> Pool(s.sketch.tier, rows, query, k, pool)
  {
    pool := s.Query(query, PrecisionSketch, Fetch(k, |s.sketch.embeddings|));
  }

  /** The loop over a recalled pool: keeps what the filter admits, stops at `k`. */
  method FirstAdmitted(records: seq<Records.Record>, payloads: seq<seq<Byte>>, ghost t: Tier, ghost rows: Rows,
                       query: seq<real>, k: nat, filter: Records.Filter, keyOf: KeyOf, pool: seq<Hit>) returns (hits: seq<Hit>)
    requires payloads == rows.payloads && |rows.embeddings| == |rows.sketches| == |payloads|
    requires k > 0 && Pool(t, rows, query, k, pool)
    ensures Recalls(t, rows, records, filter, keyOf, query, k, hits)
  {
    ghost var admitted := AdmittedIds(records, filter, keyOf, payloads);
    ghost var key := ScoreKey(t, rows.embeddings, query);
    ghost var fetch := Fetch(k, |rows.embeddings|);
    ghost var c := Shortlist(t, rows.sketches, query, ShortlistSize(fetch, rows.shortlist, |rows.sketches|));
    hits := [];
    var i := 0;
    while i < |pool| && |hits| < k
      invariant i <= |pool| && |hits| <= k && hits == AdmittedHits(pool[..i], admitted)
    {
      assert pool[..i + 1][..i] == pool[..i];
      PoolInRange(key, c, fetch, pool, i);
      if Admits(records, filter, keyOf, payloads[pool[i].id]) {
        hits := hits + [pool[i]];
      }
      i := i + 1;
    }
    AdmittedPrefix(pool, admitted, i);
    assert i == |pool| ==> pool[..i] == pool;
    FirstAdmittedRank(key, c, fetch, admitted, k, pool, hits);
  }

  lemma PoolInRange(key: seq<real>, c: set<nat>, fetch: nat, pool: seq<Hit>, i: nat)
    requires Ranks(key, c, fetch, pool) && i < |pool| && c <= AllIds(|key|)
    ensures pool[i].id < |key|
  {
    assert Ids(pool)[i] in SetOf(Ids(pool));
  }

  function DirectRows(direct: seq<Hit>, payloads: seq<seq<Byte>>): (rows: seq<RelatedHit>)
    requires forall p :: 0 <= p < |direct| ==> direct[p].id < |payloads|
    ensures |rows| == |direct|
    ensures forall p :: 0 <= p < |direct| ==> rows[p] == RelatedHit(payloads[direct[p].id], direct[p].score, 0, None)
  {
    seq(|direct|, p requires 0 <= p < |direct| => RelatedHit(payloads[direct[p].id], direct[p].score, 0, None))
  }

  lemma HitsInRange(t: Tier, rows: Rows, records: seq<Records.Record>, filter: Records.Filter, keyOf: KeyOf,
                    query: seq<real>, k: nat, hits: seq<Hit>)
    requires hits == [] || Recalls(t, rows, records, filter, keyOf, query, k, hits)
    ensures forall p :: 0 <= p < |hits| ==> hits[p].id < |rows.payloads|
  {
    forall p | 0 <= p < |hits|
      ensures hits[p].id < |rows.payloads|
    {
      assert Ids(hits)[p] in SetOf(Ids(hits));
    }
  }

  // -- what compaction and purging mean for recall ---------------------------------------

  /** A region is compacted under some filter and records; later, under whatever filter and
      records then, it is recalled, and the filter admits nothing that was dropped. The
      recall is no shorter than without the compaction, and at no place lower, if it
      admits all that was kept or the fetch suffices; and it is the same entry by entry
      when it would have seen the whole region. */
  lemma CompactionRecall(t: Tier, rows: Rows, earlier: seq<Records.Record>, compacted: Records.Filter,
                         records: seq<Records.Record>, filter: Records.Filter, keyOf: KeyOf,
                         query: seq<real>, k: nat, before: seq<Hit>, after: seq<Hit>)
    requires |rows.embeddings| == |rows.sketches| == |rows.payloads|
    requires AdmitsNoMore(records, filter, earlier, compacted, keyOf, rows.payloads)
    requires Recalls(t, rows, records, filter, keyOf, query, k, before)
    requires Recalls(t, Compacted(rows, Survivors(earlier, compacted, keyOf, rows.payloads)), records, filter, keyOf, query, k, after)
    ensures AdmitsNoMore(earlier, compacted, records, filter, keyOf, rows.payloads) || FetchSuffices(k, |rows.payloads|, rows.shortlist) ==>
      NoWorse(before, after)
    ensures |rows.payloads| <= Fetch(k, |rows.payloads|) ==>
      var kept := Survivors(earlier, compacted, keyOf, rows.payloads);
      (forall p :: 0 <= p < |after| ==> after[p].id < |kept|) && before == RenamedHits(kept, after)
  {
    CompactionKeepsRecall(t, rows.embeddings, rows.sketches, rows.payloads, earlier, compacted, records, filter, keyOf, query, k,
                          rows.shortlist, before, after);
  }

  /** No hit's record is inactive, expired, of another scope than the filter fixes, or more
      sensitive than its clearance. */
  lemma HitsShown(t: Tier, rows: Rows, records: seq<Records.Record>, filter: Records.Filter, keyOf: KeyOf,
                  query: seq<real>, k: nat, hits: seq<Hit>)
    requires Records.Ascending(records) && Recalls(t, rows, records, filter, keyOf, query, k, hits)
    ensures forall p, r ::
      0 <= p < |hits| && r in records && hits[p].id < |rows.payloads| && r.id == keyOf(rows.payloads[hits[p].id]) ==>
        && r.status.Active? && (r.retention.expiresAt.Some? ==> filter.now < r.retention.expiresAt.value)
        && (filter.tenant.Some? ==> filter.tenant.value == r.scope.tenant)
        && (filter.workspace.Some? ==> filter.workspace.value == r.scope.workspace)
        && (filter.agent.Some? ==> filter.agent.value == r.scope.agent)
        && (filter.clearance.Public? ==> r.sensitivity.Public?)
        && (filter.clearance.Internal? ==> r.sensitivity.Public? || r.sensitivity.Internal?)
        && (filter.clearance.Confidential? ==> !r.sensitivity.Restricted?)
  {
    hide Ranks, Fetched, Admits, Records.Ascending;
    forall p | 0 <= p < |hits| && hits[p].id < |rows.payloads|
      ensures Admits(records, filter, keyOf, rows.payloads[hits[p].id])
    {
      HitsAdmitted(ScoreKey(t, rows.embeddings, query),
                   Fetched(ScoreKey(t, rows.embeddings, query), HammingKey(rows.sketches, t.sketchOf(query)), k, rows.shortlist),
                   AdmittedIds(records, filter, keyOf, rows.payloads), k, hits, p);
    }
    forall p | 0 <= p < |hits| && hits[p].id < |rows.payloads| {
      AdmitsMeans(records, filter, keyOf, rows.payloads[hits[p].id]);
    }
  }

  /** The number of entries the filter hides. */
  ghost function Hidden(rows: Rows, records: seq<Records.Record>, filter: Records.Filter, keyOf: KeyOf): (hidden: nat)
    ensures |AdmittedIds(records, filter, keyOf, rows.payloads)| + hidden == |rows.payloads|
  {
    var admitted := AdmittedIds(records, filter, keyOf, rows.payloads);
    AllIdsSize(|rows.payloads|);
    SubsetSize(admitted, AllIds(|rows.payloads|));
    |rows.payloads| - |admitted|
  }

  /** A recall returns `k` entries, or all the filter admits, wherever the overfetch makes up
      for the hidden ones. */
  lemma RecallIsFull(t: Tier, rows: Rows, records: seq<Records.Record>, filter: Records.Filter, keyOf: KeyOf,
                     query: seq<real>, k: nat, hits: seq<Hit>)
    requires |rows.embeddings| == |rows.sketches| == |rows.payloads|
    requires Recalls(t, rows, records, filter, keyOf, query, k, hits)
    requires Overfetched(k, |rows.payloads|, Hidden(rows, records, filter, keyOf))
    ensures |hits| == if k < |AdmittedIds(records, filter, keyOf, rows.payloads)| then k
                      else |AdmittedIds(records, filter, keyOf, rows.payloads)|
  {
    OverfetchedIsFull(ScoreKey(t, rows.embeddings, query), HammingKey(rows.sketches, t.sketchOf(query)),
                      AdmittedIds(records, filter, keyOf, rows.payloads), |rows.payloads|,
                      Hidden(rows, records, filter, keyOf), k, rows.shortlist, hits);
  }

  /** A region is compacted, under whatever filter and records; later, when the records are
      `before`, there is a purge. It changes no recall of the region, under any filter, if
      no entry's record has become purgeable since, and none has while they are unchanged. */
  lemma PurgeKeepsRecall(t: Tier, rows: Rows, earlier: seq<Records.Record>, before: seq<Records.Record>, after: seq<Records.Record>, now: U64,
                         compacted: Records.Filter, filter: Records.Filter, keyOf: KeyOf, query: seq<real>, k: nat, hits: seq<Hit>)
    requires |rows.embeddings| == |rows.sketches| == |rows.payloads|
    requires forall id: Text :: Records.Lookup(after, id) == Records.Spared(Records.Lookup(before, id), now)
    ensures var left := Compacted(rows, Survivors(earlier, compacted, keyOf, rows.payloads));
      && (NonePurgeable(before, now, keyOf, left.payloads) ==>
            (Recalls(t, left, after, filter, keyOf, query, k, hits) <==> Recalls(t, left, before, filter, keyOf, query, k, hits)))
      && ((forall i :: 0 <= i < |left.payloads| ==>
             Records.Lookup(before, keyOf(left.payloads[i])) == Records.Lookup(earlier, keyOf(left.payloads[i])))
          ==> NonePurgeable(before, now, keyOf, left.payloads))
  {
    hide NonePurgeable, Records.Lookup, Records.Spared;
    var kept := Survivors(earlier, compacted, keyOf, rows.payloads);
    var left := Compacted(rows, kept);
    forall i | 0 <= i < |left.payloads|
      ensures Admits(earlier, compacted, keyOf, left.payloads[i])
    {
      assert kept[i] in kept;
    }
    PurgeSparesRegion(before, after, now, keyOf, left.payloads, filter);
    if forall i :: 0 <= i < |left.payloads| ==>
      Records.Lookup(before, keyOf(left.payloads[i])) == Records.Lookup(earlier, keyOf(left.payloads[i])) {
      CompactedNotPurgeable(earlier, before, now, keyOf, left.payloads, compacted);
    }
  }

  class ShardedHybrid {
    var shards: map<Text, HybridMemory>
    const records: RecordStore.RecordStore
    const tier: Tier
    const projection: seq<real>
    const bucketCapacity: nat
    const minHalfSize: real
    /** Which region each engine object belongs to, and what the regions hold. */
    ghost var owner: map<object, Text>
    ghost var contents: map<Text, Rows>

    ghost predicate Configured() {
      SoundTier(tier) && StableTier(tier) && tier.dim > 0 && |projection| == 3 * tier.dim && minHalfSize > 0.0
    }

    ghost function Repr(): set<object>
      reads this
    {
      owner.Keys
    }

    /** A region owns its engine: no two regions share one. */
    ghost predicate Owns(r: Text, s: HybridMemory)
      reads this
    {
      && s in owner && owner[s] == r && s.tree in owner && owner[s.tree] == r
      && s.sketch in owner && owner[s.sketch] == r
    }

    ghost predicate Valid()
      reads this, records, Repr()
    {
      && Configured() && records.Valid() && this !in owner && records !in owner
      && shards.Keys == contents.Keys
      && (forall r :: r in shards ==> Owns(r, shards[r]))
      && (forall r :: r in shards ==> InUse(shards[r], tier, projection, contents[r]))
    }

    constructor (tier: Tier, projection: seq<real>, bucketCapacity: nat, minHalfSize: real)
      requires SoundTier(tier) && StableTier(tier) && tier.dim > 0 && |projection| == 3 * tier.dim && minHalfSize > 0.0
      ensures Valid() && fresh(Repr()) && fresh(records) && contents == map[] && records.records == []
    {
      this.tier, this.projection := tier, projection;
      this.bucketCapacity, this.minHalfSize := bucketCapacity, minHalfSize;
      shards, owner, contents := map[], map[], map[];
      records := new RecordStore.RecordStore();
    }

    // -- recall ------------------------------------------------------------------------

    /** Overfetches from the precise path, keeps what the filter admits, stops at `k`. */
    method RecallFiltered(region: Text, query: seq<real>, k: nat, filter: Records.Filter, keyOf: KeyOf)
      returns (hits: seq<Hit>)
      requires Valid()
      ensures region !in shards || k == 0 || |query| != tier.dim ==> hits == []
      ensures region in shards && k > 0 && |query| == tier.dim ==>
        region in contents && Recalls(tier, contents[region], records.records, filter, keyOf, query, k, hits)
      ensures region in shards && k > 0 && |query| == tier.dim ==>
        var rows := contents[region];
        var admitted := |AdmittedIds(records.records, filter, keyOf, rows.payloads)|;
        Overfetched(k, |rows.payloads|, Hidden(rows, records.records, filter, keyOf)) ==> |hits| == if k < admitted then k else admitted
      ensures forall p, r ::
        0 <= p < |hits| && r in records.records && hits[p].id < |contents[region].payloads| && r.id == keyOf(contents[region].payloads[hits[p].id]) ==>
          && r.status.Active? && (r.retention.expiresAt.Some? ==> filter.now < r.retention.expiresAt.value)
          && (filter.tenant.Some? ==> filter.tenant.value == r.scope.tenant)
          && (filter.workspace.Some? ==> filter.workspace.value == r.scope.workspace)
          && (filter.agent.Some? ==> filter.agent.value == r.scope.agent)
          && (filter.clearance.Public? ==> r.sensitivity.Public?)
          && (filter.clearance.Internal? ==> r.sensitivity.Public? || r.sensitivity.Internal?)
          && (filter.clearance.Confidential? ==> !r.sensitivity.Restricted?)
    {
      if region !in shards || k == 0 {
        return [];
      }
      var shard := shards[region];
      var pool := RecallPool(shard, projection, contents[region], query, k);
      if |query| != tier.dim {
        return [];
      }
      hits := FirstAdmitted(records.records, shard.sketch.payloads, tier, contents[region], query, k, filter, keyOf, pool);
      if Overfetched(k, |contents[region].payloads|, Hidden(contents[region], records.records, filter, keyOf)) {
        RecallIsFull(tier, contents[region], records.records, filter, keyOf, query, k, hits);
      }
      HitsShown(tier, contents[region], records.records, filter, keyOf, query, k, hits);
    }

    /** Filtered recall, then the bounded expansion along relations. `direct` is the recall
        the expansion starts from. */
    method RecallRelated(region: Text, query: seq<real>, k: nat, filter: Records.Filter, keyOf: KeyOf, hops: nat, max: nat)
      returns (direct: seq<Hit>, hits: seq<RelatedHit>)
      requires Valid()
      ensures region !in shards || k == 0 || |query| != tier.dim ==> direct == []
      ensures region !in shards ==> hits == []
      ensures region in shards && k > 0 && |query| == tier.dim ==>
        region in contents && Recalls(tier, contents[region], records.records, filter, keyOf, query, k, direct)
      ensures region in shards ==>
        && region in contents
        && (forall p :: 0 <= p < |direct| ==> direct[p].id < |contents[region].payloads|)
        && var rows := DirectRows(direct, contents[region].payloads);
           var found := Resolve(contents[region].payloads, keyOf);
           Related(Graph(records.records, filter, found.Keys, Keys(rows, keyOf)), keyOf, found, rows,
                   if max == 0 then 0 else hops, max, hits)
    {
      hide Related, Recalls, StableRows, SoundTier, StableTier, Resolve, Keys;
      direct := RecallFiltered(region, query, k, filter, keyOf);
      if region !in shards {
        return direct, [];
      }
      var payloads := shards[region].sketch.payloads;
      HitsInRange(tier, contents[region], records.records, filter, keyOf, query, k, direct);
      hits := ExpandRelated(records.records, filter, keyOf, payloads, DirectRows(direct, payloads), hops, max);
    }

    // -- writing -------------------------------------------------------------------------

    /** Adds one entry to a region, creating the region on first use; a rejected vector
        leaves everything as it was, without an empty region. */
    method InsertRaw(region: Text, payload: seq<Byte>, vector: seq<real>) returns (ok: bool)
      requires Valid()
      modifies this`shards, this`owner, this`contents, Repr()
      ensures Valid() && fresh(Repr() - old(Repr()))
      ensures ok == (|vector| == tier.dim)
      ensures contents == if ok then
        old(contents)[region := Appended(if region in old(contents) then old(contents[region]) else EMPTY, tier, vector, payload)]
        else old(contents)
    {
      assert shards.Keys == contents.Keys;
      hide ShardedHybrid.Valid, InUse, Holds;
      if region in shards {
        ok := InsertExisting(region, payload, vector);
      } else {
        ok := InsertFirst(region, payload, vector);
      }
    }

    method InsertExisting(region: Text, payload: seq<Byte>, vector: seq<real>) returns (ok: bool)
      requires Valid() && region in shards
      modifies this`contents, Repr()
      ensures Valid() && Repr() == old(Repr()) && ok == (|vector| == tier.dim)
      ensures contents == if ok then old(contents)[region := Appended(old(contents[region]), tier, vector, payload)] else old(contents)
    {
      hide InUse, SoundTier, StableTier, ValidUtf8, RecordStore.RecordStore.Valid;
      var shard := shards[region];
      ghost var rows := contents[region];
      assert Owns(region, shard);
      ok := AppendMore(shard, tier, projection, rows, payload, vector);
      forall r | r in shards && r != region
        ensures InUse(shards[r], tier, projection, contents[r])
      {
        assert Owns(r, shards[r]) && old(InUse(shards[r], tier, projection, contents[r]));
      }
      if ok {
        contents := contents[region := Appended(rows, tier, vector, payload)];
      }
    }

    /** The first entry of a new region. The region is added only once its entry is in, so a
        rejected vector leaves no empty region behind. */
    method InsertFirst(region: Text, payload: seq<Byte>, vector: seq<real>) returns (ok: bool)
      requires Valid() && region !in shards
      modifies this`shards, this`owner, this`contents
      ensures Valid() && fresh(Repr() - old(Repr())) && ok == (|vector| == tier.dim)
      ensures contents == if ok then old(contents)[region := Appended(EMPTY, tier, vector, payload)] else old(contents)
    {
      hide InUse, Holds, SoundTier, StableTier, ValidUtf8, RecordStore.RecordStore.Valid;
      var shard := NewShard(tier, projection, bucketCapacity, minHalfSize);
      ok := AppendTo(shard, tier, projection, EMPTY, payload, vector);
      if ok {
        Adopt(region, shard, Appended(EMPTY, tier, vector, payload));
      }
    }

    /** Makes a separately built engine the one of `region`. */
    method Adopt(region: Text, shard: HybridMemory, ghost rows: Rows)
      requires Valid() && InUse(shard, tier, projection, rows)
      requires {shard, shard.tree, shard.sketch} !! Repr() && this !in {shard as object, shard.tree, shard.sketch}
      requires records !in {shard as object, shard.tree, shard.sketch}
      modifies this`shards, this`owner, this`contents
      ensures Valid() && contents == old(contents)[region := rows] && Repr() == old(Repr()) + {shard, shard.tree, shard.sketch}
    {
      hide InUse, SoundTier, StableTier, ValidUtf8, RecordStore.RecordStore.Valid;
      shards, contents := shards[region := shard], contents[region := rows];
      owner := owner[shard := region][shard.tree := region][shard.sketch := region];
      forall r | r in shards
        ensures Owns(r, shards[r]) && InUse(shards[r], tier, projection, contents[r])
      {
        if r != region {
          assert old(Owns(r, shards[r])) && old(InUse(shards[r], tier, projection, contents[r]));
        }
      }
    }

    /** Drops a region. */
    method Drop(region: Text)
      requires Valid()
      modifies this`shards, this`contents
      ensures Valid() && contents == old(contents) - {region} && owner == old(owner)
    {
      hide InUse, SoundTier, StableTier, ValidUtf8, RecordStore.RecordStore.Valid;
      shards, contents := shards - {region}, contents - {region};
    }

    /** Stores a record and indexes its text, or does neither: a stale generation is refused
        before anything is indexed. */
    method RememberWithPayload(region: Text, record: Records.Record, payload: seq<Byte>, vector: seq<real>)
      returns (result: Result<(), MemoryError>)
      requires Valid()
      modifies this`shards, this`owner, this`contents, Repr(), records
      ensures Valid() && fresh(Repr() - old(Repr()))
      ensures result == Err(StaleGeneration) <==>
        Records.Lookup(old(records.records), record.id).Some?
        && record.generation <= Records.Lookup(old(records.records), record.id).value.generation
      ensures result.Ok? ==> |vector| == tier.dim
      ensures result == Err(RejectedEmbedding) ==> |vector| != tier.dim
      ensures result.Err? ==> contents == old(contents) && records.records == old(records.records)
      ensures result.Ok? ==>
        && contents == old(contents)[region := Appended(if region in old(contents) then old(contents[region]) else EMPTY, tier, vector, payload)]
        && forall id :: Records.Lookup(records.records, id) ==
             if id == record.id then Some(record) else Records.Lookup(old(records.records), id)
    {
      hide InUse, SoundTier, StableTier, ValidUtf8, Records.Lookup;
      var existing := Records.Lookup(records.records, record.id);
      if existing.Some? && record.generation <= existing.value.generation {
        return Err(StaleGeneration);
      }
      var inserted := InsertRaw(region, payload, vector);
      if !inserted {
        return Err(RejectedEmbedding);
      }
      var put := records.PutRecord(record);
      if put.Err? {
        return Err(StaleGeneration);
      }
      result := Ok(());
    }

    /** Adds an edge between two stored records, at a strictly newer generation. */
    method Relate(id: Text, kind: Records.RelationKind, target: Text, generation: U64) returns (result: Result<(), MemoryError>)
      requires records.Valid()
      modifies records
      ensures records.Valid()
      ensures result.Ok? <==>
        && Records.Lookup(old(records.records), target).Some? && Records.Lookup(old(records.records), id).Some?
        && generation > Records.Lookup(old(records.records), id).value.generation && target != id && !Blank(target)
      ensures result.Err? ==> records.records == old(records.records)
      ensures result.Ok? ==>
        forall other :: Records.Lookup(records.records, other) ==
          var was := Records.Lookup(old(records.records), other);
          if other == id && was.Some? then
            Some(was.value.(generation := generation, relations := was.value.relations + [Records.Relation(kind, target)]))
          else was
    {
      var stored := records.records;
      if Records.Lookup(stored, target).None? || Records.Lookup(stored, id).None? {
        return Err(UnknownRecord);
      }
      var advanced := Records.AdvanceGeneration(Records.Lookup(stored, id).value, generation);
      if advanced.Err? {
        return Err(StaleGeneration);
      }
      if Blank(target) {
        return Err(RejectedRelation);
      }
      var related := Records.AddRelation(advanced.value, kind, target);
      if related.Err? {
        return Err(RejectedRelation);
      }
      LookupId(stored, id);
      hide Records.Lookup, ValidUtf8;
      var put := records.PutRecord(related.value);
      if put.Err? {
        return Err(StaleGeneration);
      }
      result := Ok(());
    }

    // -- reclaiming space --------------------------------------------------------------------

    /** Rebuilds a region from the entries the filter admits, and says how many it dropped.
        A region left empty disappears; the records are not touched. */
    method CompactFiltered(region: Text, filter: Records.Filter, keyOf: KeyOf) returns (result: Result<nat, MemoryError>)
      requires Valid()
      modifies this`shards, this`owner, this`contents
      ensures Valid() && fresh(Repr() - old(Repr()))
      ensures result.Ok?
      ensures region !in old(contents) ==> result.value == 0 && contents == old(contents)
      ensures region in old(contents) ==>
        var rows := old(contents[region]);
        && |rows.embeddings| == |rows.sketches| == |rows.payloads|
        && var kept := Survivors(records.records, filter, keyOf, rows.payloads);
           && result.value == |rows.payloads| - |kept|
           && contents == if kept == [] then old(contents) - {region} else old(contents)[region := Compacted(rows, kept)]
    {
      hide InUse, SoundTier, StableTier, ValidUtf8, RecordStore.RecordStore.Valid, Survivors, Compacted, AdmittedIds, Admits,
           HybridMemory.Valid, Octree.FractalMemory3D.Valid, SketchIndex.Valid;
      if region !in shards {
        return Ok(0);
      }
      var shard := shards[region];
      ghost var rows := contents[region];
      var payloads := PayloadsOf(shard, tier, projection, rows);
      var kept := Survivors(records.records, filter, keyOf, payloads);
      KeptFewer(kept, |payloads|);
      result := KeepOnly(region, kept, |payloads|);
    }

    /** Replaces a region by a rebuilt one, or drops it when nothing is kept. */
    method KeepOnly(region: Text, kept: seq<nat>, n: nat) returns (result: Result<nat, MemoryError>)
      requires Valid() && region in shards && |kept| <= n == |contents[region].payloads| && Positions(kept, n)
      requires |contents[region].embeddings| == |contents[region].sketches| == n
      modifies this`shards, this`owner, this`contents
      ensures Valid() && fresh(Repr() - old(Repr()))
      ensures result == Ok(n - |kept|)
      ensures contents == if kept == [] then old(contents) - {region}
                          else old(contents)[region := Compacted(old(contents[region]), kept)]
    {
      hide InUse, SoundTier, StableTier, ValidUtf8, RecordStore.RecordStore.Valid, Compacted, Positions;
      if kept == [] {
        Drop(region);
        return Ok(n);
      }
      var rebuilt := Rebuild(shards[region], tier, projection, bucketCapacity, minHalfSize, contents[region], kept);
      if rebuilt.None? {
        return Err(RejectedEmbedding);
      }
      Adopt(region, rebuilt.value, Compacted(contents[region], kept));
      result := Ok(n - |kept|);
    }

    /** Removes every purgeable record; index entries are reclaimed by compaction only. */
    method PurgePurgeableAt(now: U64) returns (removed: nat)
      requires Valid()
      modifies records
      ensures Valid() && contents == old(contents)
      ensures removed == |old(records.records)| - |records.records|
      ensures forall id :: Records.Lookup(records.records, id) == Records.Spared(Records.Lookup(old(records.records), id), now)
    {
      hide InUse, SoundTier, StableTier;
      removed := records.PurgePurgeableAt(now);
    }
  }

  lemma LookupId(s: seq<Records.Record>, id: Text)
    requires Records.Lookup(s, id).Some?
    ensures Records.Lookup(s, id).value.id == id
  {
  }

  lemma CompactedStable(t: Tier, rows: Rows, kept: seq<nat>)
    requires |rows.embeddings| == |rows.sketches| == |rows.payloads| && Positions(kept, |rows.payloads|)
    requires StableRows(t, rows.embeddings, rows.sketches)
    ensures StableRows(t, Compacted(rows, kept).embeddings, Compacted(rows, kept).sketches)
  {
  }

  /** Re-inserting a stable row stores the same row. */
  lemma NextCompacted(t: Tier, rows: Rows, kept: seq<nat>, j: nat)
    requires |rows.embeddings| == |rows.sketches| == |rows.payloads| && Positions(kept, |rows.payloads|) && j < |kept|
    requires StableRows(t, rows.embeddings, rows.sketches)
    ensures Appended(Compacted(rows, kept[..j]), t, rows.embeddings[kept[j]], rows.payloads[kept[j]]) == Compacted(rows, kept[..j + 1])
  {
    assert kept[..j + 1] == kept[..j] + [kept[j]];
  }

  /** One surviving row into the engine under construction. */
  method AppendNext(s: HybridMemory, ghost t: Tier, ghost projection: seq<real>, ghost rows: Rows, ghost kept: seq<nat>,
                    ghost j: nat, payload: seq<Byte>, vector: seq<real>) returns (ok: bool)
    requires |rows.embeddings| == |rows.sketches| == |rows.payloads| && Positions(kept, |rows.payloads|) && j < |kept|
    requires StableTier(t) && StableRows(t, rows.embeddings, rows.sketches)
    requires vector == rows.embeddings[kept[j]] && payload == rows.payloads[kept[j]] && |vector| == t.dim
    requires Holds(s, t, projection, Compacted(rows, kept[..j]))
    modifies s`log, s.tree, s.sketch
    ensures ok && Holds(s, t, projection, Compacted(rows, kept[..j + 1])) && s.log == old(s.log) + [(vector, payload)]
  {
    hide Holds, StableTier, StableRows, Compacted, Appended;
    CompactedStable(t, rows, kept[..j]);
    NextCompacted(t, rows, kept, j);
    ok := AppendTo(s, t, projection, Compacted(rows, kept[..j]), payload, vector);
  }

  method PayloadsOf(s: HybridMemory, ghost t: Tier, ghost projection: seq<real>, ghost rows: Rows) returns (payloads: seq<seq<Byte>>)
    requires InUse(s, t, projection, rows)
    ensures payloads == rows.payloads && |rows.embeddings| == |rows.sketches| == |rows.payloads|
  {
    payloads := s.sketch.payloads;
  }

  method ChosenEntries(s: HybridMemory, ghost t: Tier, ghost projection: seq<real>, ghost rows: Rows, kept: seq<nat>)
    returns (survivors: seq<(seq<real>, seq<Byte>)>)
    requires Holds(s, t, projection, rows) && Positions(kept, |rows.payloads|)
    ensures |survivors| == |kept| && |rows.embeddings| == |rows.payloads|
    ensures forall j :: 0 <= j < |kept| ==>
      survivors[j] == (rows.embeddings[kept[j]], rows.payloads[kept[j]]) && |survivors[j].0| == t.dim
  {
    var embeddings, payloads := s.sketch.embeddings, s.sketch.payloads;
    survivors := seq(|kept|, j requires 0 <= j < |kept| && kept[j] < |embeddings| && kept[j] < |payloads| =>
                               (embeddings[kept[j]], payloads[kept[j]]));
  }

  /** An empty engine with the shortlist of another. */
  method NewLike(s: HybridMemory, t: Tier, projection: seq<real>, bucketCapacity: nat, minHalfSize: real, ghost rows: Rows)
    returns (shard: HybridMemory)
    requires Holds(s, t, projection, rows)
    requires SoundTier(t) && t.dim > 0 && |projection| == 3 * t.dim && minHalfSize > 0.0
    ensures fresh(shard) && fresh(shard.tree) && fresh(shard.sketch)
    ensures Holds(shard, t, projection, EMPTY.(shortlist := rows.shortlist)) && shard.log == []
  {
    var shortlist := s.defaultShortlist;
    shard := NewShard(t, projection, bucketCapacity, minHalfSize);
    hide Octree.FractalMemory3D.Valid, SoundTier;
    shard.SetShortlist(shortlist);
  }

  /** A new engine over the chosen rows of an old one. Its octree indexes the stored vectors. */
  method Rebuild(s: HybridMemory, t: Tier, projection: seq<real>, bucketCapacity: nat, minHalfSize: real, ghost rows: Rows,
                 kept: seq<nat>) returns (rebuilt: Option<HybridMemory>)
    requires InUse(s, t, projection, rows) && kept != [] && Positions(kept, |rows.payloads|)
    requires SoundTier(t) && StableTier(t) && t.dim > 0 && |projection| == 3 * t.dim && minHalfSize > 0.0
    ensures rebuilt.Some? && |rows.embeddings| == |rows.sketches| == |rows.payloads|
    ensures fresh(rebuilt.value) && fresh(rebuilt.value.tree) && fresh(rebuilt.value.sketch)
    ensures InUse(rebuilt.value, t, projection, Compacted(rows, kept))
    ensures |rebuilt.value.tree.items| == |kept| && forall j :: 0 <= j < |kept| ==>
      Octree.ProjectTo3D(rows.embeddings[kept[j]], projection, t.dim) == Some(rebuilt.value.tree.items[j].point)
  {
    hide InUse, Holds, SoundTier, StableTier, StableRows, Compacted, Octree.ProjectTo3D;
    InUseSizes(s, t, projection, rows);
    var survivors := ChosenEntries(s, t, projection, rows, kept);
    var shard := NewLike(s, t, projection, bucketCapacity, minHalfSize, rows);
    NothingCompacted(rows, kept);
    for j := 0 to |survivors|
      invariant fresh(shard) && fresh(shard.tree) && fresh(shard.sketch)
      invariant Holds(shard, t, projection, Compacted(rows, kept[..j]))
      invariant |shard.log| == j && forall i :: 0 <= i < j ==> shard.log[i].0 == rows.embeddings[kept[i]]
    {
      var ok := AppendNext(shard, t, projection, rows, kept, j, survivors[j].1, survivors[j].0);
      if !ok {
        return None;
      }
    }
    assert kept[..|kept|] == kept;
    RebuiltInUse(shard, t, projection, rows, kept);
    IndexedPlaces(shard, t, projection, Compacted(rows, kept));
    rebuilt := Some(shard);
  }

  lemma InUseSizes(s: HybridMemory, t: Tier, projection: seq<real>, rows: Rows)
    requires InUse(s, t, projection, rows)
    ensures Holds(s, t, projection, rows) && StableRows(t, rows.embeddings, rows.sketches)
    ensures |rows.embeddings| == |rows.sketches| == |rows.payloads|
  {
  }

  lemma RebuiltInUse(s: HybridMemory, t: Tier, projection: seq<real>, rows: Rows, kept: seq<nat>)
    requires |rows.embeddings| == |rows.sketches| == |rows.payloads| && Positions(kept, |rows.payloads|) && kept != []
    requires StableRows(t, rows.embeddings, rows.sketches) && Holds(s, t, projection, Compacted(rows, kept))
    ensures InUse(s, t, projection, Compacted(rows, kept))
  {
    CompactedStable(t, rows, kept);
  }

  lemma NothingCompacted(rows: Rows, kept: seq<nat>)
    requires |rows.embeddings| == |rows.sketches| == |rows.payloads| && Positions(kept, |rows.payloads|)
    ensures Compacted(rows, kept[..0]) == EMPTY.(shortlist := rows.shortlist)
  {
  }

  lemma IndexedPlaces(s: HybridMemory, t: Tier, projection: seq<real>, rows: Rows)
    requires Holds(s, t, projection, rows)
    ensures |s.tree.items| == |s.log| && forall i :: 0 <= i < |s.log| ==>
      Octree.ProjectTo3D(s.log[i].0, projection, t.dim) == Some(s.tree.items[i].point)
  {
    hide Octree.ProjectTo3D;
    forall i | 0 <= i < |s.log|
      ensures Octree.ProjectTo3D(s.log[i].0, projection, t.dim) == Some(s.tree.items[i].point)
    {
      assert s.InSync(i);
    }
  }
}
