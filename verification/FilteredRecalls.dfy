/** Filtered recall over one region, on values: which entries a record filter admits, what
    the overfetch-and-filter loop returns, and what compaction and purging change. */
module FilteredRecalls {
  import opened Bytes
  import opened Compaction
  import opened ItemIds
  import opened PrecisionTier
  import opened Ranking
  import opened RecallLimits
  import opened Traversal
  import opened Wrappers
  import Records

  /** Whether the filter shows the entry with this payload. */
  predicate Admits(records: seq<Records.Record>, filter: Records.Filter, keyOf: KeyOf, payload: seq<Byte>) {
    Records.AdmitsId(records, keyOf(payload), filter)
  }

  /** An entry is shown when its record, if it has one, is active and not yet expired, of the
      tenant, workspace and agent the filter fixes, and within its clearance. */
  lemma AdmitsMeans(records: seq<Records.Record>, f: Records.Filter, keyOf: KeyOf, payload: seq<Byte>)
    requires Records.Ascending(records)
    ensures Admits(records, f, keyOf, payload) <==>
      forall r :: r in records && r.id == keyOf(payload) ==>
        && r.status.Active? && (r.retention.expiresAt.Some? ==> f.now < r.retention.expiresAt.value)
        && (f.tenant.Some? ==> f.tenant.value == r.scope.tenant)
        && (f.workspace.Some? ==> f.workspace.value == r.scope.workspace)
        && (f.agent.Some? ==> f.agent.value == r.scope.agent)
        && (f.clearance.Public? ==> r.sensitivity.Public?)
        && (f.clearance.Internal? ==> r.sensitivity.Public? || r.sensitivity.Internal?)
        && (f.clearance.Confidential? ==> !r.sensitivity.Restricted?)
  {
    hide Records.AdmitsRecord, Records.Lookup, Records.Ascending;
    Records.LookupMeans(records, keyOf(payload));
    var found := Records.Lookup(records, keyOf(payload));
    if found.Some? {
      Records.AdmitsRecordMeans(f, found.value);
    }
  }

  ghost function AdmittedIds(records: seq<Records.Record>, filter: Records.Filter, keyOf: KeyOf,
                             payloads: seq<seq<Byte>>): set<nat>
  {
    set i: nat | i < |payloads| && Admits(records, filter, keyOf, payloads[i])
  }

  /** Positions of the admitted entries, ascending: what a compaction keeps. */
  function Survivors(records: seq<Records.Record>, filter: Records.Filter, keyOf: KeyOf, payloads: seq<seq<Byte>>): (kept: seq<nat>)
    ensures Positions(kept, |payloads|)
    ensures forall i: nat :: i in kept <==> i < |payloads| && Admits(records, filter, keyOf, payloads[i])
  {
    if payloads == [] then []
    else
      var last := |payloads| - 1;
      var front := Survivors(records, filter, keyOf, payloads[..last]);
      if Admits(records, filter, keyOf, payloads[last]) then front + [last] else front
  }

  lemma SurvivorSet(records: seq<Records.Record>, filter: Records.Filter, keyOf: KeyOf, payloads: seq<seq<Byte>>)
    ensures SetOf(Survivors(records, filter, keyOf, payloads)) == AdmittedIds(records, filter, keyOf, payloads)
  {
  }

  /** What a filter admits of the selected entries. */
  lemma SelectedAdmitted(records: seq<Records.Record>, filter: Records.Filter, keyOf: KeyOf, payloads: seq<seq<Byte>>, kept: seq<nat>)
    requires Positions(kept, |payloads|)
    ensures AdmittedIds(records, filter, keyOf, Selected(payloads, kept))
         == Preimage(kept, AdmittedIds(records, filter, keyOf, payloads))
  {
  }

  // -- the filter loop --------------------------------------------------------------------

  function AdmittedHits(hits: seq<Hit>, admitted: set<nat>): (some: seq<Hit>)
    ensures Ids(some) == OnlyIn(Ids(hits), admitted)
    ensures forall h :: h in some ==> h in hits
  {
    if hits == [] then []
    else
      var front, last := AdmittedHits(hits[..|hits| - 1], admitted), hits[|hits| - 1];
      assert Ids(hits)[..|hits| - 1] == Ids(hits[..|hits| - 1]);
      assert Ids(front + [last]) == Ids(front) + [last.id];
      if last.id in admitted then front + [last] else front
  }

  lemma {:induction false} AdmittedPrefix(hits: seq<Hit>, admitted: set<nat>, i: nat)
    requires i <= |hits|
    ensures AdmittedHits(hits[..i], admitted) <= AdmittedHits(hits, admitted)
    decreases |hits|
  {
    if i < |hits| {
      AdmittedPrefix(hits[..|hits| - 1], admitted, i);
      assert hits[..|hits| - 1][..i] == hits[..i];
    } else {
      assert hits[..i] == hits;
    }
  }

  /** The first `k` admitted entries of a ranked pool are the `k` best admitted of it. */
  lemma FirstAdmittedRank(key: seq<real>, c: set<nat>, fetch: nat, admitted: set<nat>, k: nat, pool: seq<Hit>, first: seq<Hit>)
    requires Ranks(key, c, fetch, pool)
    requires first <= AdmittedHits(pool, admitted)
    requires |first| == k || (first == AdmittedHits(pool, admitted) && |first| < k)
    ensures Ranks(key, Top(key, c, fetch) * admitted, k, first)
  {
    var all := AdmittedHits(pool, admitted);
    OnlyInOrder(key, Ids(pool), admitted);
    assert SetOf(Ids(all)) == Top(key, c, fetch) * admitted by {
      assert forall i :: i in Ids(all) <==> i in SetOf(Ids(pool)) && i in admitted;
    }
    PrefixLists(key, Ids(all), k);
    assert Ids(first) == Ids(all)[..|first|];
    assert forall p :: 0 <= p < |first| ==> first[p] in pool;
  }

  /** Whatever is ranked out of admitted candidates is admitted. */
  lemma HitsAdmitted(key: seq<real>, c: set<nat>, admitted: set<nat>, k: nat, hits: seq<Hit>, p: nat)
    requires Ranks(key, c * admitted, k, hits) && p < |hits|
    ensures hits[p].id in admitted
  {
    assert Ids(hits)[p] in SetOf(Ids(hits));
  }

  // -- compaction and purging -------------------------------------------------------------

  /** What one filter admits of a region under some records, another admitted under earlier ones. */
  ghost predicate AdmitsNoMore(records: seq<Records.Record>, filter: Records.Filter, earlier: seq<Records.Record>,
                               compacted: Records.Filter, keyOf: KeyOf, payloads: seq<seq<Byte>>)
  {
    AdmittedIds(records, filter, keyOf, payloads) <= AdmittedIds(earlier, compacted, keyOf, payloads)
  }

  /** While the records stay, every later and every narrower recall admits no more. */
  lemma NarrowerAdmitsNoMore(records: seq<Records.Record>, filter: Records.Filter, compacted: Records.Filter, keyOf: KeyOf,
                             payloads: seq<seq<Byte>>)
    requires Records.Narrower(filter, compacted)
    ensures AdmitsNoMore(records, filter, records, compacted, keyOf, payloads)
  {
    forall i: nat | i < |payloads| && Admits(records, filter, keyOf, payloads[i])
      ensures Admits(records, compacted, keyOf, payloads[i])
    {
      Records.NarrowerAdmitsLess(records, keyOf(payloads[i]), filter, compacted);
    }
  }

  /** A compaction and a recall that admits nothing the compaction dropped: the recall is
      never worse afterwards if it admits all that was kept or the fetch suffices, and
      is unchanged when it saw the whole region. */
  lemma CompactionKeepsRecall(t: Tier, embeddings: seq<seq<real>>, sketches: seq<seq<bool>>, payloads: seq<seq<Byte>>,
                              earlier: seq<Records.Record>, compacted: Records.Filter,
                              records: seq<Records.Record>, filter: Records.Filter, keyOf: KeyOf, q: seq<real>,
                              k: nat, shortlist: nat, before: seq<Hit>, after: seq<Hit>)
    requires |embeddings| == |sketches| == |payloads| && AdmitsNoMore(records, filter, earlier, compacted, keyOf, payloads)
    requires FilteredRecall(ScoreKey(t, embeddings, q), HammingKey(sketches, t.sketchOf(q)),
                            AdmittedIds(records, filter, keyOf, payloads), k, shortlist, before)
    requires var kept := Survivors(earlier, compacted, keyOf, payloads);
      FilteredRecall(ScoreKey(t, Selected(embeddings, kept), q), HammingKey(Selected(sketches, kept), t.sketchOf(q)),
                     AdmittedIds(records, filter, keyOf, Selected(payloads, kept)), k, shortlist, after)
    ensures AdmitsNoMore(earlier, compacted, records, filter, keyOf, payloads) || FetchSuffices(k, |payloads|, shortlist) ==>
      NoWorse(before, after)
    ensures |payloads| <= Fetch(k, |payloads|) ==>
      var kept := Survivors(earlier, compacted, keyOf, payloads);
      (forall p :: 0 <= p < |after| ==> after[p].id < |kept|) && before == RenamedHits(kept, after)
  {
    hide FilteredRecall, ScoreKey, HammingKey, AdmittedIds, Survivors, Selected;
    var kept := Survivors(earlier, compacted, keyOf, payloads);
    SurvivorSet(earlier, compacted, keyOf, payloads);
    SelectedAdmitted(records, filter, keyOf, payloads, kept);
    SelectedKeys(t, embeddings, sketches, kept, q);
    var score, hamming := ScoreKey(t, embeddings, q), HammingKey(sketches, t.sketchOf(q));
    var admitted := AdmittedIds(records, filter, keyOf, payloads);
    assert RecallPair(score, hamming, kept, admitted, k, shortlist, before, after);
    if admitted == SetOf(kept) || FetchSuffices(k, |payloads|, shortlist) {
      RecallNeverWorse(score, hamming, kept, admitted, k, shortlist, before, after);
    }
    if |payloads| <= Fetch(k, |payloads|) {
      RecallUnchanged(score, hamming, kept, admitted, k, shortlist, before, after);
    }
  }

  /** Entry 0 alone is hidden when the region is compacted, and entry `last` alone is still
      admitted later. */
  function Expiring(n: nat, last: nat, hidden: seq<Byte>, expiring: seq<Byte>, lasting: seq<Byte>): (payloads: seq<seq<Byte>>)
    ensures |payloads| == n
  {
    seq(n, i requires 0 <= i < n => if i == 0 then hidden else if i == last then lasting else expiring)
  }

  /** Where the fetch does not suffice, a compaction can lose a later recall its answer
      although the recall's filter is the compaction's own at a later time: the other
      entries kept have expired since, and still take up the fetch. */
  lemma LaterRecallLost(records: seq<Records.Record>, filter: Records.Filter, later: U64, keyOf: KeyOf,
                        hidden: seq<Byte>, expiring: seq<Byte>, lasting: seq<Byte>, k: nat, n: nat, shortlist: nat)
    requires k > 0 && !FetchSuffices(k, n, shortlist) && later >= filter.now
    requires !Admits(records, filter, keyOf, hidden) && Admits(records, filter, keyOf, expiring)
    requires !Admits(records, filter.(now := later), keyOf, expiring) && Admits(records, filter.(now := later), keyOf, lasting)
    ensures var f := Fetch(k, n);
      var payloads := Expiring(n, f, hidden, expiring, lasting);
      var kept := Survivors(records, filter, keyOf, payloads);
      && AdmittedIds(records, filter.(now := later), keyOf, payloads) == {f}
      && RecallPair(Pushed(n, shortlist), RecallLimits.Ascending(n), kept, {f}, k, shortlist,
                    [Hit(f, -KeyAt(Pushed(n, shortlist), f))], [])
  {
    hide RecallPair, Pushed, Survivors, Admits, AdmittedIds;
    ExpiringKept(records, filter, later, keyOf, hidden, expiring, lasting, n, Fetch(k, n));
    RebuildCanBeWorse(k, n, shortlist);
  }

  lemma ExpiringKept(records: seq<Records.Record>, filter: Records.Filter, later: U64, keyOf: KeyOf,
                     hidden: seq<Byte>, expiring: seq<Byte>, lasting: seq<Byte>, n: nat, last: nat)
    requires 0 < last < n && later >= filter.now
    requires !Admits(records, filter, keyOf, hidden) && Admits(records, filter, keyOf, expiring)
    requires !Admits(records, filter.(now := later), keyOf, expiring) && Admits(records, filter.(now := later), keyOf, lasting)
    ensures var payloads := Expiring(n, last, hidden, expiring, lasting);
      && AdmittedIds(records, filter.(now := later), keyOf, payloads) == {last}
      && Survivors(records, filter, keyOf, payloads) == AllButFirst(n)
  {
    hide Records.AdmitsId, Survivors;
    var payloads := Expiring(n, last, hidden, expiring, lasting);
    LaterAdmitsLess(records, filter, later, keyOf, hidden);
    LaterAdmitsLess(records, filter, later, keyOf, lasting);
    var kept := Survivors(records, filter, keyOf, payloads);
    forall i: nat
      ensures i in kept <==> i in AllButFirst(n)
    {
      if 0 < i < n {
        assert AllButFirst(n)[i - 1] == i;
      }
    }
    SameMembers(kept, AllButFirst(n), n);
  }

  lemma LaterAdmitsLess(records: seq<Records.Record>, filter: Records.Filter, later: U64, keyOf: KeyOf, payload: seq<Byte>)
    requires later >= filter.now
    ensures Admits(records, filter.(now := later), keyOf, payload) ==> Admits(records, filter, keyOf, payload)
  {
    if Admits(records, filter.(now := later), keyOf, payload) {
      Records.NarrowerAdmitsLess(records, keyOf(payload), filter.(now := later), filter);
    }
  }

  /** Ascending positions are determined by which they are. */
  lemma SameMembers(a: seq<nat>, b: seq<nat>, n: nat)
    requires Positions(a, n) && Positions(b, n) && forall i :: i in a <==> i in b
    ensures a == b
  {
    var key := RecallLimits.Ascending(n);
    assert InOrder(key, a) && InOrder(key, b);
    assert SetOf(a) == SetOf(b);
    ListingUnique(key, a, b);
  }

  /** Exactly what a purge changes: ids whose purgeable record hid them pass afterwards,
      because ids without a record are admitted. */
  lemma PurgeExposes(before: seq<Records.Record>, after: seq<Records.Record>, now: U64, id: Text, f: Records.Filter)
    requires Records.Lookup(after, id) == Records.Spared(Records.Lookup(before, id), now)
    ensures Records.AdmitsId(after, id, f) <==>
      Records.AdmitsId(before, id, f) || (Records.Lookup(before, id).Some? && Records.PurgeableAt(Records.Lookup(before, id).value, now))
  {
  }

  /** No record of an entry is purgeable. */
  predicate NonePurgeable(records: seq<Records.Record>, now: U64, keyOf: KeyOf, payloads: seq<seq<Byte>>) {
    forall i :: 0 <= i < |payloads| ==>
      var r := Records.Lookup(records, keyOf(payloads[i]));
      r.Some? ==> !Records.PurgeableAt(r.value, now)
  }

  /** A purge leaves what a filter admits in a region alone exactly when it purges no
      record of an entry there. */
  lemma PurgeSparesRegion(before: seq<Records.Record>, after: seq<Records.Record>, now: U64, keyOf: KeyOf,
                          payloads: seq<seq<Byte>>, f: Records.Filter)
    requires forall id: Text :: Records.Lookup(after, id) == Records.Spared(Records.Lookup(before, id), now)
    ensures AdmittedIds(after, f, keyOf, payloads) == AdmittedIds(before, f, keyOf, payloads) <==>
      NonePurgeable(before, now, keyOf, payloads)
  {
    forall i: nat | i < |payloads|
      ensures var r := Records.Lookup(before, keyOf(payloads[i]));
        Admits(after, f, keyOf, payloads[i]) == Admits(before, f, keyOf, payloads[i]) <==>
          (r.Some? ==> !Records.PurgeableAt(r.value, now))
    {
      PurgeExposes(before, after, now, keyOf(payloads[i]), f);
    }
    hide Admits, Records.PurgeableAt, Records.Lookup;
    assert forall i: nat :: i < |payloads| ==> (i in AdmittedIds(after, f, keyOf, payloads) <==> Admits(after, f, keyOf, payloads[i]));
    assert forall i: nat :: i < |payloads| ==> (i in AdmittedIds(before, f, keyOf, payloads) <==> Admits(before, f, keyOf, payloads[i]));
  }

  /** Entries a compaction kept have no purgeable record, as long as their records stay as
      they were. */
  lemma CompactedNotPurgeable(earlier: seq<Records.Record>, records: seq<Records.Record>, now: U64, keyOf: KeyOf,
                              payloads: seq<seq<Byte>>, compacted: Records.Filter)
    requires forall i :: 0 <= i < |payloads| ==> Admits(earlier, compacted, keyOf, payloads[i])
    requires forall i :: 0 <= i < |payloads| ==>
      Records.Lookup(records, keyOf(payloads[i])) == Records.Lookup(earlier, keyOf(payloads[i]))
    ensures NonePurgeable(records, now, keyOf, payloads)
  {
    forall i | 0 <= i < |payloads|
      ensures Admits(earlier, compacted, keyOf, payloads[i])
    {
    }
  }

  /** The order matters: purging first brings a tombstoned entry back into recall. */
  lemma PurgeFirstResurrects(r: Records.Record, now: U64)
    requires Records.PurgeableAt(r, now)
    ensures var f := Records.Filter(now, None, None, None, Records.Restricted);
      && !Records.AdmitsId([r], r.id, f)
      && Records.Unpurgeable([r], now) == []
      && Records.AdmitsId(Records.Unpurgeable([r], now), r.id, f)
  {
    assert [r][..0] == [];
    assert Records.Unpurgeable([r][..0], now) == [];
  }
}
