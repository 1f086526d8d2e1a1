/** What rebuilding a region from its surviving entries does to rankings and recalls. */
module Compaction {
  import opened ItemIds
  import opened PrecisionTier
  import opened Ranking
  import opened Vectors

  // -- selecting positions -----------------------------------------------------------

  /** Ascending positions below `n`. */
  ghost predicate Positions(kept: seq<nat>, n: nat) {
    && (forall j :: 0 <= j < |kept| ==> kept[j] < n)
    && forall i, j :: 0 <= i < j < |kept| ==> kept[i] < kept[j]
  }

  function Selected<T>(s: seq<T>, kept: seq<nat>): (t: seq<T>)
    requires forall j :: 0 <= j < |kept| ==> kept[j] < |s|
    ensures |t| == |kept| && forall j :: 0 <= j < |kept| ==> t[j] == s[kept[j]]
  {
    seq(|kept|, j requires 0 <= j < |kept| => s[kept[j]])
  }

  /** The old ids of some new ids. */
  ghost function Image(kept: seq<nat>, c: set<nat>): (image: set<nat>)
    ensures forall j :: j in c && j < |kept| ==> kept[j] in image
    ensures forall i :: i in image ==> exists j :: j in c && j < |kept| && kept[j] == i
  {
    set j | j in c && j < |kept| :: kept[j]
  }

  function Renamed(kept: seq<nat>, ids: seq<nat>): (was: seq<nat>)
    requires forall p :: 0 <= p < |ids| ==> ids[p] < |kept|
    ensures |was| == |ids| && forall p :: 0 <= p < |ids| ==> was[p] == kept[ids[p]]
  {
    seq(|ids|, p requires 0 <= p < |ids| => kept[ids[p]])
  }

  // -- rankings ----------------------------------------------------------------------------

  ghost predicate SameKeys(key: seq<real>, kept: seq<nat>, newKey: seq<real>) {
    Positions(kept, |key|) && newKey == Selected(key, kept)
  }

  lemma OrderKept(key: seq<real>, kept: seq<nat>, newKey: seq<real>, a: nat, b: nat)
    requires SameKeys(key, kept, newKey) && a < |kept| && b < |kept|
    ensures Before(newKey, a, b) <==> Before(key, kept[a], kept[b])
  {
    assert a < b <==> kept[a] < kept[b];
  }

  /** A sorted list of new ids is, under the old ids, still sorted, ties included. */
  lemma RenamedInOrder(key: seq<real>, kept: seq<nat>, newKey: seq<real>, s: seq<nat>)
    requires SameKeys(key, kept, newKey) && InOrder(newKey, s) && SetOf(s) <= AllIds(|kept|)
    ensures forall p :: 0 <= p < |s| ==> s[p] < |kept|
    ensures InOrder(key, Renamed(kept, s)) && SetOf(Renamed(kept, s)) == Image(kept, SetOf(s))
  {
    forall p | 0 <= p < |s|
      ensures s[p] < |kept|
    {
      assert s[p] in SetOf(s);
    }
    var t := Renamed(kept, s);
    forall p, q | 0 <= p < q < |s|
      ensures Before(key, t[p], t[q])
    {
      OrderKept(key, kept, newKey, s[p], s[q]);
    }
    RenamedSet(kept, s);
  }

  lemma RenamedSet(kept: seq<nat>, s: seq<nat>)
    requires forall p :: 0 <= p < |s| ==> s[p] < |kept|
    ensures SetOf(Renamed(kept, s)) == Image(kept, SetOf(s))
  {
    var t := Renamed(kept, s);
    forall i
      ensures i in SetOf(t) <==> i in Image(kept, SetOf(s))
    {
      if i in SetOf(t) {
        var p :| 0 <= p < |t| && t[p] == i;
        assert s[p] in SetOf(s);
      }
      if i in Image(kept, SetOf(s)) {
        var j :| j in SetOf(s) && j < |kept| && kept[j] == i;
        var p :| 0 <= p < |s| && s[p] == j;
        assert t[p] == i;
      }
    }
  }

  /** The best of any new candidates are the best of the same candidates under old ids. */
  lemma TopImage(key: seq<real>, kept: seq<nat>, newKey: seq<real>, c: set<nat>, m: nat)
    requires SameKeys(key, kept, newKey) && c <= AllIds(|kept|)
    ensures Image(kept, Top(newKey, c, m)) == Top(key, Image(kept, c), m)
  {
    var s := Listing(newKey, c);
    RenamedInOrder(key, kept, newKey, s);
    var t := Renamed(kept, s);
    PrefixLists(newKey, s, m);
    PrefixLists(key, t, m);
    var front := s[..if m < |s| then m else |s|];
    assert Renamed(kept, front) == t[..if m < |t| then m else |t|];
    RenamedSet(kept, front);
  }

  function OnlyIn(ids: seq<nat>, c: set<nat>): (some: seq<nat>)
    ensures forall i :: i in some <==> i in ids && i in c
  {
    if ids == [] then []
    else
      var front, last := OnlyIn(ids[..|ids| - 1], c), ids[|ids| - 1];
      assert ids == ids[..|ids| - 1] + [last];
      if last in c then front + [last] else front
  }

  lemma {:induction false} OnlyInOrder(key: seq<real>, ids: seq<nat>, c: set<nat>)
    requires InOrder(key, ids)
    ensures InOrder(key, OnlyIn(ids, c))
  {
    if ids == [] {
    } else {
      var front, last := ids[..|ids| - 1], ids[|ids| - 1];
      OnlyInOrder(key, front, c);
      var some := OnlyIn(front, c);
      forall p | 0 <= p < |some|
        ensures Before(key, some[p], last)
      {
        assert some[p] in front;
        var q :| 0 <= q < |front| && front[q] == some[p];
        assert ids[q] == some[p];
      }
    }
  }

  /** The full ranking of a rebuilt region, read under the old ids, is the admitted
      subsequence of the old full ranking, tie order included. */
  lemma RankingCommutes(key: seq<real>, kept: seq<nat>, newKey: seq<real>, ranking: seq<nat>, rebuilt: seq<nat>)
    requires SameKeys(key, kept, newKey)
    requires InOrder(key, ranking) && SetOf(ranking) == AllIds(|key|)
    requires InOrder(newKey, rebuilt) && SetOf(rebuilt) == AllIds(|kept|)
    ensures forall p :: 0 <= p < |rebuilt| ==> rebuilt[p] < |kept|
    ensures Renamed(kept, rebuilt) == OnlyIn(ranking, SetOf(kept))
  {
    hide Before, Image, OnlyIn, Selected;
    RenamedInOrder(key, kept, newKey, rebuilt);
    OnlyInOrder(key, ranking, SetOf(kept));
    ImageOfAll(kept);
    assert forall i :: i in SetOf(kept) ==> i in SetOf(ranking);
    assert SetOf(OnlyIn(ranking, SetOf(kept))) == SetOf(kept);
    ListingUnique(key, Renamed(kept, rebuilt), OnlyIn(ranking, SetOf(kept)));
  }

  lemma ImageOfAll(kept: seq<nat>)
    ensures Image(kept, AllIds(|kept|)) == SetOf(kept)
  {
    forall i | i in kept
      ensures i in Image(kept, AllIds(|kept|))
    {
      var j: nat :| j < |kept| && kept[j] == i;
      assert j in AllIds(|kept|);
    }
  }

  /** Every admitted entry of an old shortlist is in the rebuilt region's shortlist of the
      same size, or of any larger one. */
  lemma ShortlistKept(key: seq<real>, kept: seq<nat>, newKey: seq<real>, m: nat, l: nat)
    requires SameKeys(key, kept, newKey) && (m <= l || |kept| <= l)
    ensures Top(key, AllIds(|key|), m) * SetOf(kept) <= Image(kept, Top(newKey, AllIds(|kept|), l))
  {
    TopImage(key, kept, newKey, AllIds(|kept|), l);
    ImageOfAll(kept);
    if m <= l {
      TopOfSubset(key, AllIds(|key|), SetOf(kept), m);
      TopNested(key, SetOf(kept), m, l);
    } else {
      AllIdsSize(|kept|);
      TopOfAll(newKey, AllIds(|kept|), l);
    }
  }

  // -- recalls -------------------------------------------------------------------------------

  function RenamedHits(kept: seq<nat>, hits: seq<Hit>): (was: seq<Hit>)
    requires forall p :: 0 <= p < |hits| ==> hits[p].id < |kept|
    ensures |was| == |hits| && forall p :: 0 <= p < |hits| ==> was[p] == Hit(kept[hits[p].id], hits[p].score)
  {
    seq(|hits|, p requires 0 <= p < |hits| => Hit(kept[hits[p].id], hits[p].score))
  }

  lemma RenamedRanks(key: seq<real>, kept: seq<nat>, newKey: seq<real>, c: set<nat>, k: nat, hits: seq<Hit>)
    requires SameKeys(key, kept, newKey) && c <= AllIds(|kept|) && Ranks(newKey, c, k, hits)
    ensures forall p :: 0 <= p < |hits| ==> hits[p].id < |kept|
    ensures Ranks(key, Image(kept, c), k, RenamedHits(kept, hits))
  {
    forall p | 0 <= p < |hits|
      ensures hits[p].id < |kept|
    {
      assert Ids(hits)[p] in SetOf(Ids(hits));
    }
    assert SetOf(Ids(hits)) <= AllIds(|kept|);
    RenamedInOrder(key, kept, newKey, Ids(hits));
    TopImage(key, kept, newKey, c, k);
    assert Ids(RenamedHits(kept, hits)) == Renamed(kept, Ids(hits));
  }

  /** How many candidates a filtered recall asks for. */
  function Fetch(k: nat, n: nat): nat {
    var cap := if n < k then k else n;
    if 3 * k + 8 < cap then 3 * k + 8 else cap
  }

  /** The candidates a filtered recall sees, before the filter. */
  ghost function Fetched(score: seq<real>, hamming: seq<real>, k: nat, shortlist: nat): set<nat> {
    var n := |score|;
    Top(score, Top(hamming, AllIds(n), ShortlistSize(Fetch(k, n), shortlist, n)), Fetch(k, n))
  }

  /** `hits` answer a filtered recall: the `k` best admitted candidates. */
  ghost predicate FilteredRecall(score: seq<real>, hamming: seq<real>, admitted: set<nat>, k: nat, shortlist: nat,
                                 hits: seq<Hit>)
  {
    Ranks(score, Fetched(score, hamming, k, shortlist) * admitted, k, hits)
  }

  /** Not shorter, and at no place a lower score. */
  ghost predicate NoWorse(before: seq<Hit>, after: seq<Hit>) {
    |before| <= |after| && forall p :: 0 <= p < |before| ==> before[p].score <= after[p].score
  }

  /** The new ids of some old ids. */
  ghost function Preimage(kept: seq<nat>, c: set<nat>): set<nat> {
    set j: nat | j < |kept| && kept[j] in c
  }

  /** One filtered recall before and one after a rebuild to `kept`. The recall may admit
      less than the rebuild kept, as every later one does, but nothing it dropped. */
  ghost predicate RecallPair(score: seq<real>, hamming: seq<real>, kept: seq<nat>, admitted: set<nat>, k: nat, shortlist: nat,
                             before: seq<Hit>, after: seq<Hit>)
  {
    && |score| == |hamming| && Positions(kept, |score|) && admitted <= SetOf(kept)
    && FilteredRecall(score, hamming, admitted, k, shortlist, before)
    && FilteredRecall(Selected(score, kept), Selected(hamming, kept), Preimage(kept, admitted), k, shortlist, after)
  }

  /** The cut to the fetch size loses nothing that could be admitted: it is made over the
      whole region, or never has to be made. */
  predicate FetchSuffices(k: nat, n: nat, shortlist: nat) {
    shortlist >= n || shortlist <= Fetch(k, n)
  }

  lemma ImageMeets(kept: seq<nat>, c: set<nat>, admitted: set<nat>)
    ensures Image(kept, c * Preimage(kept, admitted)) == Image(kept, c) * admitted
  {
    var both := c * Preimage(kept, admitted);
    forall i | i in Image(kept, c) && i in admitted
      ensures i in Image(kept, both)
    {
      var j :| j in c && j < |kept| && kept[j] == i;
      assert j in both;
    }
  }

  /** Where the fetch suffices, everything seen before and kept is seen again. */
  lemma FetchKept(score: seq<real>, hamming: seq<real>, kept: seq<nat>, k: nat, shortlist: nat)
    requires |score| == |hamming| && Positions(kept, |score|) && FetchSuffices(k, |score|, shortlist)
    ensures Fetched(score, hamming, k, shortlist) * SetOf(kept)
         <= Image(kept, Fetched(Selected(score, kept), Selected(hamming, kept), k, shortlist))
  {
    hide Top, Image, Selected;
    var newScore, newHamming := Selected(score, kept), Selected(hamming, kept);
    var n, m := |score|, |kept|;
    KeptFewer(kept, n);
    if shortlist >= n {
      WholeShortlist(score, hamming, k, shortlist);
      WholeShortlist(newScore, newHamming, k, shortlist);
      ShortlistKept(score, kept, newScore, Fetch(k, n), Fetch(k, m));
    } else {
      NoCut(score, hamming, k, shortlist);
      NoCut(newScore, newHamming, k, shortlist);
      ShortlistKept(hamming, kept, newHamming, ShortlistSize(Fetch(k, n), shortlist, n), ShortlistSize(Fetch(k, m), shortlist, m));
    }
  }

  lemma WholeShortlist(score: seq<real>, hamming: seq<real>, k: nat, shortlist: nat)
    requires |score| == |hamming| <= shortlist
    ensures Fetched(score, hamming, k, shortlist) == Top(score, AllIds(|score|), Fetch(k, |score|))
  {
    AllIdsSize(|score|);
    TopOfAll(hamming, AllIds(|score|), ShortlistSize(Fetch(k, |score|), shortlist, |score|));
  }

  lemma NoCut(score: seq<real>, hamming: seq<real>, k: nat, shortlist: nat)
    requires |score| == |hamming| && (shortlist <= Fetch(k, |score|) || |score| <= Fetch(k, |score|))
    ensures Fetched(score, hamming, k, shortlist)
         == Top(hamming, AllIds(|score|), ShortlistSize(Fetch(k, |score|), shortlist, |score|))
  {
    var n := |score|;
    var size := ShortlistSize(Fetch(k, n), shortlist, n);
    TopSize(hamming, AllIds(n), size);
    TopOfAll(score, Top(hamming, AllIds(n), size), Fetch(k, n));
  }

  /** Where everything is admitted, cutting to the fetch size first changes nothing. */
  lemma FetchHarmless(score: seq<real>, hamming: seq<real>, k: nat, shortlist: nat, hits: seq<Hit>)
    requires |score| == |hamming| && FilteredRecall(score, hamming, AllIds(|score|), k, shortlist, hits)
    ensures Ranks(score, Top(hamming, AllIds(|score|), ShortlistSize(Fetch(k, |score|), shortlist, |score|)), k, hits)
  {
    var n := |score|;
    var s := Top(hamming, AllIds(n), ShortlistSize(Fetch(k, n), shortlist, n));
    assert Fetched(score, hamming, k, shortlist) * AllIds(n) == Top(score, s, Fetch(k, n));
    TopOfTop(score, s, k, Fetch(k, n));
  }

  /** A rebuild never makes a recall worse that admits all of what was kept, and makes no
      later or narrower one worse where the fetch suffices. */
  lemma RecallNeverWorse(score: seq<real>, hamming: seq<real>, kept: seq<nat>, admitted: set<nat>, k: nat, shortlist: nat,
                         before: seq<Hit>, after: seq<Hit>)
    requires RecallPair(score, hamming, kept, admitted, k, shortlist, before, after)
    requires admitted == SetOf(kept) || FetchSuffices(k, |score|, shortlist)
    ensures NoWorse(before, after)
  {
    hide Fetched, Top, Ranks, Image, Selected, Preimage;
    if admitted == SetOf(kept) {
      WholeRecallNeverWorse(score, hamming, kept, k, shortlist, before, after);
    } else {
      var newScore, newHamming := Selected(score, kept), Selected(hamming, kept);
      var fetched := Fetched(newScore, newHamming, k, shortlist);
      FetchKept(score, hamming, kept, k, shortlist);
      FetchedInRange(newScore, newHamming, k, shortlist);
      ImageMeets(kept, fetched, admitted);
      RenamedRanks(score, kept, newScore, fetched * Preimage(kept, admitted), k, after);
      var seen := Fetched(score, hamming, k, shortlist) * admitted;
      assert seen <= Image(kept, fetched) * admitted;
      MoreCandidatesBetter(score, seen, Image(kept, fetched) * admitted, k, before, RenamedHits(kept, after));
    }
  }

  lemma FetchedInRange(score: seq<real>, hamming: seq<real>, k: nat, shortlist: nat)
    ensures Fetched(score, hamming, k, shortlist) <= AllIds(|score|)
  {
  }

  lemma PreimageOfAll(kept: seq<nat>)
    ensures Preimage(kept, SetOf(kept)) == AllIds(|kept|)
  {
    assert forall j :: 0 <= j < |kept| ==> kept[j] in kept;
  }

  lemma WholeRecallNeverWorse(score: seq<real>, hamming: seq<real>, kept: seq<nat>, k: nat, shortlist: nat,
                              before: seq<Hit>, after: seq<Hit>)
    requires RecallPair(score, hamming, kept, SetOf(kept), k, shortlist, before, after)
    ensures NoWorse(before, after)
  {
    PreimageOfAll(kept);
    var newScore, newHamming := Selected(score, kept), Selected(hamming, kept);
    var n, m := |score|, |kept|;
    KeptFewer(kept, n);
    FetchHarmless(newScore, newHamming, k, shortlist, after);
    var size, newSize := ShortlistSize(Fetch(k, n), shortlist, n), ShortlistSize(Fetch(k, m), shortlist, m);
    var candidates := Top(newHamming, AllIds(m), newSize);
    ShortlistKept(hamming, kept, newHamming, size, newSize);
    RenamedRanks(score, kept, newScore, candidates, k, after);
    var seen := Fetched(score, hamming, k, shortlist) * SetOf(kept);
    assert seen <= Image(kept, candidates);
    MoreCandidatesBetter(score, seen, Image(kept, candidates), k, before, RenamedHits(kept, after));
  }

  lemma {:induction false} KeptFewer(kept: seq<nat>, n: nat)
    requires Positions(kept, n)
    ensures |kept| <= n
  {
    if kept == [] {
    } else {
      var last := kept[|kept| - 1];
      KeptFewer(kept[..|kept| - 1], last);
    }
  }

  /** When the recall saw the whole region, a rebuild changes neither the entries nor
      their scores nor their order, whatever later recall is made. */
  lemma RecallUnchanged(score: seq<real>, hamming: seq<real>, kept: seq<nat>, admitted: set<nat>, k: nat, shortlist: nat,
                        before: seq<Hit>, after: seq<Hit>)
    requires RecallPair(score, hamming, kept, admitted, k, shortlist, before, after)
    requires |score| <= Fetch(k, |score|)
    ensures forall p :: 0 <= p < |after| ==> after[p].id < |kept|
    ensures before == RenamedHits(kept, after)
  {
    hide Ranks, Fetched, FilteredRecall, Image, RenamedHits, Selected;
    var newScore, newHamming := Selected(score, kept), Selected(hamming, kept);
    KeptFewer(kept, |score|);
    WholeRegionRecall(score, hamming, admitted, k, shortlist, before);
    WholeRegionRecall(newScore, newHamming, Preimage(kept, admitted), k, shortlist, after);
    RenamedRanks(score, kept, newScore, Preimage(kept, admitted), k, after);
    ImageMeets(kept, AllIds(|kept|), admitted);
    ImageOfAll(kept);
    assert AllIds(|kept|) * Preimage(kept, admitted) == Preimage(kept, admitted);
    assert SetOf(kept) * admitted == admitted;
    RankingUnique(score, admitted, k, before, RenamedHits(kept, after));
  }

  lemma WholeRegionRecall(score: seq<real>, hamming: seq<real>, admitted: set<nat>, k: nat, shortlist: nat, hits: seq<Hit>)
    requires |score| == |hamming| && |score| <= Fetch(k, |score|) && admitted <= AllIds(|score|)
    requires FilteredRecall(score, hamming, admitted, k, shortlist, hits)
    ensures Ranks(score, admitted, k, hits)
  {
    FetchedAll(score, hamming, k, shortlist);
    assert AllIds(|score|) * admitted == admitted;
  }

  lemma FetchedAll(score: seq<real>, hamming: seq<real>, k: nat, shortlist: nat)
    requires |score| == |hamming| && |score| <= Fetch(k, |score|)
    ensures Fetched(score, hamming, k, shortlist) == AllIds(|score|)
  {
    var n := |score|;
    AllIdsSize(n);
    TopOfAll(hamming, AllIds(n), ShortlistSize(Fetch(k, n), shortlist, n));
    TopOfAll(score, AllIds(n), Fetch(k, n));
  }

  // -- stable rows ------------------------------------------------------------------------------

  /** Re-inserting a stored vector stores the same row again. */
  ghost predicate StableTier(t: Tier) {
    forall v {:trigger t.normalize(v)} :: |v| == t.dim ==>
      t.normalize(t.normalize(v)) == t.normalize(v) && t.sketchOf(t.normalize(v)) == t.sketchOf(v)
  }

  ghost predicate StableRows(t: Tier, embeddings: seq<seq<real>>, sketches: seq<seq<bool>>) {
    && |embeddings| == |sketches|
    && forall i :: 0 <= i < |embeddings| ==>
         t.normalize(embeddings[i]) == embeddings[i] && t.sketchOf(embeddings[i]) == sketches[i]
  }

  /** The F32 tier is stable: normalising twice is normalising once, and scaling by a
      positive factor flips no sign of a sketch. */
  lemma F32Stable(dim: nat, planes: seq<seq<real>>, norm: seq<real> -> real)
    requires IsNorm(norm) && 0 < |planes| < MAX_U32
    ensures SoundTier(F32Tier(dim, planes, norm)) && StableTier(F32Tier(dim, planes, norm))
  {
    var t := F32Tier(dim, planes, norm);
    forall v | |v| == dim
      ensures t.normalize(t.normalize(v)) == t.normalize(v) && t.sketchOf(t.normalize(v)) == t.sketchOf(v)
    {
      NormalizeTwice(norm, v);
      SketchOfNormalized(norm, planes, v);
    }
  }

  /** The keys of a rebuilt region are the selected keys of the old one. */
  lemma SelectedKeys(t: Tier, embeddings: seq<seq<real>>, sketches: seq<seq<bool>>, kept: seq<nat>, q: seq<real>)
    requires |embeddings| == |sketches| && Positions(kept, |embeddings|)
    ensures ScoreKey(t, Selected(embeddings, kept), q) == Selected(ScoreKey(t, embeddings, q), kept)
    ensures HammingKey(Selected(sketches, kept), t.sketchOf(q)) == Selected(HammingKey(sketches, t.sketchOf(q)), kept)
  {
  }
}
