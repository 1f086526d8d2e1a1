/** Where the overfetch of a filtered recall is enough and where it is not: exactly when a
    rebuild can make a later recall worse, and exactly when hidden entries can leave an
    answer short. */
module RecallLimits {
  import opened Compaction
  import opened ItemIds
  import opened PrecisionTier
  import opened Ranking

  // -- ids in key order --------------------------------------------------------------------

  /** Keys that rank ids by their number. */
  function Ascending(n: nat): (key: seq<real>)
    ensures |key| == n && forall i: nat :: i < n ==> KeyAt(key, i) == i as real
  {
    seq(n, i requires 0 <= i < n => i as real)
  }

  lemma AscendingTop(key: seq<real>, n: nat, m: nat)
    requires m <= n && forall a: nat, b: nat :: a < b < n ==> KeyAt(key, a) < KeyAt(key, b)
    ensures Top(key, AllIds(n), m) == AllIds(m)
  {
    forall i: nat | i < n
      ensures i in Top(key, AllIds(n), m) <==> i < m
    {
      forall j: nat
        ensures j in Ahead(key, AllIds(n), i) <==> j in AllIds(i)
      {
        assert j < i || j == i || j > i;
      }
      assert Ahead(key, AllIds(n), i) == AllIds(i);
      AllIdsSize(i);
    }
  }

  // -- recalls after a rebuild ---------------------------------------------------------------

  /** A region in which the last fetched entry is the only one a later recall admits. The
      rebuild drops entry 0, so entry `shortlist` enters the Hamming shortlist, is the best
      by score, and pushes that entry out of the fetch. */
  function Pushed(n: nat, shortlist: nat): (score: seq<real>)
    ensures |score| == n
  {
    seq(n, i requires 0 <= i < n => if i == 0 then n as real else if i == shortlist then 0.0 else i as real)
  }

  function AllButFirst(n: nat): (kept: seq<nat>)
    requires n > 0
    ensures |kept| == n - 1 && Positions(kept, n)
    ensures forall j: nat :: j < n - 1 ==> kept[j] == j + 1
  {
    seq(n - 1, j requires 0 <= j < n - 1 => j + 1)
  }

  lemma SeenBefore(k: nat, n: nat, shortlist: nat)
    requires k > 0 && Fetch(k, n) < shortlist < n
    ensures Fetched(Pushed(n, shortlist), Ascending(n), k, shortlist) * {Fetch(k, n)} == {Fetch(k, n)}
  {
    var score, f := Pushed(n, shortlist), Fetch(k, n);
    AscendingTop(Ascending(n), n, shortlist);
    forall j: nat
      ensures j in Ahead(score, AllIds(shortlist), f) ==> j in AllIds(f) && j != 0
    {
    }
    AllIdsSize(f);
    SubsetSize(Ahead(score, AllIds(shortlist), f), AllIds(f) - {0});
    assert 0 in AllIds(f);
  }

  /** Entry `j` of the rebuilt region was entry `j + 1`. */
  lemma RebuiltKeys(n: nat, shortlist: nat)
    requires n > 0
    ensures var score, hamming := Selected(Pushed(n, shortlist), AllButFirst(n)), Selected(Ascending(n), AllButFirst(n));
      && |score| == |hamming| == n - 1
      && (forall j: nat :: j < n - 1 ==> KeyAt(score, j) == if j + 1 == shortlist then 0.0 else (j + 1) as real)
      && forall j: nat :: j < n - 1 ==> KeyAt(hamming, j) == (j + 1) as real
  {
  }

  lemma PushedOut(score: seq<real>, f: nat, shortlist: nat)
    requires 0 < f < shortlist <= |score|
    requires forall j: nat :: j < |score| ==> KeyAt(score, j) == if j + 1 == shortlist then 0.0 else (j + 1) as real
    ensures f - 1 !in Top(score, AllIds(shortlist), f)
  {
    hide AllIds, KeyAt;
    var ahead := AllIds(f - 1) + {shortlist - 1};
    assert KeyAt(score, f - 1) == f as real && KeyAt(score, shortlist - 1) == 0.0;
    assert ahead <= Ahead(score, AllIds(shortlist), f - 1);
    AllIdsSize(f - 1);
    assert shortlist - 1 !in AllIds(f - 1);
    SubsetSize(ahead, Ahead(score, AllIds(shortlist), f - 1));
  }

  lemma GoneAfter(k: nat, n: nat, shortlist: nat)
    requires k > 0 && Fetch(k, n) < shortlist < n
    ensures var kept := AllButFirst(n);
      Fetched(Selected(Pushed(n, shortlist), kept), Selected(Ascending(n), kept), k, shortlist)
        * Preimage(kept, {Fetch(k, n)}) == {}
  {
    hide Top, Selected, Pushed, Ascending;
    var kept, f := AllButFirst(n), Fetch(k, n);
    var score, hamming := Selected(Pushed(n, shortlist), kept), Selected(Ascending(n), kept);
    RebuiltKeys(n, shortlist);
    AscendingTop(hamming, n - 1, shortlist);
    assert ShortlistSize(Fetch(k, n - 1), shortlist, n - 1) == shortlist && Fetch(k, n - 1) == f;
    PushedOut(score, f, shortlist);
    assert forall j :: j in Preimage(kept, {f}) ==> j == f - 1;
  }

  lemma RankOne(key: seq<real>, i: nat, k: nat)
    requires k > 0
    ensures Ranks(key, {i}, k, [Hit(i, -KeyAt(key, i))])
  {
    var hits := [Hit(i, -KeyAt(key, i))];
    assert Ahead(key, {i}, i) == {};
    assert Ids(hits) == [i];
  }

  lemma RankNone(key: seq<real>, k: nat)
    ensures Ranks(key, {}, k, [])
  {
    assert Ids([]) == [];
  }

  /** For every fetch that does not suffice there is such a region, and the rebuilt one
      answers nothing where the old one answered. */
  lemma RebuildCanBeWorse(k: nat, n: nat, shortlist: nat)
    requires k > 0 && !FetchSuffices(k, n, shortlist)
    ensures var f := Fetch(k, n);
      RecallPair(Pushed(n, shortlist), Ascending(n), AllButFirst(n), {f}, k, shortlist,
                 [Hit(f, -KeyAt(Pushed(n, shortlist), f))], [])
  {
    hide Fetched, Ranks, Preimage;
    var kept, f := AllButFirst(n), Fetch(k, n);
    SeenBefore(k, n, shortlist);
    GoneAfter(k, n, shortlist);
    RankOne(Pushed(n, shortlist), f, k);
    RankNone(Selected(Pushed(n, shortlist), kept), k);
    assert kept[f - 1] == f;
  }

  lemma FetchSufficesMeans(k: nat, n: nat, shortlist: nat)
    ensures FetchSuffices(k, n, shortlist) <==> shortlist >= n || shortlist <= 3 * k + 8
  {
  }

  /** So a rebuild never makes a later recall worse exactly when the shortlist covers the
      region or has at most 3k + 8 entries. */
  lemma NeverWorseIff(k: nat, n: nat, shortlist: nat)
    requires k > 0
    ensures shortlist >= n || shortlist <= 3 * k + 8 <==>
      forall score, hamming, kept, admitted, before, after ::
        RecallPair(score, hamming, kept, admitted, k, shortlist, before, after) && |score| == n ==> NoWorse(before, after)
  {
    FetchSufficesMeans(k, n, shortlist);
    if FetchSuffices(k, n, shortlist) {
      forall score, hamming, kept, admitted, before, after |
        RecallPair(score, hamming, kept, admitted, k, shortlist, before, after) && |score| == n
        ensures NoWorse(before, after)
      {
        RecallNeverWorse(score, hamming, kept, admitted, k, shortlist, before, after);
      }
    } else {
      RebuildCanBeWorse(k, n, shortlist);
      var before := [Hit(Fetch(k, n), -KeyAt(Pushed(n, shortlist), Fetch(k, n)))];
      assert RecallPair(Pushed(n, shortlist), Ascending(n), AllButFirst(n), {Fetch(k, n)}, k, shortlist, before, []);
      assert !NoWorse(before, []);
    }
  }

  // -- how long an answer is ---------------------------------------------------------------

  /** The answer to a filtered recall of a region of `n` entries, `hidden` of which the
      filter does not admit. */
  ghost predicate Answer(score: seq<real>, hamming: seq<real>, admitted: set<nat>, n: nat, hidden: nat, k: nat, shortlist: nat,
                         hits: seq<Hit>)
  {
    && |score| == |hamming| == n && admitted <= AllIds(n) && |admitted| + hidden == n
    && FilteredRecall(score, hamming, admitted, k, shortlist, hits)
  }

  predicate Full(hits: seq<Hit>, n: nat, hidden: nat, k: nat) {
    |hits| == if k + hidden < n then k else n - hidden
  }

  /** The overfetch makes up for the hidden entries: there are few enough of them, or the
      fetch covers the region, or they are all there is. */
  predicate Overfetched(k: nat, n: nat, hidden: nat) {
    n <= Fetch(k, n) || k + hidden <= Fetch(k, n) || hidden >= n
  }

  lemma FetchedSize(score: seq<real>, hamming: seq<real>, k: nat, shortlist: nat)
    requires |score| == |hamming|
    ensures var n := |score|;
      Fetched(score, hamming, k, shortlist) <= AllIds(n)
      && |Fetched(score, hamming, k, shortlist)| == if Fetch(k, n) < n then Fetch(k, n) else n
  {
    var n := |score|;
    var size := ShortlistSize(Fetch(k, n), shortlist, n);
    AllIdsSize(n);
    TopSize(hamming, AllIds(n), size);
    TopSize(score, Top(hamming, AllIds(n), size), Fetch(k, n));
  }

  lemma MeetSize(a: set<nat>, b: set<nat>, n: nat)
    requires a <= AllIds(n) && b <= AllIds(n)
    ensures |a * b| <= |b| && |a * b| + n >= |a| + |b|
  {
    SubsetSize(a * b, b);
    AllIdsSize(n);
    SubsetSize(a + b, AllIds(n));
    assert |a + b| == |a| + |b| - |a * b|;
  }

  lemma AnswerLength(score: seq<real>, hamming: seq<real>, admitted: set<nat>, n: nat, hidden: nat, k: nat, shortlist: nat,
                     hits: seq<Hit>)
    requires Answer(score, hamming, admitted, n, hidden, k, shortlist, hits)
    ensures var seen := |Fetched(score, hamming, k, shortlist) * admitted|;
      |hits| == if k < seen then k else seen
  {
    var c := Fetched(score, hamming, k, shortlist) * admitted;
    ListSize(score, c, k, Ids(hits));
    TopSize(score, c, k);
  }

  lemma OverfetchedIsFull(score: seq<real>, hamming: seq<real>, admitted: set<nat>, n: nat, hidden: nat, k: nat, shortlist: nat,
                          hits: seq<Hit>)
    requires Answer(score, hamming, admitted, n, hidden, k, shortlist, hits) && Overfetched(k, n, hidden)
    ensures Full(hits, n, hidden, k)
  {
    hide Fetched;
    AnswerLength(score, hamming, admitted, n, hidden, k, shortlist, hits);
    FetchedSize(score, hamming, k, shortlist);
    MeetSize(Fetched(score, hamming, k, shortlist), admitted, n);
  }

  lemma SomeRanking(key: seq<real>, c: set<nat>, k: nat)
    ensures exists hits :: Ranks(key, c, k, hits)
  {
    var ids := Listing(key, c);
    PrefixLists(key, ids, k);
    var first := ids[..if k < |ids| then k else |ids|];
    var hits := seq(|first|, p requires 0 <= p < |first| => Hit(first[p], -KeyAt(key, first[p])));
    assert Ids(hits) == first;
    assert Ranks(key, c, k, hits);
  }

  lemma FetchedFirst(k: nat, n: nat, shortlist: nat)
    requires Fetch(k, n) <= n
    ensures Fetched(Ascending(n), Ascending(n), k, shortlist) == AllIds(Fetch(k, n))
  {
    hide Top;
    var key, size := Ascending(n), ShortlistSize(Fetch(k, n), shortlist, n);
    AscendingTop(key, n, size);
    AscendingTop(key, size, Fetch(k, n));
  }

  /** Hidden entries that rank ahead of every other one. */
  lemma ShortAnswer(k: nat, n: nat, hidden: nat, shortlist: nat)
    requires k > 0 && !Overfetched(k, n, hidden)
    ensures exists admitted, hits ::
      Answer(Ascending(n), Ascending(n), admitted, n, hidden, k, shortlist, hits) && !Full(hits, n, hidden, k)
  {
    hide Ranks, Fetched, Ascending;
    var key, f := Ascending(n), Fetch(k, n);
    var admitted := AllIds(n) - AllIds(hidden);
    FetchedFirst(k, n, shortlist);
    BelowSize(n, hidden);
    var c := AllIds(f) * admitted;
    assert c == AllIds(f) - AllIds(hidden);
    SomeRanking(key, c, k);
    var hits :| Ranks(key, c, k, hits);
    assert Answer(key, key, admitted, n, hidden, k, shortlist, hits);
    AnswerLength(key, key, admitted, n, hidden, k, shortlist, hits);
    BelowSize(f, hidden);
  }

  lemma BelowSize(f: nat, hidden: nat)
    ensures |AllIds(f) - AllIds(hidden)| == if hidden < f then f - hidden else 0
  {
    AllIdsSize(f);
    AllIdsSize(hidden);
    if hidden < f {
      assert AllIds(hidden) <= AllIds(f);
      assert |AllIds(f) - AllIds(hidden)| == |AllIds(f)| - |AllIds(hidden)|;
    } else {
      assert AllIds(f) - AllIds(hidden) == {};
    }
  }

  lemma OverfetchedMeans(k: nat, n: nat, hidden: nat)
    ensures Overfetched(k, n, hidden) <==> n <= 3 * k + 8 || hidden <= 2 * k + 8 || hidden >= n
  {
  }

  /** An answer has as many entries as there are to admit, up to `k`, for every region and
      filter with this many hidden entries exactly when the region has at most 3k + 8
      entries, or at most 2k + 8 of them are hidden, or all are. */
  lemma FullIff(k: nat, n: nat, hidden: nat, shortlist: nat)
    requires k > 0
    ensures n <= 3 * k + 8 || hidden <= 2 * k + 8 || hidden >= n <==>
      forall score, hamming, admitted, hits ::
        Answer(score, hamming, admitted, n, hidden, k, shortlist, hits) ==> Full(hits, n, hidden, k)
  {
    OverfetchedMeans(k, n, hidden);
    if Overfetched(k, n, hidden) {
      forall score, hamming, admitted, hits | Answer(score, hamming, admitted, n, hidden, k, shortlist, hits)
        ensures Full(hits, n, hidden, k)
      {
        OverfetchedIsFull(score, hamming, admitted, n, hidden, k, shortlist, hits);
      }
    } else {
      ShortAnswer(k, n, hidden, shortlist);
    }
  }
}
