/** The bounded best-of-k set of the nearest-neighbour search, and what it means to
    be the k nearest of a set of ids. */
module Knn {
  import opened ItemIds
  import opened Wrappers
  import Sorting

  type Hit = (nat, real)

  ghost predicate Has(best: seq<Hit>, id: nat) {
    exists j :: 0 <= j < |best| && best[j].0 == id
  }

  function Min(a: nat, b: nat): nat {
    if a < b then a else b
  }

  /** `best` holds the `k` ids of `seen` with the smallest distances: distinct ids,
      their own distances, and nobody outside is closer than anybody inside. */
  ghost predicate KBest(best: seq<Hit>, k: nat, seen: set<nat>, dist: seq<real>) {
    && (forall id :: id in seen ==> id < |dist|)
    && (forall j :: 0 <= j < |best| ==> best[j].0 in seen && best[j].1 == dist[best[j].0])
    && (forall i, j :: 0 <= i < j < |best| ==> best[i].0 != best[j].0)
    && |best| == Min(k, |seen|)
    && (forall id, j :: id in seen && !Has(best, id) && 0 <= j < |best| ==> best[j].1 <= dist[id])
  }

  lemma NothingIsBest(k: nat, dist: seq<real>)
    ensures KBest([], k, {}, dist)
  {
  }

  lemma NothingOfNothing(k: nat, seen: set<nat>, dist: seq<real>)
    requires forall id :: id in seen ==> id < |dist|
    ensures k == 0 || seen == {} ==> KBest([], k, seen, dist)
  {
  }

  /** First position of the largest distance. */
  function MaxIndex(best: seq<Hit>): (m: nat)
    requires best != []
    ensures m < |best| && forall j :: 0 <= j < |best| ==> best[j].1 <= best[m].1
    ensures forall j :: 0 <= j < m ==> best[j].1 < best[m].1
  {
    if |best| == 1 then 0
    else
      var m := MaxIndex(best[..|best| - 1]);
      if best[|best| - 1].1 > best[m].1 then |best| - 1 else m
  }

  /** The set after a candidate: appended while there is room, otherwise swapped for
      the first worst entry when strictly closer. */
  function Offered(best: seq<Hit>, k: nat, hit: Hit): seq<Hit>
    requires k > 0
  {
    if |best| < k then best + [hit]
    else
      var m := MaxIndex(best);
      if hit.1 < best[m].1 then best[m := hit] else best
  }

  lemma OfferedIsBest(best: seq<Hit>, k: nat, seen: set<nat>, dist: seq<real>, id: nat)
    requires k > 0 && KBest(best, k, seen, dist) && id !in seen && id < |dist|
    ensures KBest(Offered(best, k, (id, dist[id])), k, seen + {id}, dist)
  {
    var after := Offered(best, k, (id, dist[id]));
    if |best| < k {
      assert after[|best|].0 == id;
      forall other | other in seen + {id}
        ensures Has(after, other)
      {
        if other in seen && !Has(best, other) {
          AllSeenHeld(best, seen);
        }
        if Has(best, other) {
          var j :| 0 <= j < |best| && best[j].0 == other;
          assert after[j].0 == other;
        }
      }
    } else {
      var m := MaxIndex(best);
      if dist[id] < best[m].1 {
        assert after[m].0 == id;
        forall i | 0 <= i < |best| && i != m
          ensures Has(after, best[i].0)
        {
          assert after[i].0 == best[i].0;
        }
      }
    }
  }

  /** Distinct ids drawn from a set of the same size are the whole set. */
  lemma AllSeenHeld(best: seq<Hit>, seen: set<nat>)
    requires forall j :: 0 <= j < |best| ==> best[j].0 in seen
    requires forall i, j :: 0 <= i < j < |best| ==> best[i].0 != best[j].0
    requires |best| == |seen|
    ensures forall id :: id in seen ==> Has(best, id)
  {
    IdSetSize(best);
    SubsetEqual(IdSet(best), seen);
    assert forall id :: id in seen ==> id in IdSet(best);
  }

  ghost function IdSet(best: seq<Hit>): set<nat> {
    set j | 0 <= j < |best| :: best[j].0
  }

  lemma {:induction false} IdSetSize(best: seq<Hit>)
    requires forall i, j :: 0 <= i < j < |best| ==> best[i].0 != best[j].0
    ensures |IdSet(best)| == |best|
  {
    if best == [] {
    } else {
      var front, last := best[..|best| - 1], best[|best| - 1].0;
      IdSetSize(front);
      assert last !in IdSet(front);
      assert IdSet(best) == IdSet(front) + {last} by {
        assert best[|best| - 1].0 == last;
        assert forall j :: 0 <= j < |front| ==> front[j] == best[j];
      }
    }
  }

  /** Pruning is sound: ids no closer than the worst of a full set change nothing. */
  lemma PrunedIsBest(best: seq<Hit>, k: nat, seen: set<nat>, dist: seq<real>, far: set<nat>)
    requires KBest(best, k, seen, dist) && |best| >= k
    requires forall id :: id in far ==> id < |dist| && forall j :: 0 <= j < |best| ==> best[j].1 <= dist[id]
    ensures KBest(best, k, seen + far, dist)
  {
    assert |seen + far| >= |seen| by {
      assert seen + far == seen + (far - seen);
    }
  }

  lemma PermutedIsBest(a: seq<Hit>, b: seq<Hit>, k: nat, seen: set<nat>, dist: seq<real>)
    requires KBest(a, k, seen, dist) && multiset(a) == multiset(b)
    ensures KBest(b, k, seen, dist)
  {
    assert |a| == |multiset(a)| == |multiset(b)| == |b|;
    Sorting.PermutationDistinct(a, b);
    forall j | 0 <= j < |b|
      ensures b[j] in a
    {
      assert b[j] in multiset(a);
    }
    forall j | 0 <= j < |a|
      ensures a[j] in b
    {
      assert a[j] in multiset(b);
    }
  }

  // -- uniqueness up to ties --------------------------------------------------

  ghost predicate Ascending(r: seq<Hit>) {
    forall i, j :: 0 <= i < j < |r| ==> r[i].1 <= r[j].1
  }

  /** Everything strictly closer than the i-th answer is among the answers before it. */
  lemma CloserIsEarlier(b: seq<Hit>, k: nat, seen: set<nat>, dist: seq<real>, i: nat, id: nat)
    requires KBest(b, k, seen, dist) && Ascending(b) && i < |b|
    requires id in seen && dist[id] < b[i].1
    ensures id in IdSet(b[..i])
  {
    assert Has(b, id);
    var l :| 0 <= l < |b| && b[l].0 == id;
    assert l < i;
    assert b[..i][l].0 == id;
  }

  lemma NotBelow(a: seq<Hit>, b: seq<Hit>, k: nat, seen: set<nat>, dist: seq<real>, i: nat)
    requires KBest(a, k, seen, dist) && KBest(b, k, seen, dist) && Ascending(a) && Ascending(b)
    requires i < |a|
    ensures a[i].1 >= b[i].1
  {
    var low, slots := IdSet(a[..i + 1]), IdSet(b[..i]);
    IdSetSize(a[..i + 1]);
    IdSetSize(b[..i]);
    assert exists id :: id in low && id !in slots by {
      if low <= slots {
        SubsetSize(low, slots);
      }
    }
    var id :| id in low && id !in slots;
    var j :| 0 <= j < i + 1 && a[..i + 1][j].0 == id;
    assert a[j].0 == id && dist[id] <= a[i].1;
    if dist[id] < b[i].1 {
      CloserIsEarlier(b, k, seen, dist, i, id);
    }
  }

  /** Two answers to the same k-nearest question carry the same distances, and agree
      on every id strictly closer than the last distance. */
  lemma KBestUnique(a: seq<Hit>, b: seq<Hit>, k: nat, seen: set<nat>, dist: seq<real>)
    requires KBest(a, k, seen, dist) && KBest(b, k, seen, dist) && Ascending(a) && Ascending(b)
    ensures |a| == |b| && forall i :: 0 <= i < |a| ==> a[i].1 == b[i].1
    ensures forall i :: 0 <= i < |a| && a[i].1 < a[|a| - 1].1 ==> Has(b, a[i].0)
  {
    forall i | 0 <= i < |a|
      ensures a[i].1 == b[i].1
    {
      NotBelow(a, b, k, seen, dist, i);
      NotBelow(b, a, k, seen, dist, i);
    }
  }

  // -- the mutable set --------------------------------------------------------

  predicate CloserFirst(a: Hit, b: Hit) {
    a.1 <= b.1
  }

  class KnnSet {
    const k: nat
    var best: seq<Hit>

    constructor (k: nat)
      ensures this.k == (if k == 0 then 1 else k) && best == []
    {
      this.k := if k == 0 then 1 else k;
      best := [];
    }

    predicate IsFull()
      reads this
    {
      |best| >= k
    }

    /** The largest distance held, or none (plus infinity) while there is room. */
    method Worst() returns (w: Option<real>)
      requires k > 0
      ensures w.None? <==> !IsFull()
      ensures w.Some? ==> best != [] && w.value == best[MaxIndex(best)].1
    {
      if |best| < k {
        return None;
      }
      var m := best[0].1;
      for i := 1 to |best|
        invariant m == best[MaxIndex(best[..i])].1
      {
        assert best[..i + 1][..i] == best[..i];
        m := if best[i].1 > m then best[i].1 else m;
      }
      assert best[..|best|] == best;
      w := Some(m);
    }

    method Offer(item: nat, d2: real)
      requires k > 0
      modifies this
      ensures best == Offered(old(best), k, (item, d2))
    {
      if |best| < k {
        best := best + [(item, d2)];
        return;
      }
      var maxI, maxV := 0, best[0].1;
      for i := 1 to |best|
        invariant best == old(best)
        invariant maxI == MaxIndex(best[..i]) && maxV == best[maxI].1
      {
        assert best[..i + 1][..i] == best[..i];
        if best[i].1 > maxV {
          maxI, maxV := i, best[i].1;
        }
      }
      assert best[..|best|] == best;
      if d2 < maxV {
        best := best[maxI := (item, d2)];
      }
    }

    method IntoSorted() returns (sorted: seq<Hit>)
      ensures multiset(sorted) == multiset(best) && Ascending(sorted)
    {
      sorted := Sorting.SortBy(best, CloserFirst);
      Sorting.SortByMultiset(best, CloserFirst);
      Sorting.SortBySorted(best, CloserFirst);
    }
  }
}
