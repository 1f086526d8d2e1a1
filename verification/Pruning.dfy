/** Which generations a prune keeps and how far it has come. A store of one memory and
    the root of a sharded store prune alike, so a generation directory is of any type. */
module Pruning {
  import Sorting
  import ItemIds
  import opened GenerationNumbers

  ghost function Newer(present: set<nat>, g: nat): set<nat> {
    set x | x in present && x > g
  }

  /** A generation survives when fewer than `keep` are newer, or CURRENT names it. */
  ghost predicate Kept(present: set<nat>, keep: nat, current: nat, g: nat) {
    |Newer(present, g)| < keep || g == current
  }

  /** Whatever a prune has to keep is still there, as it was, and nothing is new. */
  ghost predicate Spares<D>(before: map<nat, D>, after: map<nat, D>, keep: nat, current: nat) {
    && after.Keys <= before.Keys
    && forall g :: g in before && Kept(before.Keys, keep, current, g) ==> g in after && after[g] == before[g]
  }

  /** And nothing else is left. */
  ghost predicate Complete<D>(before: map<nat, D>, after: map<nat, D>, keep: nat, current: nat) {
    Spares(before, after, keep, current) && forall g :: g in after ==> Kept(before.Keys, keep, current, g)
  }

  predicate NewestFirst(a: nat, b: nat) {
    a >= b
  }

  /** All generation numbers, newest first. */
  ghost predicate Lists(sorted: seq<nat>, present: set<nat>) {
    && (forall i, j :: 0 <= i < j < |sorted| ==> sorted[i] > sorted[j])
    && (forall g :: g in sorted <==> g in present)
  }

  /** Reads the generation numbers in directory order and sorts them. */
  method NewestFirstListing(present: set<nat>) returns (sorted: seq<nat>)
    ensures Lists(sorted, present)
  {
    var found: seq<nat> := [];
    var left := present;
    while left != {}
      invariant left <= present && Sorting.Distinct(found)
      invariant forall g :: g in found <==> (g in present && g !in left)
      decreases left
    {
      var g :| g in left;
      found := found + [g];
      left := left - {g};
    }
    sorted := Sorting.SortBy(found, NewestFirst);
    SortedListing(present, found);
  }

  /** Sorted newest first, every generation number appears once. */
  lemma SortedListing(present: set<nat>, found: seq<nat>)
    requires Sorting.Distinct(found) && forall g :: g in found <==> g in present
    ensures Lists(Sorting.SortBy(found, NewestFirst), present)
  {
    var sorted := Sorting.SortBy(found, NewestFirst);
    Sorting.SortByMultiset(found, NewestFirst);
    Sorting.SortBySorted(found, NewestFirst);
    Sorting.PermutationDistinct(found, sorted);
    forall g
      ensures g in sorted <==> g in present
    {
      Sorting.SortByElement(found, NewestFirst, g);
    }
  }

  /** The generations newer than the i-th are exactly the i before it. */
  lemma NewerCount(present: set<nat>, sorted: seq<nat>, i: nat)
    requires Lists(sorted, present) && i < |sorted|
    ensures |Newer(present, sorted[i])| == i
  {
    forall g
      ensures g in Newer(present, sorted[i]) <==> g in sorted[..i]
    {
      if g in sorted {
        var j :| 0 <= j < |sorted| && sorted[j] == g;
        if j < i {
          assert sorted[..i][j] == g;
        }
      }
    }
    assert Newer(present, sorted[i]) == ItemIds.SetOf(sorted[..i]);
    ItemIds.DistinctSize(sorted[..i]);
  }

  lemma KeptByPosition(present: set<nat>, sorted: seq<nat>, keep: nat, current: nat)
    requires Lists(sorted, present)
    ensures forall i :: 0 <= i < |sorted| ==> (Kept(present, keep, current, sorted[i]) <==> i < keep || sorted[i] == current)
  {
    forall i | 0 <= i < |sorted|
      ensures |Newer(present, sorted[i])| == i
    {
      NewerCount(present, sorted, i);
    }
  }

  /** The first `k` generations, newest first, are dealt with. */
  ghost predicate Progress<D>(before: map<nat, D>, now: map<nat, D>, sorted: seq<nat>, keep: nat, current: nat, k: nat) {
    && now.Keys <= before.Keys
    && (forall i :: 0 <= i < |sorted| ==> (sorted[i] in now <==> (i >= k || Kept(before.Keys, keep, current, sorted[i]))))
    && (forall g :: g in now ==> now[g] == before[g])
  }

  lemma ProgressStarts<D>(before: map<nat, D>, sorted: seq<nat>, keep: nat, current: nat, k: nat)
    requires Lists(sorted, before.Keys) && k <= keep
    ensures Progress(before, before, sorted, keep, current, k)
    ensures forall i :: 0 <= i < |sorted| ==> (Kept(before.Keys, keep, current, sorted[i]) <==> i < keep || sorted[i] == current)
  {
    KeptByPosition(before.Keys, sorted, keep, current);
  }

  lemma ProgressStep<D>(before: map<nat, D>, now: map<nat, D>, sorted: seq<nat>, keep: nat, current: nat, k: nat)
    requires Progress(before, now, sorted, keep, current, k) && k < |sorted| && Lists(sorted, before.Keys)
    ensures sorted[k] in now
    ensures Kept(before.Keys, keep, current, sorted[k]) ==> Progress(before, now, sorted, keep, current, k + 1)
    ensures !Kept(before.Keys, keep, current, sorted[k]) ==> Progress(before, now - {sorted[k]}, sorted, keep, current, k + 1)
  {
    hide Kept;
    forall i | 0 <= i < |sorted| && i != k
      ensures sorted[i] != sorted[k]
    {
      assert i < k ==> sorted[i] > sorted[k];
      assert i > k ==> sorted[k] > sorted[i];
    }
  }

  /** Stopping while a doomed directory is being removed loses nothing that is kept. */
  lemma ProgressStops<D>(before: map<nat, D>, now: map<nat, D>, after: map<nat, D>, sorted: seq<nat>, keep: nat, current: nat, k: nat)
    requires Progress(before, now, sorted, keep, current, k) && k < |sorted|
    requires Lists(sorted, before.Keys)
    requires sorted[k] in now && !Kept(before.Keys, keep, current, sorted[k])
    requires after.Keys == now.Keys && forall g :: g in now && g != sorted[k] ==> after[g] == now[g]
    ensures Spares(before, after, keep, current)
  {
    hide Kept;
    forall g | g in before && Kept(before.Keys, keep, current, g)
      ensures g in now && g != sorted[k]
    {
      assert g in sorted;
    }
  }

  lemma ProgressCompletes<D>(before: map<nat, D>, now: map<nat, D>, sorted: seq<nat>, keep: nat, current: nat, k: nat)
    requires Progress(before, now, sorted, keep, current, k) && k >= |sorted|
    requires Lists(sorted, before.Keys)
    ensures |now| <= |before| && Complete(before, now, keep, current)
  {
    hide Kept;
    forall g | g in before
      ensures g in now <==> Kept(before.Keys, keep, current, g)
    {
      assert g in sorted;
    }
    ItemIds.SubsetSize(now.Keys, before.Keys);
  }

  /** Only a prune that keeps nothing but CURRENT's generation can lower the highest
      number, and it does so exactly when CURRENT does not name the highest. */
  lemma HighestAfterPrune<D>(before: map<nat, D>, after: map<nat, D>, keep: nat, current: nat)
    requires Complete(before, after, keep, current) && current in before
    ensures Highest(after.Keys) < Highest(before.Keys) <==> keep == 0 && current != Highest(before.Keys)
  {
    var h := Highest(before.Keys);
    assert Newer(before.Keys, h) == {};
    assert Kept(before.Keys, keep, current, current);
    assert keep > 0 ==> Kept(before.Keys, keep, current, h);
    if keep == 0 {
      assert after.Keys == {current};
    }
  }
}
