/** Ranking ids by a key, smallest first and ties towards the smaller id: the order of
    every shortlist (by Hamming distance) and of every rerank (by negated score). */
module Ranking {
  import opened ItemIds
  import Sorting

  function KeyAt(key: seq<real>, i: nat): real {
    if i < |key| then key[i] else 0.0
  }

  predicate Before(key: seq<real>, a: nat, b: nat) {
    KeyAt(key, a) < KeyAt(key, b) || (KeyAt(key, a) == KeyAt(key, b) && a < b)
  }

  ghost function Ahead(key: seq<real>, c: set<nat>, i: nat): set<nat> {
    set j | j in c && Before(key, j, i)
  }

  /** The `k` best of `c`, said without any sorting: those with fewer than `k` ahead. */
  ghost function Top(key: seq<real>, c: set<nat>, k: nat): set<nat> {
    set i | i in c && |Ahead(key, c, i)| < k
  }

  ghost predicate InOrder(key: seq<real>, s: seq<nat>) {
    forall i, j :: 0 <= i < j < |s| ==> Before(key, s[i], s[j])
  }

  ghost predicate NoneBefore(key: seq<real>, s: seq<nat>) {
    forall i, j :: 0 <= i < j < |s| ==> !Before(key, s[j], s[i])
  }

  /** `top` lists the `k` best of a list, best first, where an id may occur more than once
      and then takes as many places. */
  ghost predicate FirstListed(key: seq<real>, ids: seq<nat>, k: nat, top: seq<nat>) {
    && |top| == (if k < |ids| then k else |ids|)
    && NoneBefore(key, top) && multiset(top) <= multiset(ids)
    && forall x, y :: x in multiset(ids) - multiset(top) && y in top ==> !Before(key, x, y)
  }

  /** `s` lists the `k` best of `c`, best first. */
  ghost predicate Lists(key: seq<real>, c: set<nat>, k: nat, s: seq<nat>) {
    InOrder(key, s) && SetOf(s) == Top(key, c, k)
  }

  /** Whatever is among the best comes before whatever is not. */
  lemma TopSeparates(key: seq<real>, c: set<nat>, k: nat, i: nat, j: nat)
    requires i in Top(key, c, k) && j in c && j !in Top(key, c, k)
    ensures Before(key, i, j)
  {
    if !Before(key, i, j) {
      SubsetSize(Ahead(key, c, j), Ahead(key, c, i));
    }
  }

  // -- families of candidate sets -------------------------------------------------

  /** A larger shortlist contains every smaller one. */
  lemma TopNested(key: seq<real>, c: set<nat>, k: nat, l: nat)
    requires k <= l
    ensures Top(key, c, k) <= Top(key, c, l)
  {
  }

  /** Losing competitors never costs a place: a best of the whole that is still in the
      subset is a best of the subset. */
  lemma TopOfSubset(key: seq<real>, c: set<nat>, sub: set<nat>, k: nat)
    requires sub <= c
    ensures Top(key, c, k) * sub <= Top(key, sub, k)
  {
    forall i | i in Top(key, c, k) && i in sub
      ensures i in Top(key, sub, k)
    {
      SubsetSize(Ahead(key, sub, i), Ahead(key, c, i));
    }
  }

  /** What a shortlist-and-rerank pipeline finds of the exact answer is exactly the part
      of the answer its shortlist kept. */
  lemma HitsAreKept(key: seq<real>, c: set<nat>, shortlist: set<nat>, k: nat)
    requires shortlist <= c
    ensures Top(key, c, k) * Top(key, shortlist, k) == Top(key, c, k) * shortlist
  {
    TopOfSubset(key, c, shortlist, k);
  }

  lemma TopOfAll(key: seq<real>, c: set<nat>, k: nat)
    requires k >= |c|
    ensures Top(key, c, k) == c
  {
    forall i | i in c
      ensures |Ahead(key, c, i)| < k
    {
      assert i !in Ahead(key, c, i);
      SubsetSize(Ahead(key, c, i) + {i}, c);
    }
  }

  /** The `k` best of the `l` best are the `k` best of all. */
  lemma TopOfTop(key: seq<real>, c: set<nat>, k: nat, l: nat)
    requires k <= l
    ensures Top(key, Top(key, c, l), k) == Top(key, c, k)
  {
    forall i | i in Top(key, c, l)
      ensures Ahead(key, Top(key, c, l), i) == Ahead(key, c, i)
    {
      AheadOfTop(key, c, l, i);
    }
  }

  lemma AheadOfTop(key: seq<real>, c: set<nat>, k: nat, i: nat)
    requires i in Top(key, c, k)
    ensures Ahead(key, Top(key, c, k), i) == Ahead(key, c, i)
  {
    forall j | j in Ahead(key, c, i)
      ensures j in Top(key, c, k)
    {
      SubsetSize(Ahead(key, c, j), Ahead(key, c, i));
    }
  }

  // -- sorted lists ------------------------------------------------------------------

  lemma InOrderDistinct(key: seq<real>, s: seq<nat>)
    requires InOrder(key, s)
    ensures Sorting.Distinct(s)
  {
  }

  /** In a sorted listing of `c`, position is rank. */
  lemma PositionIsRank(key: seq<real>, s: seq<nat>, p: nat)
    requires InOrder(key, s) && p < |s|
    ensures |Ahead(key, SetOf(s), s[p])| == p
  {
    forall i
      ensures i in Ahead(key, SetOf(s), s[p]) <==> i in s[..p]
    {
      if i in s {
        var j :| 0 <= j < |s| && s[j] == i;
        if j < p {
          assert s[..p][j] == i;
        }
      }
    }
    assert Ahead(key, SetOf(s), s[p]) == SetOf(s[..p]);
    DistinctSize(s[..p]);
  }

  /** The first `k` of a sorted listing of `c` list the `k` best of `c`. */
  lemma PrefixLists(key: seq<real>, s: seq<nat>, k: nat)
    requires InOrder(key, s)
    ensures Lists(key, SetOf(s), k, s[..if k < |s| then k else |s|])
  {
    var m := if k < |s| then k else |s|;
    forall i
      ensures i in SetOf(s[..m]) <==> i in Top(key, SetOf(s), k)
    {
      if i in s {
        var p :| 0 <= p < |s| && s[p] == i;
        PositionIsRank(key, s, p);
        if p < m {
          assert s[..m][p] == i;
        }
      }
    }
  }

  /** A set has only one sorted listing, so the order a candidate list arrived in is lost. */
  lemma {:induction false} ListingUnique(key: seq<real>, s: seq<nat>, t: seq<nat>)
    requires InOrder(key, s) && InOrder(key, t) && SetOf(s) == SetOf(t)
    ensures s == t
  {
    DistinctSize(s);
    DistinctSize(t);
    forall p | 0 <= p < |s|
      ensures s[p] == t[p]
    {
      PositionIsRank(key, s, p);
      PositionIsRank(key, t, p);
      assert s[p] in SetOf(t);
      var q :| 0 <= q < |t| && t[q] == s[p];
      PositionIsRank(key, t, q);
    }
  }

  lemma {:induction false} ListSize(key: seq<real>, c: set<nat>, k: nat, s: seq<nat>)
    requires Lists(key, c, k, s)
    ensures |s| == |Top(key, c, k)|
  {
    DistinctSize(s);
  }

  // -- sorting ids -------------------------------------------------------------------

  /** Sorts ids by key and id; an id that was listed twice stays listed twice. */
  method SortIds(key: seq<real>, ids: seq<nat>) returns (s: seq<nat>)
    ensures NoneBefore(key, s) && multiset(s) == multiset(ids) && |s| == |ids|
    ensures Sorting.Distinct(ids) ==> InOrder(key, s) && SetOf(s) == SetOf(ids)
  {
    var leq := (a: nat, b: nat) => !Before(key, b, a);
    s := Sorting.SortBy(ids, leq);
    Sorting.SortByMultiset(ids, leq);
    Sorting.SortBySorted(ids, leq);
    if Sorting.Distinct(ids) {
      Sorting.PermutationDistinct(ids, s);
    }
    forall i
      ensures i in s <==> i in ids
    {
      Sorting.SortByElement(ids, leq, i);
    }
  }

  /** `select_nth_unstable` and `truncate`: the `m` best, in no promised order. */
  method SelectSmallest(key: seq<real>, ids: seq<nat>, m: nat) returns (chosen: seq<nat>)
    requires Sorting.Distinct(ids)
    ensures Sorting.Distinct(chosen) && SetOf(chosen) == Top(key, SetOf(ids), m)
  {
    if |ids| <= m {
      DistinctSize(ids);
      TopOfAll(key, SetOf(ids), m);
      return ids;
    }
    var s := SortIds(key, ids);
    PrefixLists(key, s, m);
    chosen := s[..m];
  }

  /** Ranks candidates and keeps the `k` best, best first. */
  method RankTop(key: seq<real>, ids: seq<nat>, k: nat) returns (top: seq<nat>)
    ensures FirstListed(key, ids, k, top)
    ensures Sorting.Distinct(ids) ==> Lists(key, SetOf(ids), k, top)
  {
    hide Sorting.Distinct, FirstListed, InOrder, Lists;
    var s := SortIds(key, ids);
    if Sorting.Distinct(ids) {
      PrefixLists(key, s, k);
    }
    top := s[..if k < |s| then k else |s|];
    SortedPrefix(key, ids, s, |top|);
    AllListed(key, ids, k, top);
  }

  lemma AllListed(key: seq<real>, ids: seq<nat>, k: nat, top: seq<nat>)
    requires FirstListed(key, ids, |top|, top) && |top| == if k < |ids| then k else |ids|
    ensures FirstListed(key, ids, k, top)
  {
  }

  lemma SortedPrefix(key: seq<real>, ids: seq<nat>, s: seq<nat>, m: nat)
    requires NoneBefore(key, s) && multiset(s) == multiset(ids) && m <= |s| == |ids|
    ensures FirstListed(key, ids, m, s[..m])
  {
    assert s == s[..m] + s[m..];
    assert multiset(ids) - multiset(s[..m]) == multiset(s[m..]);
    forall x, y | x in multiset(s[m..]) && y in s[..m]
      ensures !Before(key, x, y)
    {
      var a :| 0 <= a < |s[m..]| && s[m..][a] == x;
      var b :| 0 <= b < m && s[..m][b] == y;
      assert s[m + a] == x && s[b] == y;
    }
  }

  // -- pointwise domination -------------------------------------------------------------

  /** The best of a larger candidate set are, place by place, at least as good. */
  lemma LargerSetDominates(key: seq<real>, small: set<nat>, large: set<nat>, k: nat, s: seq<nat>, t: seq<nat>)
    requires small <= large && Lists(key, small, k, s) && Lists(key, large, k, t)
    ensures |s| <= |t| && forall p :: 0 <= p < |s| ==> KeyAt(key, t[p]) <= KeyAt(key, s[p])
  {
    TopSizeMonotone(key, small, large, k);
    ListSize(key, small, k, s);
    ListSize(key, large, k, t);
    forall p | 0 <= p < |s|
      ensures KeyAt(key, t[p]) <= KeyAt(key, s[p])
    {
      PlaceDominates(key, small, large, k, s, t, p);
    }
  }

  lemma {:induction false} TopSize(key: seq<real>, c: set<nat>, k: nat)
    ensures |Top(key, c, k)| == if k < |c| then k else |c|
  {
    var s := Listing(key, c);
    PrefixLists(key, s, k);
    DistinctSize(s);
    var m := if k < |s| then k else |s|;
    DistinctSize(s[..m]);
  }

  lemma TopSizeMonotone(key: seq<real>, small: set<nat>, large: set<nat>, k: nat)
    requires small <= large
    ensures |Top(key, small, k)| <= |Top(key, large, k)|
  {
    SubsetSize(small, large);
    TopSize(key, small, k);
    TopSize(key, large, k);
  }

  ghost predicate Last(key: seq<real>, c: set<nat>, last: nat) {
    last in c && forall j :: j in c && j != last ==> Before(key, j, last)
  }

  /** Some sorted listing of a finite set. */
  ghost function Listing(key: seq<real>, c: set<nat>): (s: seq<nat>)
    ensures InOrder(key, s) && SetOf(s) == c
  {
    if c == {} then []
    else
      LastExists(key, c);
      var last :| Last(key, c, last);
      var front := Listing(key, c - {last});
      assert SetOf(front + [last]) == SetOf(front) + {last};
      assert forall i :: 0 <= i < |front| ==> front[i] in SetOf(front);
      front + [last]
  }

  lemma {:induction false} LastExists(key: seq<real>, c: set<nat>)
    requires c != {}
    ensures exists last :: Last(key, c, last)
  {
    var x :| x in c;
    if c == {x} {
      assert Last(key, c, x);
    } else {
      LastExists(key, c - {x});
      var y :| Last(key, c - {x}, y);
      LastOfMore(key, c, x, y);
    }
  }

  lemma LastOfMore(key: seq<real>, c: set<nat>, x: nat, y: nat)
    requires x in c && Last(key, c - {x}, y)
    ensures Last(key, c, if Before(key, y, x) then x else y)
  {
    assert forall j :: j in c ==> j == x || j in c - {x};
  }

  lemma PlaceDominates(key: seq<real>, small: set<nat>, large: set<nat>, k: nat, s: seq<nat>, t: seq<nat>, p: nat)
    requires small <= large && Lists(key, small, k, s) && Lists(key, large, k, t) && p < |s| <= |t|
    ensures KeyAt(key, t[p]) <= KeyAt(key, s[p])
  {
    if KeyAt(key, s[p]) < KeyAt(key, t[p]) {
      var mine := SetOf(s[..p + 1]);
      DistinctSize(s[..p + 1]);
      forall i | i in mine
        ensures i in SetOf(t[..p])
      {
        CloserListed(key, small, large, k, s, t, p, i);
      }
      DistinctSize(t[..p]);
      SubsetSize(mine, SetOf(t[..p]));
    }
  }

  lemma CloserListed(key: seq<real>, small: set<nat>, large: set<nat>, k: nat, s: seq<nat>, t: seq<nat>, p: nat, i: nat)
    requires small <= large && Lists(key, small, k, s) && Lists(key, large, k, t) && p < |s| <= |t|
    requires KeyAt(key, s[p]) < KeyAt(key, t[p]) && i in s[..p + 1]
    ensures i in t[..p]
  {
    var q :| 0 <= q < p + 1 && s[q] == i;
    assert KeyAt(key, i) <= KeyAt(key, s[p]);
    assert i in SetOf(s) && i in large;
    assert t[p] in SetOf(t);
    assert Before(key, i, t[p]);
    SubsetSize(Ahead(key, large, i), Ahead(key, large, t[p]));
    assert i in SetOf(t);
    var r :| 0 <= r < |t| && t[r] == i;
    assert t[..p][r] == i;
  }
}
