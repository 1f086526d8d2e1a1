/** The stable sort behind every `sort_by` of the model, with the three facts the
    callers use: the result is a permutation, it is ordered, and equal keys keep
    their order. */
module Sorting {

  ghost predicate TotalPreorder<T(!new)>(leq: (T, T) -> bool) {
    && (forall a, b :: leq(a, b) || leq(b, a))
    && (forall a, b, c :: leq(a, b) && leq(b, c) ==> leq(a, c))
  }

  ghost predicate SortedBy<T>(s: seq<T>, leq: (T, T) -> bool) {
    forall i, j :: 0 <= i < j < |s| ==> leq(s[i], s[j])
  }

  function InsertLast<T>(s: seq<T>, x: T, leq: (T, T) -> bool): seq<T> {
    if s == [] then [x]
    else if leq(s[|s| - 1], x) then s + [x]
    else InsertLast(s[..|s| - 1], x, leq) + [s[|s| - 1]]
  }

  /** Stable insertion sort: a new element goes after everything not above it. */
  function SortBy<T>(s: seq<T>, leq: (T, T) -> bool): seq<T> {
    if s == [] then [] else InsertLast(SortBy(s[..|s| - 1], leq), s[|s| - 1], leq)
  }

  lemma {:induction false} InsertLastMultiset<T>(s: seq<T>, x: T, leq: (T, T) -> bool)
    ensures multiset(InsertLast(s, x, leq)) == multiset(s) + multiset{x}
    ensures |InsertLast(s, x, leq)| == |s| + 1
  {
    if s == [] {
    } else if leq(s[|s| - 1], x) {
    } else {
      InsertLastMultiset(s[..|s| - 1], x, leq);
      assert s == s[..|s| - 1] + [s[|s| - 1]];
    }
  }

  lemma {:induction false} InsertLastSorted<T(!new)>(s: seq<T>, x: T, leq: (T, T) -> bool)
    requires TotalPreorder(leq) && SortedBy(s, leq)
    ensures SortedBy(InsertLast(s, x, leq), leq)
  {
    if s == [] {
    } else if leq(s[|s| - 1], x) {
    } else {
      var front := s[..|s| - 1];
      InsertLastSorted(front, x, leq);
      InsertLastMultiset(front, x, leq);
      var r := InsertLast(front, x, leq);
      forall i | 0 <= i < |r|
        ensures leq(r[i], s[|s| - 1])
      {
        assert r[i] in multiset(r);
        assert r[i] == x || r[i] in multiset(front);
        if r[i] != x {
          assert r[i] in front;
        }
      }
    }
  }

  lemma {:induction false} SortByMultiset<T>(s: seq<T>, leq: (T, T) -> bool)
    ensures multiset(SortBy(s, leq)) == multiset(s)
    ensures |SortBy(s, leq)| == |s|
  {
    hide InsertLast;
    if s == [] {
    } else {
      var front, last := s[..|s| - 1], s[|s| - 1];
      SortByMultiset(front, leq);
      InsertLastMultiset(SortBy(front, leq), last, leq);
      assert s == front + [last];
    }
  }

  lemma SortByElement<T>(s: seq<T>, leq: (T, T) -> bool, x: T)
    ensures x in SortBy(s, leq) <==> x in s
  {
    SortByMultiset(s, leq);
    assert x in SortBy(s, leq) <==> x in multiset(SortBy(s, leq));
    assert x in s <==> x in multiset(s);
  }

  lemma {:induction false} SortBySorted<T(!new)>(s: seq<T>, leq: (T, T) -> bool)
    requires TotalPreorder(leq)
    ensures SortedBy(SortBy(s, leq), leq)
  {
    if s == [] {
    } else {
      SortBySorted(s[..|s| - 1], leq);
      InsertLastSorted(SortBy(s[..|s| - 1], leq), s[|s| - 1], leq);
    }
  }

  /** Elements that compare equal are still in the order `earlier`. */
  ghost predicate TiesInOrder<T>(s: seq<T>, leq: (T, T) -> bool, earlier: (T, T) -> bool) {
    forall i, j :: 0 <= i < j < |s| && leq(s[j], s[i]) ==> earlier(s[i], s[j])
  }

  lemma {:induction false} InsertLastKeepsTies<T>(s: seq<T>, x: T, leq: (T, T) -> bool, earlier: (T, T) -> bool)
    requires TiesInOrder(s, leq, earlier) && forall i :: 0 <= i < |s| ==> earlier(s[i], x)
    ensures TiesInOrder(InsertLast(s, x, leq), leq, earlier)
  {
    if s == [] {
    } else if leq(s[|s| - 1], x) {
    } else {
      var front, last := s[..|s| - 1], s[|s| - 1];
      InsertLastKeepsTies(front, x, leq, earlier);
      InsertLastMultiset(front, x, leq);
      var r := InsertLast(front, x, leq);
      forall i | 0 <= i < |r| && leq(last, r[i])
        ensures earlier(r[i], last)
      {
        assert r[i] in multiset(r);
        assert r[i] == x || r[i] in front;
      }
    }
  }

  /** Whatever relation orders the input from left to right still orders equal elements. */
  lemma {:induction false} SortByKeepsTies<T>(s: seq<T>, leq: (T, T) -> bool, earlier: (T, T) -> bool)
    requires forall i, j :: 0 <= i < j < |s| ==> earlier(s[i], s[j])
    ensures TiesInOrder(SortBy(s, leq), leq, earlier)
  {
    if s == [] {
    } else {
      var front, last := s[..|s| - 1], s[|s| - 1];
      SortByKeepsTies(front, leq, earlier);
      var r := SortBy(front, leq);
      forall i | 0 <= i < |r|
        ensures earlier(r[i], last)
      {
        SortByElement(front, leq, r[i]);
        assert r[i] in front;
      }
      InsertLastKeepsTies(r, last, leq, earlier);
    }
  }

  ghost predicate Distinct<T>(s: seq<T>) {
    forall i, j :: 0 <= i < j < |s| ==> s[i] != s[j]
  }

  lemma {:induction false} DistinctMultiplicity<T>(s: seq<T>)
    ensures Distinct(s) <==> forall x :: multiset(s)[x] <= 1
  {
    if s == [] {
    } else {
      var front, last := s[..|s| - 1], s[|s| - 1];
      assert s == front + [last];
      DistinctMultiplicity(front);
      assert forall x :: multiset(s)[x] == multiset(front)[x] + (if x == last then 1 else 0);
      assert last in front <==> multiset(front)[last] > 0;
      assert Distinct(s) <==> Distinct(front) && last !in front;
      assert (forall x :: multiset(s)[x] <= 1) <==> (forall x :: multiset(front)[x] <= 1) && multiset(front)[last] == 0 by {
        assert multiset(s)[last] == multiset(front)[last] + 1;
      }
    }
  }

  lemma PermutationDistinct<T>(s: seq<T>, t: seq<T>)
    requires multiset(s) == multiset(t) && Distinct(s)
    ensures Distinct(t)
  {
    DistinctMultiplicity(s);
    DistinctMultiplicity(t);
  }

  lemma RemoveOne<T>(s: seq<T>, lo: seq<T>, last: T, hi: seq<T>)
    requires multiset(s + [last]) == multiset(lo + [last] + hi)
    ensures multiset(s) == multiset(lo + hi)
  {
    assert multiset(s) == multiset(s + [last]) - multiset{last};
    assert multiset(lo + hi) == multiset(lo + [last] + hi) - multiset{last};
  }
}
