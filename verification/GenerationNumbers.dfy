/** Numbers of generation directories. The sharded root and the stores below it number
    their generations alike. */
module GenerationNumbers {
  import opened Wrappers

  const MAX_GENERATION: nat := 0xFFFF_FFFF_FFFF_FFFF

  lemma {:induction false} MaxExists(s: set<nat>)
    requires s != {}
    ensures exists m :: m in s && forall x :: x in s ==> x <= m
  {
    var x :| x in s;
    var rest := s - {x};
    if rest == {} {
      assert s == {x};
    } else {
      MaxExists(rest);
      var m :| m in rest && forall y :: y in rest ==> y <= m;
      var best := if m < x then x else m;
      forall y | y in s
        ensures y <= best
      {
        assert y == x || y in rest;
      }
    }
  }

  /** The largest generation number present, 0 when there is none. */
  ghost function Highest(s: set<nat>): (h: nat)
    ensures forall x :: x in s ==> x <= h
    ensures s == {} ==> h == 0
    ensures s != {} ==> h in s
  {
    if s == {} then 0
    else
      MaxExists(s);
      var m :| m in s && forall x :: x in s ==> x <= m;
      m
  }

  /** The number the next save takes. */
  ghost function NumberAfter(s: set<nat>): nat {
    Highest(s) + 1
  }

  /** The largest number, scanning the directory entries in no fixed order. */
  method HighestGeneration(present: set<nat>) returns (h: Option<nat>)
    ensures h.None? <==> present == {}
    ensures h.Some? ==> h.value == Highest(present)
  {
    h := None;
    var left := present;
    while left != {}
      invariant left <= present
      invariant h.None? ==> left == present
      invariant h.Some? ==> h.value in present
      invariant h.Some? ==> forall x :: x in present && x !in left ==> x <= h.value
      decreases left
    {
      var g :| g in left;
      h := Some(if h.Some? && h.value > g then h.value else g);
      left := left - {g};
    }
  }

  method NextGeneration(present: set<nat>) returns (n: nat)
    ensures n == NumberAfter(present)
  {
    var h := HighestGeneration(present);
    n := (if h.Some? then h.value else 0) + 1;
  }
}
