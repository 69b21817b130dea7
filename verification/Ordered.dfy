/** Iterating a finite set of numbers in ascending order, as the ordered containers do. */
module Ordered {

  ghost predicate IsLeast(m: nat, s: set<nat>) {
    m in s && forall x :: x in s ==> m <= x
  }

  lemma {:induction false} LeastExists(s: set<nat>)
    requires s != {}
    ensures exists m :: IsLeast(m, s)
    decreases |s|
  {
    var x :| x in s;
    if s == {x} {
      assert IsLeast(x, s);
    } else {
      assert s - {x} != {};
      LeastExists(s - {x});
      var m :| IsLeast(m, s - {x});
      var least := if x < m then x else m;
      forall y | y in s ensures least <= y {
        assert y == x || y in s - {x};
      }
      assert IsLeast(least, s);
    }
  }

  ghost function Ascending(s: set<nat>): (r: seq<nat>)
    ensures forall x :: x in r <==> x in s
    decreases |s|
  {
    if s == {} then []
    else
      LeastExists(s);
      var m :| IsLeast(m, s);
      [m] + Ascending(s - {m})
  }

  lemma AscendingFirst(m: nat, s: set<nat>)
    requires IsLeast(m, s)
    ensures Ascending(s) == [m] + Ascending(s - {m})
  {
    assert forall x :: IsLeast(x, s) ==> x == m;
  }

  ghost predicate Sorted(s: seq<nat>) { forall i, j :: 0 <= i < j < |s| ==> s[i] < s[j] }

  lemma SortedFirst(m: nat, rest: seq<nat>)
    requires Sorted(rest) && forall x :: x in rest ==> m < x
    ensures Sorted([m] + rest)
  {
    assert forall i :: 0 <= i < |rest| ==> rest[i] in rest;
  }

  lemma {:induction false} AscendingSorted(s: set<nat>)
    ensures Sorted(Ascending(s))
    decreases |s|
  {
    if s != {} {
      LeastExists(s);
      var m :| IsLeast(m, s);
      AscendingFirst(m, s);
      AscendingSorted(s - {m});
      SortedFirst(m, Ascending(s - {m}));
    }
  }

  /** The next element an ordered iteration visits. */
  method Next(s: set<nat>) returns (m: nat)
    requires s != {}
    ensures IsLeast(m, s)
    ensures Ascending(s) == [m] + Ascending(s - {m})
  {
    m :| m in s;
    var rest := s - {m};
    while rest != {}
      invariant rest <= s && m in s && m !in rest
      invariant forall x :: x in s ==> x in rest || m <= x
    {
      var x :| x in rest;
      if x < m {
        m := x;
      }
      rest := rest - {x};
    }
    AscendingFirst(m, s);
  }
}
