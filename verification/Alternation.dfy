/** Sequences that switch something on and off in turn, on first. */
module Alternation {

  ghost predicate Alternates(t: seq<bool>) {
    forall i :: 0 <= i < |t| ==> t[i] == (i % 2 == 0)
  }

  ghost function Count(t: seq<bool>, b: bool): nat {
    if t == [] then 0 else Count(t[..|t| - 1], b) + if t[|t| - 1] == b then 1 else 0
  }

  lemma {:induction false} AlternatesCounts(t: seq<bool>)
    requires Alternates(t)
    ensures Count(t, true) - Count(t, false) == |t| % 2
  {
    if t != [] {
      AlternatesCounts(t[..|t| - 1]);
    }
  }

  ghost predicate IsOn(t: seq<bool>) { |t| % 2 == 1 }

  lemma LastTurn(t: seq<bool>)
    requires Alternates(t)
    ensures IsOn(t) <==> t != [] && t[|t| - 1]
  {
  }
}
