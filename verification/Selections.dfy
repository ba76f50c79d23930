/** Selecting from sequences. */
module Selections {

  predicate Rising(at: seq<nat>) {
    forall j, k :: 0 <= j < k < |at| ==> at[j] < at[k]
  }

  /** The elements to keep, in order. */
  function Kept<T>(xs: seq<T>, keep: T -> bool): seq<T> {
    if xs == [] then []
    else
      var front, last := Kept(xs[..|xs| - 1], keep), xs[|xs| - 1];
      if keep(last) then front + [last] else front
  }

  lemma {:induction false} KeptHas<T>(xs: seq<T>, keep: T -> bool, x: T)
    ensures x in Kept(xs, keep) <==> x in xs && keep(x)
  {
    if xs != [] {
      KeptHas(xs[..|xs| - 1], keep, x);
      assert xs == xs[..|xs| - 1] + [xs[|xs| - 1]];
    }
  }
}
