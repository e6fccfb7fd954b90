/** `xs.filter(p).length`, the counting idiom of the scoring code. */
module Counting {

  /** The number of elements of `s` that satisfy `p`, counted from the front. */
  function CountWhere<T>(s: seq<T>, p: T -> bool): (n: nat)
    ensures n <= |s|
  {
    if s == [] then 0
    else CountWhere(s[..|s| - 1], p) + (if p(s[|s| - 1]) then 1 else 0)
  }

  /** The positions of `s` whose element satisfies `p`. */
  ghost function Matching<T>(s: seq<T>, p: T -> bool): set<int>
  {
    set i | 0 <= i < |s| && p(s[i])
  }

  /** The count is the number of matching positions: an independent definition
      of what `filter(...).length` computes. */
  lemma {:induction false} CountWhereIsCardinality<T>(s: seq<T>, p: T -> bool)
    ensures CountWhere(s, p) == |Matching(s, p)|
  {
    if s != [] {
      var n := |s| - 1;
      var init := s[..n];
      CountWhereIsCardinality(init, p);
      assert forall i | 0 <= i < n :: init[i] == s[i];
      assert Matching(init, p) == Matching(s, p) - {n};
      if p(s[n]) {
        assert Matching(s, p) == Matching(init, p) + {n};
      } else {
        assert Matching(s, p) == Matching(init, p);
      }
    }
  }
}
