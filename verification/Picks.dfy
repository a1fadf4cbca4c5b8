/**
 Filtered lists, described without the loop that builds them: by the positions they pick.
 */
module Picks {

  /** `at` lists, in increasing order, exactly those of the first `n` positions that are wanted. */
  ghost predicate Lists(at: seq<nat>, n: nat, wanted: nat -> bool) {
    && (forall a, b :: 0 <= a < b < |at| ==> at[a] < at[b])
    && (forall i: nat :: i in at <==> i < n && wanted(i))
  }

  function Longer(at: seq<nat>, n: nat, wanted: nat -> bool): seq<nat> {
    if wanted(n) then at + [n] else at
  }

  lemma OneMore(at: seq<nat>, n: nat, wanted: nat -> bool)
    requires Lists(at, n, wanted)
    ensures Lists(Longer(at, n, wanted), n + 1, wanted)
  {
    forall a | 0 <= a < |at|
      ensures at[a] < n
    {
      assert at[a] in at;
    }
  }
}
