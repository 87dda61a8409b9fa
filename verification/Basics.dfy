/** A few small definitions that several components need. */
module Basics {
  function Pow2(n: nat): (r: nat)
    ensures r > 0
  {
    if n == 0 then 1 else 2 * Pow2(n - 1)
  }

  function Max0(n: int): int { if n < 0 then 0 else n }

  lemma NothingIn(s: set<int>)
    requires forall x :: x !in s
    ensures s == {}
  {
    assert forall x :: x in s <==> x in {};
  }

  lemma NonEmpty(s: set<int>)
    ensures s != {} <==> exists x :: x in s
  {
    if forall x :: x !in s { NothingIn(s); }
  }
}
