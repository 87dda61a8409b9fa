/** Paying amounts with bounded supplies of coins whose values form a divisibility chain. */
module CoinChange {
  import opened Basics

  /** Every value divides the next one. */
  predicate Chain(d: seq<int>) {
    && (forall i :: 0 <= i < |d| ==> d[i] > 0)
    && (forall i :: 0 < i < |d| ==> d[i] % d[i - 1] == 0)
  }

  lemma PositiveValues(d: seq<int>)
    requires Chain(d)
    ensures forall j :: 0 <= j < |d| ==> d[j] > 0
  {}

  lemma ChainStep(d: seq<int>, k: nat)
    requires Chain(d) && k + 1 < |d|
    ensures d[k] > 0 && d[k + 1] > 0 && d[k + 1] % d[k] == 0
  {}

  predicate Natural(u: seq<int>) { forall i :: 0 <= i < |u| ==> u[i] >= 0 }

  /** `u` uses no more coins of any kind than `c` has. */
  ghost predicate Within(u: seq<int>, c: seq<int>) { |u| == |c| && forall i :: 0 <= i < |u| ==> 0 <= u[i] <= c[i] }

  /** The worth of `n` coins of value `v`. */
  function Worth(v: int, n: int): int { v * n }

  /** The worth of `u[i]` coins of value `d[i]` each. */
  function Value(d: seq<int>, u: seq<int>): int
    requires |u| <= |d|
  {
    if u == [] then 0 else Value(d, u[..|u| - 1]) + Worth(d[|u| - 1], u[|u| - 1])
  }

  function Coins(u: seq<int>): int {
    if u == [] then 0 else Coins(u[..|u| - 1]) + u[|u| - 1]
  }

  ghost predicate Pays(d: seq<int>, c: seq<int>, u: seq<int>, t: int)
    requires |c| <= |d|
  {
    Within(u, c) && Value(d, u) == t
  }

  // ---------------------------------------------------------------- the greedy choice

  function Min(a: int, b: int): int { if a < b then a else b }

  /** How many coins of value `v`, out of `c`, fit into `t`. */
  function Take(v: int, c: int, t: int): int
    requires v > 0
  {
    if t < v || c <= 0 then 0 else Min(c, t / v)
  }

  /** From the highest value down, as many coins as fit. */
  function Greedy(d: seq<int>, c: seq<int>, t: int): (u: seq<int>)
    requires |c| <= |d| && forall i :: 0 <= i < |d| ==> d[i] > 0
    ensures |u| == |c|
  {
    if c == [] then []
    else
      var k := |c| - 1;
      var a := Take(d[k], c[k], t);
      Greedy(d, c[..k], t - Worth(d[k], a)) + [a]
  }

  lemma TakeFits(v: int, c: int, t: int)
    requires v > 0
    ensures var a := Take(v, c, t);
            && 0 <= a && 0 <= Worth(v, a) && (t >= 0 ==> Worth(v, a) <= t) && (c >= 0 ==> a <= c)
            && (t < 0 ==> a == 0 && Worth(v, a) == 0)
            && (a < c ==> t - Worth(v, a) < v)
  {
    if t >= v && c > 0 {
      assert t / v * v <= t < t / v * v + v;
      var a := Min(c, t / v);
      assert a * v <= t / v * v;
    }
  }

  /** Take is the greatest number that fits. */
  lemma TakeGreatest(v: int, c: int, t: int, n: int)
    requires v > 0 && 0 <= n <= c && Worth(v, n) <= t
    ensures n <= Take(v, c, t)
  {
    if n > 0 {
      assert v <= v * n;
      QuotientGreatest(v, t, n);
    }
  }

  lemma QuotientGreatest(v: int, t: int, n: int)
    requires v > 0 && v * n <= t
    ensures n <= t / v
  {
    var q := t / v;
    assert v * (q + 1) == v * q + v;
    MulLess(v, n, q + 1);
  }

  lemma MulLess(v: int, a: int, b: int)
    requires v > 0 && v * a < v * b
    ensures a < b
  {}

  lemma {:induction false} GreedyWithin(d: seq<int>, c: seq<int>, t: int)
    requires Chain(d) && |c| <= |d|
    ensures Natural(Greedy(d, c, t)) && (Natural(c) ==> Within(Greedy(d, c, t), c))
  {
    hide Worth, Take, Chain;
    PositiveValues(d);
    if c != [] {
      var k := |c| - 1;
      var a := Take(d[k], c[k], t);
      TakeFits(d[k], c[k], t);
      GreedyWithin(d, c[..k], t - Worth(d[k], a));
      assert Natural(c) ==> Natural(c[..k]);
    }
  }

  lemma {:induction false} GreedyFits(d: seq<int>, c: seq<int>, t: int)
    requires Chain(d) && |c| <= |d|
    ensures var u := Greedy(d, c, t);
            && Natural(u) && (Natural(c) ==> Within(u, c))
            && (t >= 0 ==> 0 <= Value(d, u) <= t) && (t < 0 ==> Value(d, u) == 0 && Coins(u) == 0)
  {
    hide Worth, Take, Natural, Within, Chain;
    PositiveValues(d);
    GreedyWithin(d, c, t);
    if c != [] {
      var k := |c| - 1;
      TakeFits(d[k], c[k], t);
      var a := Take(d[k], c[k], t);
      GreedyFits(d, c[..k], t - Worth(d[k], a));
      LastPays(d, Greedy(d, c[..k], t - Worth(d[k], a)), a);
    }
  }

  lemma LastPays(d: seq<int>, u: seq<int>, a: int)
    requires |u| < |d|
    ensures Value(d, u + [a]) == Value(d, u) + Worth(d[|u|], a)
    ensures Coins(u + [a]) == Coins(u) + a
  {
    assert (u + [a])[..|u|] == u;
  }

  // ---------------------------------------------------------------- the exchange argument

  function Minus(u: seq<int>, w: seq<int>): seq<int>
    requires |u| == |w|
  {
    seq(|u|, i requires 0 <= i < |u| => u[i] - w[i])
  }

  lemma WorthMinus(v: int, a: int, b: int)
    ensures Worth(v, a - b) == Worth(v, a) - Worth(v, b)
  {}

  lemma {:induction false} MinusValue(d: seq<int>, u: seq<int>, w: seq<int>)
    requires |u| == |w| <= |d|
    ensures Value(d, Minus(u, w)) == Value(d, u) - Value(d, w)
    ensures Coins(Minus(u, w)) == Coins(u) - Coins(w)
  {
    hide Worth;
    if u != [] {
      var k := |u| - 1;
      MinusValue(d, u[..k], w[..k]);
      assert Minus(u, w)[..k] == Minus(u[..k], w[..k]);
      WorthMinus(d[k], u[k], w[k]);
    }
  }

  function Zeros(n: nat): seq<int> { seq(n, _ => 0) }

  lemma {:induction false} ZerosPay(d: seq<int>, n: nat)
    requires n <= |d|
    ensures Value(d, Zeros(n)) == 0 && Coins(Zeros(n)) == 0
  {
    if n > 0 {
      ZerosPay(d, n - 1);
      assert Zeros(n)[..n - 1] == Zeros(n - 1);
    }
  }

  lemma WorthNothing(v: int, q: int)
    requires v > 0 && q >= 0 && Worth(v, q) <= 0
    ensures q == 0 && Worth(v, q) == 0
  {}

  /** How many of the smaller coins `q` of the larger ones are. */
  function Multiple(m: int, v: int, q: int): int
    requires v > 0
  {
    q * (m / v)
  }

  lemma WorthOfMultiple(v: int, m: int, q: int)
    requires v > 0 && m % v == 0 && m > 0 && q >= 0
    ensures Worth(v, Multiple(m, v, q)) == Worth(m, q) && Multiple(m, v, q) >= 0
  {
    assert m == v * (m / v);
    assert q * (v * (m / v)) == v * (q * (m / v));
  }

  /** A multiple of the next value that the coins below can reach, they can also make exactly. */
  lemma {:induction false} MakeExactly(d: seq<int>, u: seq<int>, q: int) returns (w: seq<int>)
    requires Chain(d) && |u| < |d| && Natural(u) && q >= 0 && Value(d, u) >= Worth(d[|u|], q)
    ensures Within(w, u) && Value(d, w) == Worth(d[|u|], q)
    decreases |u|
  {
    hide Worth, Chain;
    PositiveValues(d);
    if u == [] {
      w := [];
      WorthNothing(d[0], q);
    } else {
      var k := |u| - 1;
      ChainStep(d, k);
      var need := Multiple(d[k + 1], d[k], q);
      hide Multiple;
      WorthOfMultiple(d[k], d[k + 1], q);
      var a := Min(u[k], need);
      WorthMinus(d[k], need, a);
      if a == need {
        w := Zeros(k);
        ZerosPay(d, k);
      } else {
        w := MakeExactly(d, u[..k], need - a);
      }
      assert (w + [a])[..k] == w;
      w := w + [a];
    }
  }

  /** Coins worth no more than `v` each need to be at least `q` to be worth `q` times `v`. */
  lemma {:induction false} ManySmallCoins(d: seq<int>, w: seq<int>, v: int)
    requires |w| <= |d| && Natural(w) && forall i :: 0 <= i < |w| ==> 0 < d[i] <= v
    ensures Value(d, w) <= Worth(v, Coins(w)) && 0 <= Coins(w)
  {
    if w != [] {
      var k := |w| - 1;
      ManySmallCoins(d, w[..k], v);
      assert d[k] * w[k] <= v * w[k];
      assert v * Coins(w) == v * Coins(w[..k]) + v * w[k];
    }
  }

  lemma WorthOrder(v: int, a: int, b: int)
    requires v > 0 && Worth(v, a) <= Worth(v, b)
    ensures a <= b
  {}

  lemma {:induction false} ChainOrder(d: seq<int>, i: int, j: int)
    requires Chain(d) && 0 <= i <= j < |d|
    ensures d[i] <= d[j]
    decreases j
  {
    if i < j {
      ChainOrder(d, i, j - 1);
      assert d[j] % d[j - 1] == 0;
      assert d[j] == d[j - 1] * (d[j] / d[j - 1]);
    }
  }

  /** Some best payment takes the greedy number of the highest coins. */
  lemma Exchange(d: seq<int>, c: seq<int>, u: seq<int>, t: int) returns (v: seq<int>)
    requires Chain(d) && 0 < |c| <= |d| && Natural(c) && Pays(d, c, u, t)
    ensures Pays(d, c, v, t) && Coins(v) <= Coins(u) && v[|c| - 1] == Take(d[|c| - 1], c[|c| - 1], t)
  {
    hide Worth, Take, Chain;
    PositiveValues(d);
    var k := |c| - 1;
    var a := Take(d[k], c[k], t);
    ValueNatural(d, u[..k]);
    TakeGreatest(d[k], c[k], t, u[k]);
    TakeFits(d[k], c[k], t);
    WorthMinus(d[k], a, u[k]);
    ValueNatural(d, u);
    var w := MakeExactly(d, u[..k], a - u[k]);
    MinusValue(d, u[..k], w);
    var rest := Minus(u[..k], w);
    v := rest + [a];
    assert v[..k] == rest;
    forall i | 0 <= i < k ensures 0 < d[i] <= d[k] { ChainOrder(d, i, k); }
    ManySmallCoins(d, w, d[k]);
    WorthOrder(d[k], a - u[k], Coins(w));
  }

  lemma {:induction false} ValueNatural(d: seq<int>, u: seq<int>)
    requires |u| <= |d| && Natural(u) && forall i :: 0 <= i < |u| ==> d[i] > 0
    ensures Value(d, u) >= 0 && Coins(u) >= 0
  {
    if u != [] {
      ValueNatural(d, u[..|u| - 1]);
      assert Worth(d[|u| - 1], u[|u| - 1]) >= 0;
    }
  }

  /** Whatever can be paid exactly, the greedy choice pays exactly, and with the fewest coins. */
  lemma {:induction false} GreedyBest(d: seq<int>, c: seq<int>, u: seq<int>, t: int)
    requires Chain(d) && |c| <= |d| && Natural(c) && Pays(d, c, u, t)
    ensures Pays(d, c, Greedy(d, c, t), t) && Coins(Greedy(d, c, t)) <= Coins(u)
    decreases |c|
  {
    hide Worth, Take, Chain;
    PositiveValues(d);
    if c != [] {
      var k := |c| - 1;
      var v := Exchange(d, c, u, t);
      TakeFits(d[k], c[k], t);
      GreedyBest(d, c[..k], v[..k], t - Worth(d[k], v[k]));
      var g := Greedy(d, c, t);
      assert g[..k] == Greedy(d, c[..k], t - Worth(d[k], v[k]));
    }
  }

  /** Completeness: the greedy choice ends at the amount exactly when some choice does. */
  lemma GreedyComplete(d: seq<int>, c: seq<int>, t: int)
    requires Chain(d) && |c| <= |d| && Natural(c)
    ensures Value(d, Greedy(d, c, t)) == t <==> exists u :: Pays(d, c, u, t)
  {
    GreedyFits(d, c, t);
    if Value(d, Greedy(d, c, t)) == t { assert Pays(d, c, Greedy(d, c, t), t); }
    if u :| Pays(d, c, u, t) { GreedyBest(d, c, u, t); }
  }

  // ---------------------------------------------------------------- unlimited supply

  /** Change from an unlimited supply: no kind is needed more than `t` times. */
  function Change(d: seq<int>, n: nat, t: int): (u: seq<int>)
    requires n <= |d| && forall i :: 0 <= i < |d| ==> d[i] > 0
    ensures |u| == n
  {
    Greedy(d, Supply(n, t), t)
  }

  function Supply(n: nat, t: int): seq<int> { seq(n, _ => if t < 0 then 0 else t) }

  /** The greedy choice for an amount is the one for the part of it that it pays. */
  lemma {:induction false} GreedyOfPaid(d: seq<int>, c: seq<int>, t: int, s: int)
    requires Chain(d) && |c| <= |d| && t >= 0 && s == Value(d, Greedy(d, c, t))
    ensures Greedy(d, c, s) == Greedy(d, c, t)
  {
    hide Worth, Take, Chain;
    if c != [] {
      PositiveValues(d);
      var k := |c| - 1;
      TakeFits(d[k], c[k], t);
      var a := Take(d[k], c[k], t);
      var g := Greedy(d, c, t);
      assert g[..k] == Greedy(d, c[..k], t - Worth(d[k], a));
      GreedyFits(d, c[..k], t - Worth(d[k], a));
      hide Natural, Within;
      SameTake(d[k], c[k], t, s);
      GreedyOfPaid(d, c[..k], t - Worth(d[k], a), s - Worth(d[k], a));
    }
  }

  lemma SameTake(v: int, c: int, t: int, s: int)
    requires v > 0 && Worth(v, Take(v, c, t)) <= s <= t
    ensures Take(v, c, s) == Take(v, c, t)
  {
    hide Take, Worth;
    TakePositive(v, c, s);
    TakePositive(v, c, t);
    if Take(v, c, t) > 0 { TakeGreatest(v, c, s, Take(v, c, t)); }
    if Take(v, c, s) > 0 { TakeGreatest(v, c, t, Take(v, c, s)); }
  }

  lemma TakePositive(v: int, c: int, t: int)
    requires v > 0
    ensures 0 <= Take(v, c, t) && (Take(v, c, t) > 0 ==> Take(v, c, t) <= c && Worth(v, Take(v, c, t)) <= t)
  {
    if Take(v, c, t) > 0 { TakeFits(v, c, t); }
  }

  /** Change pays as much of the amount as the smallest coin allows, with fewer coins than any other
      multiset of the same worth. */
  lemma ChangeBest(d: seq<int>, n: nat, t: int, u: seq<int>)
    requires Chain(d) && 0 < n <= |d| && Natural(u) && |u| == n
    ensures Natural(Change(d, n, t))
    ensures Value(d, Change(d, n, t)) <= Max0(t) < Value(d, Change(d, n, t)) + d[0]
    ensures Value(d, u) == Value(d, Change(d, n, t)) ==> Coins(Change(d, n, t)) <= Coins(u)
  {
    hide Value, Coins, Greedy, Pays;
    GreedyFits(d, Supply(n, t), t);
    if t >= 0 {
      ChangeRest(d, n, t, t);
      if Value(d, u) == Value(d, Change(d, n, t)) { ChangeFewest(d, n, t, u); }
    } else {
      ValueNatural(d, u);
    }
  }

  lemma ChangeFewest(d: seq<int>, n: nat, t: int, u: seq<int>)
    requires Chain(d) && 0 < n <= |d| && Natural(u) && |u| == n && t >= 0
    requires Value(d, u) == Value(d, Change(d, n, t))
    ensures Coins(Change(d, n, t)) <= Coins(u)
  {
    hide Value, Coins, Greedy;
    GreedyFits(d, Supply(n, t), t);
    GreedyOfPaid(d, Supply(n, t), t, Value(d, u));
    UnlimitedHolds(d, u, t);
    GreedyBest(d, Supply(n, t), u, Value(d, u));
  }

  lemma ChangeRest(d: seq<int>, n: nat, t: int, r: int)
    requires Chain(d) && 0 < n <= |d| && 0 <= r <= t
    ensures r - Value(d, Greedy(d, Supply(n, t), r)) < d[0]
  {
    hide Worth, Take;
    var k := n - 1;
    var a := Take(d[k], t, r);
    TakeFits(d[k], t, r);
    assert Supply(n, t)[..k] == Supply(k, t);
    LastPays(d, Greedy(d, Supply(k, t), r - Worth(d[k], a)), a);
    if n == 1 {
      TakeAll(d[0], t, r);
    } else {
      ChangeRest(d, k, t, r - Worth(d[k], a));
    }
  }

  lemma TakeAll(v: int, t: int, r: int)
    requires v > 0 && 0 <= r <= t
    ensures r - Worth(v, Take(v, t, r)) < v
  {
    hide Worth, Take;
    TakeFits(v, t, r);
    WorthAtLeast(v, t);
  }

  lemma WorthAtLeast(v: int, n: int)
    requires v > 0 && n >= 0
    ensures Worth(v, n) >= n
  {}

  /** No kind of coin can occur more often than its worth. */
  lemma {:induction false} UnlimitedHolds(d: seq<int>, u: seq<int>, t: int)
    requires Chain(d) && |u| <= |d| && Natural(u) && 0 <= Value(d, u) <= t
    ensures Within(u, Supply(|u|, t))
  {
    if u != [] {
      var k := |u| - 1;
      ValueNatural(d, u[..k]);
      WorthAtLeast(d[k], u[k]);
      UnlimitedHolds(d, u[..k], t);
      assert Supply(|u|, t)[..k] == Supply(k, t);
    }
  }
}
