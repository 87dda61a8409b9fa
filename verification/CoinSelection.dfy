/** Selecting mints for a spend: what each function of the selection computes, and what it promises. */
module CoinSelection {
  import opened CoinChange
  import P = Products

  const COIN := 100000000

  /** zerocoinDenomList, smallest first; a map over denominations is a sequence indexed like this list,
      and -1 stands for ZQ_ERROR. */
  const DENOMS: seq<int> := [1, 5, 10, 50, 100, 500, 1000, 5000]
  const KINDS: nat := 8

  /** ZerocoinDenominationToAmount along the list. */
  const V: seq<int> := [1 * COIN, 5 * COIN, 10 * COIN, 50 * COIN, 100 * COIN, 500 * COIN, 1000 * COIN, 5000 * COIN]

  lemma VChain()
    ensures Chain(V) && |V| == KINDS && V[0] == COIN
    ensures forall i :: 0 <= i < KINDS ==> V[i] == DENOMS[i] * COIN && V[i] % COIN == 0
  {}

  /** Counts over the kinds of a coinage. */
  predicate Coinage(d: seq<int>, c: seq<int>) { Chain(d) && |d| == |c| > 0 }

  // ---------------------------------------------------------------- the steps of minimizeChange

  /** The supply restricted to the first kinds, up to `next`. */
  function Limit(c: seq<int>, next: int): seq<int> { seq(|c|, i requires 0 <= i < |c| => if i <= next then c[i] else 0) }

  /** Whether one more coin of kind `i` covers what is left. */
  predicate Fills(d: seq<int>, c: seq<int>, g: seq<int>, rest: int, i: int)
    requires |g| == |c| <= |d| && 0 <= i < |c|
  {
    d[i] > rest && g[i] < c[i]
  }

  /** The first kind from `i` on that fills, or |c|. */
  function FillIndex(d: seq<int>, c: seq<int>, g: seq<int>, rest: int, i: int): (k: int)
    requires |g| == |c| <= |d| && 0 <= i <= |c|
    ensures i <= k <= |c| && (k < |c| ==> Fills(d, c, g, rest, k))
    ensures forall j :: i <= j < k ==> !Fills(d, c, g, rest, j)
    decreases |c| - i
  {
    if i == |c| || Fills(d, c, g, rest, i) then i else FillIndex(d, c, g, rest, i + 1)
  }

  function FillUp(d: seq<int>, c: seq<int>, g: seq<int>, rest: int): (u: seq<int>)
    requires |g| == |c| <= |d|
    ensures |u| == |g|
  {
    var i := FillIndex(d, c, g, rest, 0);
    if i < |c| then g[i := g[i] + 1] else g
  }

  function Overlap(a: seq<int>, u: seq<int>): (w: seq<int>)
    requires |a| == |u|
    ensures |w| == |u|
  {
    seq(|u|, i requires 0 <= i < |u| => if a[i] > 0 && u[i] > 0 then Min(a[i], u[i]) else 0)
  }

  /** What minimizeChange holds before it drops the coins it would get back as change. */
  function Filled(d: seq<int>, c: seq<int>, next: int, t: int): (u: seq<int>)
    requires Coinage(d, c)
    ensures |u| == |c|
  {
    var g := Greedy(d, Limit(c, next), t - 1);
    FillUp(d, c, g, t - Value(d, g))
  }

  /** The amount minimizeChange settles on. */
  function MinimizedAmount(d: seq<int>, c: seq<int>, next: int, t: int): int
    requires Coinage(d, c)
  {
    var u := Filled(d, c, next, t);
    Value(d, u) - Value(d, Overlap(Change(d, |d|, Value(d, u) - t), u))
  }

  function Minimize(d: seq<int>, nMax: int, change: int, next: int, t: int, c: seq<int>, saved: seq<int>): (int, seq<int>)
    requires Coinage(d, c)
  {
    var a := MinimizedAmount(d, c, next, t);
    var u := Greedy(d, c, a);
    var r := Coins(Change(d, |d|, a - t));
    if r < change && Coins(u) <= nMax then (r, u) else (change, saved)
  }

  // ---------------------------------------------------------------- calculateChange

  /** The smallest kind held that exceeds the target on its own, or |c|. */
  function FirstOver(d: seq<int>, c: seq<int>, t: int, i: int): (k: int)
    requires Coinage(d, c) && 0 <= i <= |c|
    ensures i <= k <= |c| && (k < |c| ==> t < d[k] && c[k] != 0)
    ensures forall j :: i <= j < k ==> d[j] <= t || c[j] == 0
    decreases |c| - i
  {
    if i == |c| || (t < d[i] && c[i] != 0) then i else FirstOver(d, c, t, i + 1)
  }

  /** The highest kind below `i` that is held, or -1. */
  function HeldBelow(c: seq<int>, i: int): (k: int)
    requires 0 <= i <= |c|
    ensures -1 <= k < i && (k >= 0 ==> c[k] != 0) && forall j :: k < j < i ==> c[j] == 0
  {
    if i == 0 then -1 else if c[i - 1] != 0 then i - 1 else HeldBelow(c, i - 1)
  }

  /** Coins of one kind until the amount is reached or passed. */
  function TakeOver(v: int, c: int, t: int): int
    requires v > 0
  {
    if t <= 0 || c <= 0 then 0 else Min(c, (t - 1) / v + 1)
  }

  /** From the highest value down until the amount is reached or passed. */
  function Over(d: seq<int>, c: seq<int>, t: int): (u: seq<int>)
    requires |c| <= |d| && forall i :: 0 <= i < |d| ==> d[i] > 0
    ensures |u| == |c|
  {
    if c == [] then []
    else
      var k := |c| - 1;
      var a := TakeOver(d[k], c[k], t);
      Over(d, c[..k], t - Worth(d[k], a)) + [a]
  }

  function CalculateChange(d: seq<int>, nMax: int, fMin: bool, t: int, c: seq<int>): (int, seq<int>)
    requires Coinage(d, c)
  {
    var i := FirstOver(d, c, t, 0);
    if i < |c| then
      var change := Coins(Change(d, |d|, d[i] - t));
      var one := Zeros(|c|)[i := 1];
      var (r, u) := Minimize(d, nMax, change, HeldBelow(c, i), t, c, one);
      if fMin && r < change then (r, u) else (change, one)
    else
      var o := Over(d, c, t);
      var change := Coins(Change(d, |d|, Value(d, o) - t));
      var (r, u) := Minimize(d, nMax, change, HeldBelow(c, |c|), t, c, o);
      if !fMin && Coins(o) < Coins(u) then (change, o) else (r, u)
  }

  // ---------------------------------------------------------------- what the selection promises

  /** A selection that returns `r` coins of change is a payment of at least the target, out of what is
      held, whose excess comes back in `r` coins. */
  ghost predicate Sound(d: seq<int>, t: int, c: seq<int>, r: int, u: seq<int>)
    requires Coinage(d, c)
  {
    && |u| == |c| && Within(u, c) && Value(d, u) >= t
    && r == Coins(Change(d, |d|, Value(d, u) - t))
  }

  lemma LimitWithin(c: seq<int>, next: int)
    requires Natural(c)
    ensures Natural(Limit(c, next)) && |Limit(c, next)| == |c| && forall i :: 0 <= i < |c| ==> Limit(c, next)[i] <= c[i]
  {}

  lemma BumpPays(d: seq<int>, g: seq<int>, i: int)
    requires |g| <= |d| && 0 <= i < |g|
    ensures Value(d, g[i := g[i] + 1]) == Value(d, g) + d[i]
    ensures Coins(g[i := g[i] + 1]) == Coins(g) + 1
  {
    hide Worth;
    var k := |g| - 1;
    var u := g[i := g[i] + 1];
    if i == k {
      assert u[..k] == g[..k];
      WorthNext(d[k], g[k]);
    } else {
      assert u[..k] == g[..k][i := g[..k][i] + 1];
      BumpPays(d, g[..k], i);
    }
  }

  lemma WorthNext(v: int, n: int)
    ensures Worth(v, n + 1) == Worth(v, n) + v
  {}

  /** Some kind covers what the coins below the target leave. */
  ghost predicate Fillable(d: seq<int>, c: seq<int>, next: int, t: int)
    requires Coinage(d, c)
  {
    var g := Greedy(d, Limit(c, next), t - 1);
    AnyFills(d, c, g, t - Value(d, g))
  }

  ghost predicate AnyFills(d: seq<int>, c: seq<int>, g: seq<int>, rest: int)
    requires |g| == |c| <= |d|
  {
    exists i :: 0 <= i < |c| && Fills(d, c, g, rest, i)
  }

  lemma FilledPays(d: seq<int>, c: seq<int>, next: int, t: int)
    requires Coinage(d, c) && Natural(c) && t >= 1
    ensures Within(Filled(d, c, next, t), c)
    ensures if Fillable(d, c, next, t) then Value(d, Filled(d, c, next, t)) > t else Value(d, Filled(d, c, next, t)) < t
  {
    hide Value, Greedy, Limit;
    LimitWithin(c, next);
    var g := Greedy(d, Limit(c, next), t - 1);
    GreedyFits(d, Limit(c, next), t - 1);
    var i := FillIndex(d, c, g, t - Value(d, g), 0);
    if i < |c| { BumpPays(d, g, i); }
  }

  lemma OverlapWithin(a: seq<int>, u: seq<int>)
    requires |a| == |u| && Natural(a) && Natural(u)
    ensures Within(Overlap(a, u), a) && Within(Overlap(a, u), u)
  {}

  lemma {:induction false} ValueOrder(d: seq<int>, w: seq<int>, u: seq<int>)
    requires |u| <= |d| && Within(w, u) && forall i :: 0 <= i < |u| ==> d[i] > 0
    ensures 0 <= Value(d, w) <= Value(d, u)
  {
    MinusValue(d, u, w);
    ValueNatural(d, Minus(u, w));
    ValueNatural(d, w);
  }

  lemma RemainderPays(d: seq<int>, c: seq<int>, u: seq<int>, w: seq<int>)
    requires |c| <= |d| && Within(u, c) && Within(w, u)
    ensures Pays(d, c, Minus(u, w), Value(d, u) - Value(d, w))
  {
    MinusValue(d, u, w);
  }

  /** Dropping the coins that would come back as change leaves at least the target. */
  lemma OverlapLeaves(d: seq<int>, u: seq<int>, t: int)
    requires Coinage(d, u) && Natural(u)
    ensures var w := Overlap(Change(d, |d|, Value(d, u) - t), u);
            && Within(w, u)
            && (Value(d, u) >= t ==> Value(d, u) - Value(d, w) >= t)
            && (Value(d, u) < t ==> Value(d, u) - Value(d, w) < t)
  {
    hide Greedy, Value, Coins;
    var excess := Value(d, u) - t;
    var alt := Change(d, |d|, excess);
    GreedyFits(d, Supply(|d|, excess), excess);
    OverlapWithin(alt, u);
    ValueOrder(d, Overlap(alt, u), alt);
    ValueOrder(d, Overlap(alt, u), u);
  }

  /** The amount minimizeChange settles on can be paid from what is held, and is enough whenever the
      filling step found a coin. */
  lemma MinimizedAmountPaid(d: seq<int>, c: seq<int>, next: int, t: int)
    requires Coinage(d, c) && Natural(c) && t >= 1
    ensures Pays(d, c, Greedy(d, c, MinimizedAmount(d, c, next, t)), MinimizedAmount(d, c, next, t))
    ensures Value(d, Filled(d, c, next, t)) >= t ==> MinimizedAmount(d, c, next, t) >= t
    ensures Value(d, Filled(d, c, next, t)) < t ==> MinimizedAmount(d, c, next, t) < t
  {
    hide Greedy, Value, Filled, Overlap, Change;
    FilledPays(d, c, next, t);
    var u := Filled(d, c, next, t);
    OverlapLeaves(d, u, t);
    var w := Overlap(Change(d, |d|, Value(d, u) - t), u);
    RemainderPays(d, c, u, w);
    GreedyBest(d, c, Minus(u, w), Value(d, u) - Value(d, w));
  }

  // ---------------------------------------------------------------- overshooting

  lemma TakeOverFits(v: int, c: int, t: int)
    requires v > 0
    ensures var a := TakeOver(v, c, t);
            && 0 <= a && 0 <= Worth(v, a) && (c >= 0 ==> a <= c)
            && (a < c ==> t - Worth(v, a) <= 0)
            && (t <= 0 ==> a == 0 && Worth(v, a) == 0)
  {
    if t > 0 && c > 0 {
      var q := (t - 1) / v;
      assert v * (q + 1) == v * q + v;
    }
  }

  lemma {:induction false} OverWithin(d: seq<int>, c: seq<int>, t: int)
    requires Chain(d) && |c| <= |d| && Natural(c)
    ensures Within(Over(d, c, t), c) && (t <= 0 ==> Value(d, Over(d, c, t)) == 0)
  {
    hide Worth, TakeOver, Chain;
    PositiveValues(d);
    if c != [] {
      var k := |c| - 1;
      var a := TakeOver(d[k], c[k], t);
      TakeOverFits(d[k], c[k], t);
      OverWithin(d, c[..k], t - Worth(d[k], a));
      LastPays(d, Over(d, c[..k], t - Worth(d[k], a)), a);
    }
  }

  /** Overshooting reaches every amount that all coins together reach. */
  lemma {:induction false} OverReaches(d: seq<int>, c: seq<int>, t: int)
    requires Chain(d) && |c| <= |d| && Natural(c) && Value(d, c) >= t
    ensures Value(d, Over(d, c, t)) >= t
  {
    hide Worth, TakeOver, Chain, Over, Value, Coins;
    PositiveValues(d);
    if c == [] {
      OverNone(d, c, t);
      NoneWorth(d);
    } else {
      var k := |c| - 1;
      var a := TakeOver(d[k], c[k], t);
      var rest := t - Worth(d[k], a);
      assert c[..k] + [c[k]] == c;
      TakeOverFits(d[k], c[k], t);
      OverUnfold(d, c, t);
      LastPays(d, c[..k], c[k]);
      OverWithin(d, c[..k], rest);
      if a == c[k] { OverReaches(d, c[..k], rest); } else { ValueOrder(d, Over(d, c[..k], rest), c[..k]); }
    }
  }

  lemma NoneWorth(d: seq<int>)
    ensures Value(d, []) == 0
  {}

  /** Overshooting takes one coin more than fits below the amount, if there is one more. */
  lemma TakeOverNext(v: int, c: int, t: int)
    requires v > 0 && c >= 0 && t >= 1
    ensures var a := Take(v, c, t - 1);
            && (a == c ==> TakeOver(v, c, t) == c)
            && (a < c ==> TakeOver(v, c, t) == a + 1 && t - Worth(v, a) <= v)
  {
    var q := (t - 1) / v;
    assert v * q <= t - 1 < v * q + v;
  }

  lemma GreedyUnfold(d: seq<int>, c: seq<int>, t: int)
    requires Chain(d) && 0 < |c| <= |d|
    ensures var k := |c| - 1;
            var a := Take(d[k], c[k], t);
            var g := Greedy(d, c[..k], t - Worth(d[k], a));
            && Greedy(d, c, t) == g + [a]
            && Value(d, Greedy(d, c, t)) == Value(d, g) + Worth(d[k], a)
            && (t >= 0 ==> t - Worth(d[k], a) >= 0 && Value(d, g) >= 0)
  {
    var k := |c| - 1;
    hide Worth, Take;
    TakeFits(d[k], c[k], t);
    var a := Take(d[k], c[k], t);
    GreedyFits(d, c[..k], t - Worth(d[k], a));
    LastPays(d, Greedy(d, c[..k], t - Worth(d[k], a)), a);
  }

  lemma OverUnfold(d: seq<int>, c: seq<int>, t: int)
    requires Chain(d) && 0 < |c| <= |d| && Natural(c)
    ensures var k := |c| - 1;
            var b := TakeOver(d[k], c[k], t);
            var rest := t - Worth(d[k], b);
            && Value(d, Over(d, c, t)) == Value(d, Over(d, c[..k], rest)) + Worth(d[k], b)
            && (rest <= 0 ==> Value(d, Over(d, c[..k], rest)) == 0)
  {
    var k := |c| - 1;
    hide Worth, TakeOver;
    var b := TakeOver(d[k], c[k], t);
    OverWithin(d, c[..k], t - Worth(d[k], b));
    LastPays(d, Over(d, c[..k], t - Worth(d[k], b)), b);
  }

  lemma OverNone(d: seq<int>, c: seq<int>, t: int)
    requires Chain(d) && c == []
    ensures Over(d, c, t) == [] && Value(d, []) == 0
  {}

  /** If no kind fills what the amounts below leave, overshooting does not pass the amount. */
  lemma {:induction false} NoFill(d: seq<int>, c: seq<int>, t: int, rest: int)
    requires Chain(d) && |c| <= |d| && Natural(c) && t >= 1
    requires rest == t - Value(d, Greedy(d, c, t - 1))
    requires forall i :: 0 <= i < |c| && d[i] > rest ==> Greedy(d, c, t - 1)[i] >= c[i]
    ensures Value(d, Over(d, c, t)) <= t
  {
    hide Worth, TakeOver, Take, Greedy, Over, Value, Chain;
    PositiveValues(d);
    if c != [] {
      var k := |c| - 1;
      GreedyUnfold(d, c, t - 1);
      OverUnfold(d, c, t);
      TakeFits(d[k], c[k], t - 1);
      TakeOverNext(d[k], c[k], t);
      var a := Take(d[k], c[k], t - 1);
      if a == c[k] {
        var g := Greedy(d, c[..k], t - Worth(d[k], a) - 1);
        assert forall i :: 0 <= i < k ==> Greedy(d, c, t - 1)[i] == g[i];
        NoFill(d, c[..k], t - Worth(d[k], a), rest);
      } else {
        assert Greedy(d, c, t - 1)[k] == a;
        WorthNext(d[k], a);
      }
    } else {
      OverNone(d, c, t);
    }
  }

  // ---------------------------------------------------------------- the guarantees of calculateChange

  lemma ChangeCoins(d: seq<int>, t: int)
    requires Chain(d) && |d| > 0
    ensures Coins(Change(d, |d|, t)) >= 0
    ensures Coins(Change(d, |d|, t)) > 0 <==> t >= d[0]
  {
    hide Greedy, Value, Coins;
    var u := Change(d, |d|, t);
    GreedyFits(d, Supply(|d|, t), t);
    ValueNatural(d, u);
    if t >= 0 { ChangeRest(d, |d|, t, t); }
    NoCoinsNoValue(d, u);
    ValueAtLeast(d, u);
  }

  lemma {:induction false} NoCoinsNoValue(d: seq<int>, u: seq<int>)
    requires |u| <= |d| && Natural(u) && forall i :: 0 <= i < |d| ==> d[i] > 0
    ensures Coins(u) == 0 <==> Value(d, u) == 0
  {
    if u != [] {
      var k := |u| - 1;
      NoCoinsNoValue(d, u[..k]);
      ValueNatural(d, u[..k]);
      WorthAtLeast(d[k], u[k]);
    }
  }

  lemma {:induction false} ValueAtLeast(d: seq<int>, u: seq<int>)
    requires Chain(d) && |u| <= |d| && |d| > 0 && Natural(u)
    ensures Value(d, u) % d[0] == 0
    ensures Value(d, u) > 0 ==> Value(d, u) >= d[0]
  {
    if u != [] {
      var k := |u| - 1;
      ValueAtLeast(d, u[..k]);
      ChainMultiple(d, k);
      SumOfMultiples(d[0], Value(d, u[..k]), d[k], u[k]);
    }
    ValueNatural(d, u);
    MultipleAtLeast(d[0], Value(d, u));
  }

  lemma MultipleAtLeast(m: int, x: int)
    requires m > 0 && x % m == 0 && x >= 0
    ensures x > 0 ==> x >= m
  {}

  lemma {:induction false} ChainMultiple(d: seq<int>, k: nat)
    requires Chain(d) && k < |d|
    ensures d[k] % d[0] == 0
  {
    hide Chain;
    PositiveValues(d);
    if k > 0 {
      ChainMultiple(d, k - 1);
      ChainStep(d, k - 1);
      MultipleOfMultiple(d[k], d[k - 1], d[0]);
    } else {
      OneIsMultiple(d[0]);
    }
  }

  lemma OneIsMultiple(m: int)
    requires m > 0
    ensures m % m == 0
  {}

  lemma MultipleOfMultiple(x: int, y: int, m: int)
    requires y > 0 && m > 0 && x % y == 0 && y % m == 0
    ensures x % m == 0
  {
    var q := x / y;
    assert x == y * q;
    SumOfMultiples(m, 0, y, q);
  }

  lemma SumOfMultiples(m: int, x: int, y: int, n: int)
    requires m > 0 && x % m == 0 && y % m == 0
    ensures (x + Worth(y, n)) % m == 0
  {
    var a, b := x / m, y / m;
    assert x == m * a && y == m * b;
    assert y * n == m * (b * n);
    assert x + y * n == m * (a + b * n);
    MultipleMod(m, a + b * n);
  }

  lemma MultipleMod(m: int, q: int)
    requires m > 0
    ensures (m * q) % m == 0
  {
    P.ModOfMultiple(m, q);
  }

  /** The single coin of calculateChange fills whatever the smaller coins leave. */
  lemma SingleCoinFills(d: seq<int>, c: seq<int>, t: int, i: int)
    requires Coinage(d, c) && Natural(c) && t >= 1 && 0 <= i < |c| && t < d[i] && c[i] != 0
    ensures Fillable(d, c, HeldBelow(c, i), t)
  {
    hide Value, Greedy, HeldBelow, Limit;
    var next := HeldBelow(c, i);
    NoneTaken(d, c, next, t - 1, i);
    var g := Greedy(d, Limit(c, next), t - 1);
    assert Fills(d, c, g, t - Value(d, g), i);
  }

  /** The greedy choice takes none of a kind above the limit, and no more than the amount. */
  lemma NoneTaken(d: seq<int>, c: seq<int>, next: int, t: int, i: int)
    requires Chain(d) && |c| <= |d| && Natural(c) && t >= 0 && next < i < |c| && 0 <= i
    ensures |Limit(c, next)| == |c| && Greedy(d, Limit(c, next), t)[i] == 0 <= Value(d, Greedy(d, Limit(c, next), t))
  {
    PositiveValues(d);
    hide Value, Greedy, Chain;
    LimitWithin(c, next);
    GreedyFits(d, Limit(c, next), t);
    assert Greedy(d, Limit(c, next), t)[i] <= Limit(c, next)[i] == 0;
  }

  lemma LimitAll(c: seq<int>)
    requires Natural(c)
    ensures Limit(c, HeldBelow(c, |c|)) == c
  {}

  /** When overshooting passes the target, some coin fills what the smaller steps leave. */
  lemma OvershootFills(d: seq<int>, c: seq<int>, t: int)
    requires Coinage(d, c) && Natural(c) && t >= 1 && Value(d, Over(d, c, t)) > t
    ensures Fillable(d, c, HeldBelow(c, |c|), t)
  {
    var next := HeldBelow(c, |c|);
    LimitAll(c);
    hide Value, Greedy, HeldBelow, Over, Limit, Chain;
    var g := Greedy(d, c, t - 1);
    if !Fillable(d, c, next, t) {
      var rest := t - Value(d, g);
      forall i | 0 <= i < |c| && d[i] > rest ensures g[i] >= c[i] { assert !Fills(d, c, g, rest, i); }
      NoFill(d, c, t, rest);
    }
  }

  lemma MinimizeSound(d: seq<int>, nMax: int, change: int, next: int, t: int, c: seq<int>, saved: seq<int>)
    requires Coinage(d, c) && Natural(c) && t >= 1
    requires change > 0 ==> Fillable(d, c, next, t)
    ensures var (r, u) := Minimize(d, nMax, change, next, t, c, saved);
            r < change ==> Sound(d, t, c, r, u) && Coins(u) <= nMax && r >= 0
  {
    hide Value, Greedy, Filled, MinimizedAmount, Coins, Change, Fillable;
    FilledPays(d, c, next, t);
    MinimizedAmountPaid(d, c, next, t);
    ChangeCoins(d, MinimizedAmount(d, c, next, t) - t);
  }

  lemma {:induction false} UnitPays(d: seq<int>, i: int)
    requires 0 <= i < |d|
    ensures Value(d, Zeros(|d|)[i := 1]) == d[i] && Coins(Zeros(|d|)[i := 1]) == 1
  {
    ZerosPay(d, |d|);
    BumpPays(d, Zeros(|d|), i);
  }

  /** calculateChange returns 0, or a payment of at least the target out of the coins held together with
      the number of coins its excess comes back in. */
  lemma CalculateChangeSound(d: seq<int>, nMax: int, fMin: bool, t: int, c: seq<int>)
    requires Coinage(d, c) && Natural(c) && t >= 1
    ensures var (r, u) := CalculateChange(d, nMax, fMin, t, c);
            && r >= 0 && |u| == |c| && Within(u, c)
            && (r > 0 ==> Sound(d, t, c, r, u))
  {
    hide Value, Greedy, Minimize, Coins, Change, HeldBelow, FirstOver, Over, Fillable;
    var i := FirstOver(d, c, t, 0);
    if i < |c| {
      var one := Zeros(|c|)[i := 1];
      UnitPays(d, i);
      var change := Coins(Change(d, |d|, d[i] - t));
      ChangeCoins(d, d[i] - t);
      SingleCoinFills(d, c, t, i);
      MinimizeSound(d, nMax, change, HeldBelow(c, i), t, c, one);
    } else {
      var o := Over(d, c, t);
      OverWithin(d, c, t);
      var change := Coins(Change(d, |d|, Value(d, o) - t));
      ChangeCoins(d, Value(d, o) - t);
      if change > 0 { OvershootFills(d, c, t); }
      MinimizeSound(d, nMax, change, HeldBelow(c, |c|), t, c, o);
      MinimizeOr(d, nMax, change, HeldBelow(c, |c|), t, c, o);
    }
  }

  lemma MinimizeOr(d: seq<int>, nMax: int, change: int, next: int, t: int, c: seq<int>, saved: seq<int>)
    requires Coinage(d, c)
    ensures var (r, u) := Minimize(d, nMax, change, next, t, c, saved);
            r < change || (r == change && u == saved)
  {}

  /** The other half: a target of whole coins that is covered by what is held but cannot be met exactly
      does get a payment. */
  lemma CalculateChangeComplete(d: seq<int>, nMax: int, fMin: bool, t: int, c: seq<int>)
    requires Coinage(d, c) && Natural(c) && t >= 1 && t % d[0] == 0 && Value(d, c) >= t
    requires forall u :: !Pays(d, c, u, t)
    ensures CalculateChange(d, nMax, fMin, t, c).0 > 0
  {
    hide Value, Greedy, Minimize, Coins, Change, HeldBelow, FirstOver, Over, Fillable;
    var i := FirstOver(d, c, t, 0);
    if i < |c| {
      var one := Zeros(|c|)[i := 1];
      UnitPays(d, i);
      MoreIsChange(d, t, one);
      SingleCoinFills(d, c, t, i);
      MinimizeKeepsChange(d, nMax, Coins(Change(d, |d|, d[i] - t)), HeldBelow(c, i), t, c, one);
    } else {
      var o := Over(d, c, t);
      OverWithin(d, c, t);
      OverReaches(d, c, t);
      assert Value(d, o) != t by { assert !Pays(d, c, o, t); }
      MoreIsChange(d, t, o);
      OvershootFills(d, c, t);
      MinimizeKeepsChange(d, nMax, Coins(Change(d, |d|, Value(d, o) - t)), HeldBelow(c, |c|), t, c, o);
    }
  }

  lemma DifferenceOfMultiples(m: int, x: int, y: int)
    requires m > 0 && x % m == 0 && y % m == 0
    ensures (x - y) % m == 0
  {
    var a, b := x / m, y / m;
    assert x == m * a && y == m * b;
    assert m * (a - b) == m * a - m * b;
    MultipleMod(m, a - b);
  }

  // ---------------------------------------------------------------- the limit on the number of spends

  /** Some `q` of the coins of `u`. */
  lemma {:induction false} SomeCoins(u: seq<int>, q: int) returns (w: seq<int>)
    requires Natural(u) && 0 <= q <= Coins(u)
    ensures Within(w, u) && Coins(w) == q
  {
    if u == [] {
      w := [];
    } else {
      var k := |u| - 1;
      var a := Min(u[k], q);
      CoinsNatural(u[..k]);
      w := SomeCoins(u[..k], q - a);
      assert (w + [a])[..k] == w;
      w := w + [a];
    }
  }

  lemma {:induction false} CoinsNatural(u: seq<int>)
    requires Natural(u)
    ensures Coins(u) >= 0
  {
    if u != [] { CoinsNatural(u[..|u| - 1]); }
  }

  /** Every coin that overshooting takes is needed: one less would not pass the amount. */
  lemma TakeOverNeeded(v: int, c: int, t: int)
    requires v > 0 && t >= 1 && c >= 0
    ensures TakeOver(v, c, t) >= 1 ==> Worth(v, TakeOver(v, c, t) - 1) < t
  {
    var q := (t - 1) / v;
    assert v * q <= t - 1;
    if c >= 1 { WorthMonotone(v, TakeOver(v, c, t) - 1, q); }
  }

  lemma WorthMonotone(v: int, a: int, b: int)
    requires v > 0 && a <= b
    ensures Worth(v, a) <= Worth(v, b)
  {}

  lemma {:induction false} OverNothing(d: seq<int>, c: seq<int>, t: int)
    requires Chain(d) && |c| <= |d| && t <= 0
    ensures Over(d, c, t) == Zeros(|c|)
  {
    if c != [] {
      assert Worth(d[|c| - 1], 0) == 0;
      OverNothing(d, c[..|c| - 1], t);
      assert Zeros(|c|) == Zeros(|c| - 1) + [0];
    }
  }

  /** Instead of `b` coins of the highest kind, the `a` that overshooting takes: as many of the smaller
      coins can be dropped, and what is left still reaches what the `a` coins leave. */
  lemma SwapForHighest(d: seq<int>, u: seq<int>, a: int, b: int, t: int) returns (w: seq<int>)
    requires Chain(d) && |u| < |d| && Natural(u) && 0 <= b < a && Worth(d[|u|], a - 1) < t
    requires Value(d, u) >= t - Worth(d[|u|], b)
    ensures Within(w, u) && Value(d, w) >= t - Worth(d[|u|], a) && Coins(w) == Coins(u) - (a - b)
  {
    hide Worth, Value, Coins;
    var k := |u|;
    var v := d[k];
    forall i | 0 <= i < k ensures 0 < d[i] <= v { ChainOrder(d, i, k); }
    ManySmallCoins(d, u, v);
    WorthMinus(v, a - 1, b);
    if Coins(u) < a - b { WorthMonotone(v, Coins(u), a - 1 - b); }
    var drop := SomeCoins(u, a - b);
    ManySmallCoins(d, drop, v);
    WorthMinus(v, a, b);
    w := Minus(u, drop);
    MinusValue(d, u, drop);
  }

  /** Overshooting takes the fewest coins among all choices that reach the amount. */
  lemma {:induction false} OverFewest(d: seq<int>, c: seq<int>, t: int, u: seq<int>)
    requires Chain(d) && |c| <= |d| && Natural(c) && Within(u, c) && Value(d, u) >= t
    ensures Coins(Over(d, c, t)) <= Coins(u)
    decreases |c|
  {
    hide Worth, TakeOver, Value, Chain;
    PositiveValues(d);
    if t <= 0 {
      OverNothing(d, c, t);
      ZerosPay(d, |c|);
      CoinsNatural(u);
    } else if c != [] {
      var k := |c| - 1;
      var v, a, b := d[k], TakeOver(d[k], c[k], t), u[k];
      var rest := t - Worth(v, a);
      TakeOverFits(v, c[k], t);
      assert u[..k] + [b] == u;
      LastPays(d, u[..k], b);
      LastPays(d, Over(d, c[..k], rest), a);
      ValueNatural(d, u[..k]);
      var w := u[..k];
      if b < a {
        TakeOverNeeded(v, c[k], t);
        w := SwapForHighest(d, u[..k], a, b, t);
      }
      OverFewest(d, c[..k], rest, w);
    } else {
      NoneWorth(d);
    }
  }

  /** Some choice of the held coins reaches the target within the limit. */
  ghost predicate Affordable(d: seq<int>, c: seq<int>, t: int, nMax: int)
    requires |c| <= |d|
  {
    exists u :: Within(u, c) && Value(d, u) >= t && Coins(u) <= nMax
  }

  /** A selection of calculateChange keeps to the limit exactly if some choice of the held coins could. */
  lemma CalculateChangeLimit(d: seq<int>, nMax: int, fMin: bool, t: int, c: seq<int>)
    requires Coinage(d, c) && Natural(c) && t >= 1
    requires CalculateChange(d, nMax, fMin, t, c).0 > 0
    ensures Coins(CalculateChange(d, nMax, fMin, t, c).1) <= nMax <==> Affordable(d, c, t, nMax)
  {
    hide Value, Greedy, Minimize, Coins, Change, HeldBelow, FirstOver, Over, Fillable;
    CalculateChangeSound(d, nMax, fMin, t, c);
    var i := FirstOver(d, c, t, 0);
    if u :| Within(u, c) && Value(d, u) >= t && Coins(u) <= nMax {
      SpendsSomething(d, u);
      if i < |c| {
        var one := Zeros(|c|)[i := 1];
        UnitPays(d, i);
        SingleCoinFills(d, c, t, i);
        MinimizeSound(d, nMax, Coins(Change(d, |d|, d[i] - t)), HeldBelow(c, i), t, c, one);
      } else {
        var o := Over(d, c, t);
        var change := Coins(Change(d, |d|, Value(d, o) - t));
        OverFewest(d, c, t, u);
        ChangeCoins(d, Value(d, o) - t);
        if change > 0 { OvershootFills(d, c, t); }
        MinimizeSound(d, nMax, change, HeldBelow(c, |c|), t, c, o);
        MinimizeOr(d, nMax, change, HeldBelow(c, |c|), t, c, o);
      }
    }
  }

  lemma SpendsSomething(d: seq<int>, u: seq<int>)
    requires Chain(d) && |u| <= |d| && Natural(u) && Value(d, u) >= 1
    ensures Coins(u) >= 1
  {
    NoCoinsNoValue(d, u);
    CoinsNatural(u);
  }

  /** Minimizing ends without change only if it has found an exact payment within the limit. */
  lemma MinimizeKeepsChange(d: seq<int>, nMax: int, change: int, next: int, t: int, c: seq<int>, saved: seq<int>)
    requires Coinage(d, c) && Natural(c) && t >= 1 && t % d[0] == 0 && change > 0 && Fillable(d, c, next, t)
    requires forall w :: Pays(d, c, w, t) ==> Coins(w) > nMax
    ensures Minimize(d, nMax, change, next, t, c, saved).0 > 0
  {
    hide Value, Greedy, Filled, MinimizedAmount, Coins, Change, Fillable;
    FilledPays(d, c, next, t);
    MinimizedAmountPaid(d, c, next, t);
    var u := Greedy(d, c, MinimizedAmount(d, c, next, t));
    if Coins(u) <= nMax {
      assert !Pays(d, c, u, t);
      MoreIsChange(d, t, u);
    }
  }

  /** Whole coins worth more than a whole target give change. */
  lemma MoreIsChange(d: seq<int>, t: int, u: seq<int>)
    requires Chain(d) && 0 < |u| <= |d| && Natural(u) && t % d[0] == 0 && Value(d, u) > t
    ensures Coins(Change(d, |d|, Value(d, u) - t)) > 0
  {
    hide Value, Coins, Change;
    ValueAtLeast(d, u);
    ChangeCoins(d, Value(d, u) - t);
    DifferenceOfMultiples(d[0], Value(d, u), t);
    MultipleAtLeast(d[0], Value(d, u) - t);
  }

  /** For a whole target that no exact payment meets within the limit: calculateChange selects within the
      limit if and only if some choice of the held coins reaches the target within the limit. */
  lemma CalculateChangeWithin(d: seq<int>, nMax: int, fMin: bool, t: int, c: seq<int>)
    requires Coinage(d, c) && Natural(c) && t >= 1 && t % d[0] == 0
    requires forall u :: Pays(d, c, u, t) ==> Coins(u) > nMax
    ensures var (r, u) := CalculateChange(d, nMax, fMin, t, c);
            r > 0 && Coins(u) <= nMax <==> Affordable(d, c, t, nMax)
  {
    hide Value, Greedy, Minimize, Coins, Change, HeldBelow, FirstOver, Over, Fillable;
    if CalculateChange(d, nMax, fMin, t, c).0 > 0 {
      CalculateChangeLimit(d, nMax, fMin, t, c);
    } else if u :| Within(u, c) && Value(d, u) >= t && Coins(u) <= nMax {
      var i := FirstOver(d, c, t, 0);
      if i < |c| {
        var one := Zeros(|c|)[i := 1];
        UnitPays(d, i);
        MoreIsChange(d, t, one);
        SingleCoinFills(d, c, t, i);
        MinimizeKeepsChange(d, nMax, Coins(Change(d, |d|, d[i] - t)), HeldBelow(c, i), t, c, one);
      } else {
        var o := Over(d, c, t);
        OverFewest(d, c, t, u);
        OverWithin(d, c, t);
        ValueOrder(d, u, c);
        OverReaches(d, c, t);
        assert !Pays(d, c, o, t);
        MoreIsChange(d, t, o);
        OvershootFills(d, c, t);
        MinimizeKeepsChange(d, nMax, Coins(Change(d, |d|, Value(d, o) - t)), HeldBelow(c, |c|), t, c, o);
      }
    }
  }

  // ---------------------------------------------------------------- what fMinimizeChange decides

  /** Without the flag the selection uses the fewest coins of all choices that reach the target, and if one
      coin is enough, no other coin that is enough is worth less. */
  lemma WithoutFlagFewest(d: seq<int>, nMax: int, t: int, c: seq<int>, u: seq<int>)
    requires Coinage(d, c) && Natural(c) && t >= 1 && Within(u, c) && Value(d, u) >= t
    ensures Coins(CalculateChange(d, nMax, false, t, c).1) <= Coins(u)
    ensures forall j :: 0 <= j < |c| && c[j] > 0 && d[j] > t ==> Value(d, CalculateChange(d, nMax, false, t, c).1) <= d[j]
  {
    hide Value, Minimize, Coins, Change, HeldBelow, FirstOver, Over;
    SpendsSomething(d, u);
    var i := FirstOver(d, c, t, 0);
    if i < |c| {
      UnitPays(d, i);
      forall j | 0 <= j < |c| && c[j] > 0 && d[j] > t ensures d[i] <= d[j] { ChainOrder(d, i, j); }
    } else {
      var o := Over(d, c, t);
      OverFewest(d, c, t, u);
      MinimizeOr(d, nMax, Coins(Change(d, |d|, Value(d, o) - t)), HeldBelow(c, |c|), t, c, o);
    }
  }

  /** With the flag there is never more change. */
  lemma FlagLessChange(d: seq<int>, nMax: int, t: int, c: seq<int>)
    requires Coinage(d, c)
    ensures CalculateChange(d, nMax, true, t, c).0 <= CalculateChange(d, nMax, false, t, c).0
  {
    hide Value, Minimize, Coins, Change, HeldBelow, FirstOver, Over;
    var i := FirstOver(d, c, t, 0);
    if i == |c| {
      var o := Over(d, c, t);
      MinimizeOr(d, nMax, Coins(Change(d, |d|, Value(d, o) - t)), HeldBelow(c, |c|), t, c, o);
    }
  }

  /** The kinds below `k`. */
  function KindsBelow(c: seq<int>, k: int): seq<int> { seq(|c|, i requires 0 <= i < |c| => if i < k then c[i] else 0) }

  lemma KindsBelowHeld(c: seq<int>, k: int)
    requires 0 <= k <= |c|
    ensures KindsBelow(c, k) == Limit(c, HeldBelow(c, k))
  {}

  /** Amounts that differ by less than the smallest coin from what they pay for are the same. */
  lemma SamePart(d: seq<int>, u: seq<int>, v: seq<int>, y: int)
    requires Chain(d) && 0 < |u| == |v| <= |d| && Natural(u) && Natural(v)
    requires Value(d, u) <= y < Value(d, u) + d[0] && Value(d, v) <= y < Value(d, v) + d[0]
    ensures Value(d, u) == Value(d, v)
  {
    hide Value;
    ValueAtLeast(d, u);
    ValueAtLeast(d, v);
    DifferenceOfMultiples(d[0], Value(d, u), Value(d, v));
    DifferenceOfMultiples(d[0], Value(d, v), Value(d, u));
    if Value(d, u) >= Value(d, v) { MultipleAtLeast(d[0], Value(d, u) - Value(d, v)); } else { MultipleAtLeast(d[0], Value(d, v) - Value(d, u)); }
  }

  lemma MinusNatural(u: seq<int>, w: seq<int>)
    requires Within(w, u)
    ensures Natural(w) && Natural(Minus(u, w)) && Within(Minus(u, w), u)
  {}

  /** Coins that would come back as change can be left out of a choice: it then takes no more coins, and no
      more change comes back. */
  lemma LeavingOutOverlap(d: seq<int>, c: seq<int>, t: int, u: seq<int>)
    requires Coinage(d, c) && Natural(c) && Within(u, c) && Value(d, u) >= t
    ensures var a := Value(d, u) - Value(d, Overlap(Change(d, |d|, Value(d, u) - t), u));
            && Coins(Greedy(d, c, a)) <= Coins(u)
            && Coins(Change(d, |d|, a - t)) <= Coins(Change(d, |d|, Value(d, u) - t))
  {
    hide Greedy, Value, Coins, Change, Overlap, Chain, Natural, Within;
    WithinNatural(u, c);
    PositiveValues(d);
    var x := Value(d, u) - t;
    var alt := Change(d, |d|, x);
    ChangeBest(d, |d|, x, Zeros(|d|)) by { ZerosNatural(|d|); }
    OverlapLeaves(d, u, t);
    OverlapWithin(alt, u);
    var w := Overlap(alt, u);
    var a := Value(d, u) - Value(d, w);
    RemainderPays(d, c, u, w);
    GreedyBest(d, c, Minus(u, w), a);
    MinusValue(d, u, w);
    MinusValue(d, alt, w);
    MinusNatural(u, w);
    MinusNatural(alt, w);
    CoinsNatural(w);
    var v := Minus(alt, w);
    ChangeBest(d, |d|, a - t, v);
    SamePart(d, v, Change(d, |d|, a - t), a - t);
  }

  lemma WithinNatural(u: seq<int>, c: seq<int>)
    requires Within(u, c)
    ensures Natural(u) && |u| == |c|
  {}

  lemma ZerosNatural(n: nat)
    ensures Natural(Zeros(n))
  {}

  lemma FillIndexIs(d: seq<int>, c: seq<int>, g: seq<int>, rest: int, i: int)
    requires |g| == |c| <= |d| && 0 <= i < |c| && Fills(d, c, g, rest, i) && forall j :: 0 <= j < i ==> !Fills(d, c, g, rest, j)
    ensures FillIndex(d, c, g, rest, 0) == i
  {}

  /** With the flag there is no more change than for this choice, if it keeps to the limit: greedily below
      the target, from the kinds below the least held one that is worth more than the target, and then one
      coin of the least kind that passes it. */
  lemma FlagMinimizes(d: seq<int>, nMax: int, t: int, c: seq<int>, k: int, i: int, u: seq<int>)
    requires Coinage(d, c) && Natural(c) && t >= 1 && 0 <= k <= |c| && 0 <= i < |c| && |u| == |c|
    requires (forall j :: 0 <= j < k ==> c[j] == 0 || d[j] <= t) && (k < |c| ==> c[k] > 0 && d[k] > t)
    requires var g := Greedy(d, KindsBelow(c, k), t - 1);
             && u == g[i := g[i] + 1] && g[i] < c[i] && d[i] > t - Value(d, g)
             && (forall j :: 0 <= j < i ==> g[j] >= c[j] || d[j] <= t - Value(d, g))
    requires Coins(u) <= nMax
    ensures CalculateChange(d, nMax, true, t, c).0 <= Coins(Change(d, |d|, Value(d, u) - t))
  {
    hide Greedy, Value, Coins, Change, Overlap, HeldBelow, Limit, KindsBelow, Filled;
    KindsBelowHeld(c, k);
    var next := HeldBelow(c, k);
    LimitWithin(c, next);
    var g := Greedy(d, Limit(c, next), t - 1);
    assert FirstOver(d, c, t, 0) == k;
    FilledIs(d, c, next, t, i);
    FilledPays(d, c, next, t);
    BumpPays(d, g, i);
    LeavingOutOverlap(d, c, t, u);
  }

  lemma FilledIs(d: seq<int>, c: seq<int>, next: int, t: int, i: int)
    requires Coinage(d, c) && Natural(c) && t >= 1 && 0 <= i < |c|
    requires var g := Greedy(d, Limit(c, next), t - 1);
             && g[i] < c[i] && d[i] > t - Value(d, g) && (forall j :: 0 <= j < i ==> g[j] >= c[j] || d[j] <= t - Value(d, g))
    ensures var g := Greedy(d, Limit(c, next), t - 1); Filled(d, c, next, t) == g[i := g[i] + 1]
  {
    hide Greedy, Value, Limit;
    LimitWithin(c, next);
    var g := Greedy(d, Limit(c, next), t - 1);
    var rest := t - Value(d, g);
    forall j | 0 <= j < i ensures !Fills(d, c, g, rest, j) {}
    FillIndexIs(d, c, g, rest, i);
  }

  lemma TwoFives(u: seq<int>)
    requires Within(u, [0, 2, 0, 0, 0, 0, 0, 0])
    ensures |u| == KINDS && Value(V, u) == u[1] * (5 * COIN) && Coins(u) == u[1]
  {
    var k := u[1];
    OnlySecond(V, u[..2]);
    TrailingZeros(V, u, 2);
  }

  lemma OnlySecond(d: seq<int>, u: seq<int>)
    requires |d| >= 2 && |u| == 2 && u[0] == 0
    ensures Value(d, u) == u[1] * d[1] && Coins(u) == u[1]
  {
    LastPays(d, [], 0);
    LastPays(d, [0], u[1]);
    assert u == [] + [0] + [u[1]];
  }

  lemma {:induction false} TrailingZeros(d: seq<int>, u: seq<int>, n: nat)
    requires n <= |u| <= |d| && forall i :: n <= i < |u| ==> u[i] == 0
    ensures Value(d, u) == Value(d, u[..n]) && Coins(u) == Coins(u[..n])
  {
    if n < |u| {
      TrailingZeros(d, u[..|u| - 1], n);
      assert u[..|u| - 1][..n] == u[..n];
    } else {
      assert u[..n] == u;
    }
  }

  /** The documented bound on the number of spends does not hold: two fives are handed out for 6 coins
      although only one spend is allowed. */
  lemma LimitCanBeExceeded(fMin: bool)
    ensures Chain(V)
    ensures var (r, u) := CalculateChange(V, 1, fMin, 6 * COIN, [0, 2, 0, 0, 0, 0, 0, 0]);
            r > 0 && Coins(u) == 2
  {
    hide Value, Coins, CalculateChange;
    VChain();
    var c := [0, 2, 0, 0, 0, 0, 0, 0];
    var t := 6 * COIN;
    TwoFives(c);
    forall u ensures !Pays(V, c, u, t) { if Within(u, c) { TwoFives(u); } }
    assert t % V[0] == 0;
    CalculateChangeComplete(V, 1, fMin, t, c);
    CalculateChangeSound(V, 1, fMin, t, c);
    TwoFives(CalculateChange(V, 1, fMin, t, c).1);
  }
}
