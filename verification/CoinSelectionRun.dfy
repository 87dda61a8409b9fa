/** The functions of the mint selection as the loops they are, each proved equal to its specification. */
module CoinSelectionRun {
  import opened CoinChange
  import opened CoinSelection

  /** `denom` is the denomination as a number, 0 for none. */
  datatype Mint = Mint(denom: int, isUsed: bool, hashSerial: int)

  // ---------------------------------------------------------------- counting loops

  lemma TakeStart(v: int, c: int, t: int)
    requires v > 0
    ensures Worth(v, 0) == 0 && (t < v || c <= 0 ==> Take(v, c, t) == 0) && Take(v, c, t) >= 0
  {
    TakeFits(v, c, t);
  }

  /** One more coin fits: Take is at least one more. */
  lemma TakeMore(v: int, c: int, t: int, n: int)
    requires v > 0 && n >= 0 && t - Worth(v, n) >= v && n < c
    ensures Worth(v, n + 1) == Worth(v, n) + v && n + 1 <= Take(v, c, t)
  {
    WorthNext(v, n);
    TakeGreatest(v, c, t, n + 1);
  }

  /** No more coins fit: Take is no more. */
  lemma TakeNoMore(v: int, c: int, t: int, n: int)
    requires v > 0 && 0 <= n <= Take(v, c, t) && (t - Worth(v, n) < v || n >= c)
    ensures n == Take(v, c, t)
  {
    var a := Take(v, c, t);
    TakeFits(v, c, t);
    if n < a {
      WorthNext(v, n);
      WorthMonotone(v, n + 1, a);
    }
  }

  /** The result so far of a loop from the highest kind down to `i`. */
  ghost predicate GreedyFrom(d: seq<int>, c: seq<int>, t: int, i: int, rest: int, used: seq<int>) {
    && Coinage(d, c) && |used| == |c| && 0 <= i <= |c|
    && (forall j :: 0 <= j < i ==> used[j] == 0)
    && Greedy(d, c, t) == Greedy(d, c[..i], rest) + used[i..]
  }

  lemma GreedyFromStart(d: seq<int>, c: seq<int>, t: int)
    requires Coinage(d, c)
    ensures GreedyFrom(d, c, t, |c|, t, Zeros(|c|))
  {
    assert c[..|c|] == c;
  }

  lemma GreedyFromNext(d: seq<int>, c: seq<int>, t: int, i: int, rest: int, used: seq<int>, used': seq<int>, n: int)
    requires GreedyFrom(d, c, t, i + 1, rest, used) && 0 <= i
    requires n == Take(d[i], c[i], rest) && used' == used[i := n]
    ensures GreedyFrom(d, c, t, i, rest - Worth(d[i], n), used')
  {
    hide Worth, Take, Chain;
    assert forall j :: 0 <= j < |d| ==> d[j] > 0 by { PositiveValues(d); }
    assert c[..i + 1][..i] == c[..i];
    assert [n] + used[i + 1..] == used'[i..];
  }

  lemma GreedyFromEnd(d: seq<int>, c: seq<int>, t: int, rest: int, used: seq<int>)
    requires GreedyFrom(d, c, t, 0, rest, used)
    ensures used == Greedy(d, c, t)
  {
    assert used[0..] == used;
  }

  method GetNumberOfCoinsUsed(m: seq<int>) returns (n: int)
    ensures n == Coins(m)
  {
    n := 0;
    for i := 0 to |m|
      invariant n == Coins(m[..i])
    {
      assert m[..i + 1][..i] == m[..i];
      n := n + m[i];
    }
    assert m[..|m|] == m;
  }

  /** Exact amount with the coins held. The source's do-while loops, whose bodies repeat the loop
      condition, are while loops here and below. */
  method GetSpendCoins(t: int, held: seq<int>) returns (used: seq<int>)
    requires |held| == KINDS
    ensures Chain(V) && used == Greedy(V, held, t)
  {
    hide Chain, Greedy, Take, Worth;
    VChain();
    used := Zeros(KINDS);
    var rest := t;
    GreedyFromStart(V, held, t);
    var i := KINDS;
    while i > 0
      invariant GreedyFrom(V, held, t, i, rest, used)
    {
      hide GreedyFrom;
      GreedyFromShape(V, held, t, i, rest, used);
      i := i - 1;
      var v := V[i];
      ghost var used0, rest0 := used, rest;
      TakeStart(v, held[i], rest0);
      while rest >= v && used[i] < held[i]
        invariant |used| == KINDS && 0 <= used[i] <= Take(v, held[i], rest0) && used == used0[i := used[i]]
        invariant rest == rest0 - Worth(v, used[i])
        decreases held[i] - used[i]
      {
        TakeMore(v, held[i], rest0, used[i]);
        used := used[i := used[i] + 1];
        rest := rest - v;
      }
      TakeNoMore(v, held[i], rest0, used[i]);
      GreedyFromNext(V, held, t, i, rest0, used0, used, used[i]);
    }
    GreedyFromEnd(V, held, t, rest, used);
  }

  lemma GreedyFromShape(d: seq<int>, c: seq<int>, t: int, i: int, rest: int, used: seq<int>)
    requires GreedyFrom(d, c, t, i, rest, used)
    ensures |used| == |c| == |d| && 0 <= i <= |c| && (forall j :: 0 <= j < i ==> used[j] == 0) && (forall j :: 0 <= j < |d| ==> d[j] > 0)
  {
    PositiveValues(d);
  }

  /** Change, no limits. */
  method GetChange(t: int) returns (change: seq<int>)
    ensures Chain(V) && change == Change(V, KINDS, t)
  {
    hide Chain, Greedy, Take, Worth;
    VChain();
    change := Zeros(KINDS);
    ghost var supply := Supply(KINDS, t);
    var rest := t;
    GreedyFromStart(V, supply, t);
    var i := KINDS;
    while i > 0
      invariant GreedyFrom(V, supply, t, i, rest, change) && rest <= t
    {
      hide GreedyFrom;
      GreedyFromShape(V, supply, t, i, rest, change);
      i := i - 1;
      var v := V[i];
      ghost var change0, rest0 := change, rest;
      TakeStart(v, supply[i], rest0);
      while rest >= v
        invariant |change| == KINDS && 0 <= change[i] <= Take(v, supply[i], rest0) && change == change0[i := change[i]]
        invariant rest == rest0 - Worth(v, change[i]) && rest <= rest0
        decreases rest
      {
        WorthAtLeast(v, change[i]);
        TakeMore(v, supply[i], rest0, change[i]);
        change := change[i := change[i] + 1];
        rest := rest - v;
      }
      TakeNoMore(v, supply[i], rest0, change[i]);
      GreedyFromNext(V, supply, t, i, rest0, change0, change, change[i]);
    }
    GreedyFromEnd(V, supply, t, rest, change);
  }

  // ---------------------------------------------------------------- mints

  predicate Matches(m: Mint, denom: int) { !m.isUsed && m.denom == denom }

  /** The number of unused mints of a denomination. */
  function Count(mints: seq<Mint>, denom: int): nat {
    if mints == [] then 0 else Count(mints[..|mints| - 1], denom) + if Matches(mints[|mints| - 1], denom) then 1 else 0
  }

  /** What the caller's map of held denominations counts. */
  function Held(mints: seq<Mint>): seq<int> { seq(KINDS, i requires 0 <= i < KINDS => Count(mints, DENOMS[i])) }

  lemma {:induction false} CountMonotone(mints: seq<Mint>, n: nat, denom: int)
    requires n <= |mints|
    ensures Count(mints[..n], denom) <= Count(mints, denom)
    decreases |mints|
  {
    if n == |mints| {
      assert mints[..n] == mints;
    } else {
      CountMonotone(mints[..|mints| - 1], n, denom);
      assert mints[..|mints| - 1][..n] == mints[..n];
    }
  }

  lemma CountNext(mints: seq<Mint>, n: nat, denom: int)
    requires n < |mints|
    ensures Count(mints[..n + 1], denom) == Count(mints[..n], denom) + if Matches(mints[n], denom) then 1 else 0
    ensures Count(mints[..n + 1], denom) <= Count(mints, denom)
  {
    assert mints[..n + 1][..n] == mints[..n];
    CountMonotone(mints, n + 1, denom);
  }

  lemma CountNone(mints: seq<Mint>, denom: int)
    ensures Count(mints[..0], denom) == 0
  {}

  /** One pass of getIdealSpends over the list, for one denomination. */
  method IdealOfKind(v: int, denom: int, mints: seq<Mint>, rest0: int) returns (n: int, rest: int)
    requires v > 0
    ensures n == Take(v, Count(mints, denom), rest0) && rest == rest0 - Worth(v, n)
  {
    hide Take, Worth, Count, Matches;
    n, rest := 0, rest0;
    var c := Count(mints, denom);
    TakeStart(v, c, rest0);
    CountNone(mints, denom);
    var j := 0;
    while j < |mints|
      invariant 0 <= j <= |mints| && 0 <= n <= Take(v, c, rest0) && rest == rest0 - Worth(v, n)
      invariant n <= Count(mints[..j], denom) && (rest >= v ==> n == Count(mints[..j], denom))
    {
      CountNext(mints, j, denom);
      MatchesMeans(mints[j], denom);
      if mints[j].isUsed { j := j + 1; continue; }
      if rest >= v && denom == mints[j].denom {
        TakeMore(v, c, rest0, n);
        n := n + 1;
        rest := rest - v;
      }
      if rest < v { break; }
      j := j + 1;
    }
    assert j == |mints| ==> mints[..j] == mints;
    TakeNoMore(v, c, rest0, n);
  }

  lemma MatchesMeans(m: Mint, denom: int)
    ensures Matches(m, denom) <==> !m.isUsed && m.denom == denom
  {}

  /** Whether the unused mints can meet the amount exactly, and with which of them. */
  method GetIdealSpends(t: int, mints: seq<Mint>) returns (ok: bool, used: seq<int>)
    ensures Chain(V) && used == Greedy(V, Held(mints), t)
    ensures ok <==> exists u :: Pays(V, Held(mints), u, t)
    ensures ok ==> Pays(V, Held(mints), used, t) && forall u :: Pays(V, Held(mints), u, t) ==> Coins(used) <= Coins(u)
  {
    hide Chain, Greedy, Take, Worth, Count;
    VChain();
    used := Zeros(KINDS);
    ghost var held := Held(mints);
    var rest := t;
    GreedyFromStart(V, held, t);
    var i := KINDS;
    ghost var paid := 0;
    GreedyPaidStart(V, held, t);
    while i > 0
      invariant GreedyFrom(V, held, t, i, rest, used)
      invariant rest == t - Value(V, used)
    {
      hide GreedyFrom;
      GreedyFromShape(V, held, t, i, rest, used);
      i := i - 1;
      ghost var rest0, used0 := rest, used;
      var n;
      n, rest := IdealOfKind(V[i], DENOMS[i], mints, rest);
      used := used[i := n];
      SetPays(V, used0, i, n);
      GreedyFromNext(V, held, t, i, rest0, used0, used, n);
    }
    GreedyFromEnd(V, held, t, rest, used);
    ok := rest == 0;
    IdealMeans(V, held, t);
  }

  lemma GreedyPaidStart(d: seq<int>, c: seq<int>, t: int)
    requires |c| <= |d|
    ensures Value(d, Zeros(|c|)) == 0
  {
    ZerosPay(d, |c|);
  }

  lemma {:induction false} SetPays(d: seq<int>, u: seq<int>, i: int, n: int)
    requires |u| <= |d| && 0 <= i < |u| && u[i] == 0
    ensures Value(d, u[i := n]) == Value(d, u) + Worth(d[i], n)
    decreases |u|
  {
    var k := |u| - 1;
    var w := u[i := n];
    if i == k {
      assert w[..k] == u[..k] && Worth(d[k], 0) == 0;
    } else {
      assert w[..k] == u[..k][i := n];
      SetPays(d, u[..k], i, n);
    }
  }

  lemma IdealMeans(d: seq<int>, c: seq<int>, t: int)
    requires Chain(d) && |c| <= |d| && Natural(c)
    ensures var g := Greedy(d, c, t);
            && (Value(d, g) == t <==> exists u :: Pays(d, c, u, t))
            && (Value(d, g) == t ==> Pays(d, c, g, t) && forall u :: Pays(d, c, u, t) ==> Coins(g) <= Coins(u))
  {
    GreedyComplete(d, c, t);
    GreedyFits(d, c, t);
    forall u | Pays(d, c, u, t) ensures Coins(Greedy(d, c, t)) <= Coins(u) { GreedyBest(d, c, u, t); }
  }

  /** The total value of mints. */
  function SumOf(sel: seq<Mint>): int {
    if sel == [] then 0 else SumOf(sel[..|sel| - 1]) + sel[|sel| - 1].denom * COIN
  }

  /** `sel` are the mints at the distinct positions `at`, and none of them is used. */
  ghost predicate Picked(mints: seq<Mint>, sel: seq<Mint>, at: seq<nat>) {
    && |sel| == |at|
    && (forall a :: 0 <= a < |at| ==> at[a] < |mints| && sel[a] == mints[at[a]] && !sel[a].isUsed)
    && (forall a, b :: 0 <= a < b < |at| ==> at[a] != at[b])
  }

  /** One round of the do-while loop of getSpends for one denomination: with `n0` at most the number of
      matching mints, one round is all it takes. */
  method SpendsOfKind(mints: seq<Mint>, denom: int, n0: int, sel0: seq<Mint>, value0: int, ghost at0: seq<nat>)
    returns (n: int, sel: seq<Mint>, value: int, ghost at: seq<nat>)
    requires 0 <= n0 <= Count(mints, denom)
    requires Picked(mints, sel0, at0) && value0 == SumOf(sel0)
    requires forall a :: 0 <= a < |sel0| ==> sel0[a].denom != denom
    ensures n == 0 && |sel| == |sel0| + n0 && Picked(mints, sel, at) && value == SumOf(sel)
    ensures forall a :: 0 <= a < |sel| ==> sel[a].denom == denom || sel[a] in sel0
    ensures value == value0 + Worth(denom * COIN, n0)
    ensures forall k :: Count(sel, k) == Count(sel0, k) + if k == denom then n0 else 0
  {
    hide Count, SumOf, Worth;
    n, sel, value, at := n0, sel0, value0, at0;
    CountNone(mints, denom);
    assert Worth(denom * COIN, 0) == 0 by { WorthZero(denom * COIN); }
    for j := 0 to |mints|
      invariant 0 <= n <= n0 && |sel| == |sel0| + n0 - n
      invariant n == if Count(mints[..j], denom) < n0 then n0 - Count(mints[..j], denom) else 0
      invariant Picked(mints, sel, at) && value == SumOf(sel)
      invariant forall a :: 0 <= a < |sel| && sel[a].denom == denom ==> at[a] < j
      invariant forall a :: 0 <= a < |sel| ==> sel[a].denom == denom || sel[a] in sel0
      invariant value == value0 + Worth(denom * COIN, n0 - n)
      invariant forall k :: Count(sel, k) == Count(sel0, k) + if k == denom then n0 - n else 0
    {
      CountNext(mints, j, denom);
      MatchesMeans(mints[j], denom);
      if mints[j].isUsed { continue; }
      if denom == mints[j].denom && n != 0 {
        SumNext(sel, mints[j]);
        forall k ensures Count(sel + [mints[j]], k) == Count(sel, k) + if k == denom then 1 else 0 {
          CountAppend(sel, mints[j], k);
          MatchesMeans(mints[j], k);
        }
        WorthNext(denom * COIN, n0 - n);
        sel := sel + [mints[j]];
        at := at + [j];
        value := value + denom * COIN;
        n := n - 1;
      }
    }
    assert mints[..|mints|] == mints;
  }

  lemma WorthZero(v: int)
    ensures Worth(v, 0) == 0
  {}

  lemma SumNext(sel: seq<Mint>, m: Mint)
    ensures SumOf(sel + [m]) == SumOf(sel) + m.denom * COIN
  {
    assert (sel + [m])[..|sel|] == sel;
  }

  lemma CountAppend(sel: seq<Mint>, m: Mint, denom: int)
    ensures Count(sel + [m], denom) == Count(sel, denom) + if Matches(m, denom) then 1 else 0
  {
    assert (sel + [m])[..|sel|] == sel;
  }

  /** The mints for the counts in `usedIn`. It terminates because no count exceeds the supply. */
  method GetSpends(mints: seq<Mint>, usedIn: seq<int>) returns (sel: seq<Mint>, value: int, ghost at: seq<nat>)
    requires Within(usedIn, Held(mints))
    ensures Picked(mints, sel, at) && value == SumOf(sel)
    ensures |V| == KINDS && value == Value(V, usedIn) && |sel| == Coins(usedIn)
    ensures Held(sel) == usedIn
  {
    hide Count, SumOf, Worth, Value, Coins, Picked;
    VChain();
    sel, value, at := [], 0, [];
    PickedNone(mints);
    forall k ensures Count([], k) == 0 { CountNone([], k); }
    ghost var taken := Zeros(KINDS);
    ZerosPay(V, KINDS);
    var i := KINDS;
    while i > 0
      invariant 0 <= i <= KINDS && Picked(mints, sel, at) && value == SumOf(sel)
      invariant |taken| == KINDS && forall j :: 0 <= j < KINDS ==> taken[j] == if j < i then 0 else usedIn[j]
      invariant value == Value(V, taken) && |sel| == Coins(taken)
      invariant forall a :: 0 <= a < |sel| ==> exists j :: i <= j < KINDS && sel[a].denom == DENOMS[j]
      invariant forall j :: 0 <= j < KINDS ==> Count(sel, DENOMS[j]) == taken[j]
    {
      i := i - 1;
      forall j | 0 <= j < KINDS ensures DENOMS[j] == DENOMS[i] <==> j == i { DenomsDiffer(i); DenomsDiffer(j); }
      SetPays(V, taken, i, usedIn[i]);
      SetCounts(taken, i, usedIn[i]);
      ghost var sel0 := sel;
      var n;
      n, sel, value, at := SpendsOfKind(mints, DENOMS[i], usedIn[i], sel, value, at);
      assert n == 0;  // so the do-while loop ends here
      taken := taken[i := usedIn[i]];
      forall a | 0 <= a < |sel| ensures exists j :: i <= j < KINDS && sel[a].denom == DENOMS[j] {
        if sel[a].denom != DENOMS[i] { var b :| 0 <= b < |sel0| && sel0[b] == sel[a]; }
      }
    }
    assert taken == usedIn;
  }

  lemma PickedNone(mints: seq<Mint>)
    ensures Picked(mints, [], []) && SumOf([]) == 0
  {}

  lemma DenomsDiffer(i: int)
    requires 0 <= i < KINDS
    ensures forall j :: i < j < KINDS ==> DENOMS[j] != DENOMS[i]
  {}

  lemma {:induction false} SetCounts(u: seq<int>, i: int, n: int)
    requires 0 <= i < |u| && u[i] == 0
    ensures Coins(u[i := n]) == Coins(u) + n
    decreases |u|
  {
    var k := |u| - 1;
    var w := u[i := n];
    if i == k {
      assert w[..k] == u[..k];
    } else {
      assert w[..k] == u[..k][i := n];
      SetCounts(u[..k], i, n);
    }
  }

  // ---------------------------------------------------------------- minimizeChange

  /** The first phase of minimizeChange: greedily, but staying below the target. */
  method FillBelow(next: int, t: int, held: seq<int>) returns (rest: int, amountUsed: int, used: seq<int>)
    requires |held| == KINDS
    ensures Chain(V) && used == Greedy(V, Limit(held, next), t - 1)
    ensures amountUsed == Value(V, used) && rest == t - amountUsed
  {
    hide Chain, Greedy, Take, Worth, Value;
    VChain();
    used, rest, amountUsed := Zeros(KINDS), t, 0;
    ghost var limited := Limit(held, next);
    GreedyFromStart(V, limited, t - 1);
    GreedyPaidStart(V, held, t);
    var i := KINDS;
    while i > 0
      invariant GreedyFrom(V, limited, t - 1, i, rest - 1, used)
      invariant amountUsed == Value(V, used) && rest == t - amountUsed
    {
      hide GreedyFrom;
      GreedyFromShape(V, limited, t - 1, i, rest - 1, used);
      i := i - 1;
      ghost var used0, rest0 := used, rest;
      var v := V[i];
      TakeStart(v, limited[i], rest0 - 1);
      if i <= next {
        while rest > v && used[i] < held[i]
          invariant |used| == KINDS && 0 <= used[i] <= Take(v, limited[i], rest0 - 1) && used == used0[i := used[i]]
          invariant rest == rest0 - Worth(v, used[i]) && rest + amountUsed == t
          decreases held[i] - used[i]
        {
          TakeMore(v, limited[i], rest0 - 1, used[i]);
          used := used[i := used[i] + 1];
          rest := rest - v;
          amountUsed := amountUsed + v;
        }
        TakeNoMore(v, limited[i], rest0 - 1, used[i]);
      } else {
        assert used == used0[i := 0];
      }
      SetPays(V, used0, i, used[i]);
      GreedyFromNext(V, limited, t - 1, i, rest0 - 1, used0, used, used[i]);
    }
    GreedyFromEnd(V, limited, t - 1, rest - 1, used);
  }

  /** The second phase: one coin of the smallest kind that covers the rest. */
  method FillFromBottom(rest: int, amountUsed: int, used: seq<int>, held: seq<int>) returns (amountUsed': int, used': seq<int>)
    requires |used| == |held| == KINDS && rest > 0
    ensures |V| == KINDS && used' == FillUp(V, held, used, rest)
    ensures amountUsed' == amountUsed + Value(V, used') - Value(V, used)
  {
    VChain();
    hide Value;
    used', amountUsed' := used, amountUsed;
    var left := rest;
    for i := 0 to KINDS
      invariant used' == used && amountUsed' == amountUsed && left == rest
      invariant FillIndex(V, held, used, rest, 0) == FillIndex(V, held, used, rest, i)
    {
      var v := V[i];
      if v > left && used'[i] < held[i] {
        BumpPays(V, used, i);
        used' := used'[i := used'[i] + 1];
        left := left - v;
        amountUsed' := amountUsed' + v;
      }
      if left < 0 { return; }
    }
  }

  /** The third phase: what would be paid and come back again is not paid. */
  method DropOverlap(altIn: seq<int>, usedIn: seq<int>, amountIn: int) returns (amountUsed: int)
    requires |altIn| == |usedIn| == KINDS && Natural(altIn) && Natural(usedIn)
    ensures |V| == KINDS && amountUsed == amountIn - Value(V, Overlap(altIn, usedIn))
  {
    hide Value, Worth;
    VChain();
    var alt, used := altIn, usedIn;
    amountUsed := amountIn;
    ghost var dropped := Zeros(KINDS);
    ZerosPay(V, KINDS);
    for i := 0 to KINDS
      invariant |alt| == |used| == |dropped| == KINDS
      invariant forall j :: i <= j < KINDS ==> alt[j] == altIn[j] && used[j] == usedIn[j] && dropped[j] == 0
      invariant forall j :: 0 <= j < i ==> dropped[j] == Overlap(altIn, usedIn)[j]
      invariant amountUsed == amountIn - Value(V, dropped)
    {
      ghost var amount0, n := amountUsed, 0;
      WorthZero(V[i]);
      while alt[i] != 0 && used[i] != 0
        invariant |alt| == |used| == KINDS && 0 <= alt[i] && 0 <= used[i] && 0 <= n
        invariant alt[i] == altIn[i] - n && used[i] == usedIn[i] - n
        invariant forall j :: i < j < KINDS ==> alt[j] == altIn[j] && used[j] == usedIn[j]
        invariant amountUsed == amount0 - Worth(V[i], n)
        decreases alt[i]
      {
        WorthNext(V[i], n);
        used := used[i := used[i] - 1];
        alt := alt[i := alt[i] - 1];
        amountUsed := amountUsed - V[i];
        n := n + 1;
      }
      SetPays(V, dropped, i, n);
      dropped := dropped[i := n];
    }
    assert dropped == Overlap(altIn, usedIn);
  }

  method MinimizeChange(nMax: int, nChangeCount: int, next: int, t: int, held: seq<int>, usedIn: seq<int>) returns (r: int, used: seq<int>)
    requires |held| == KINDS && Natural(held) && t >= 1
    ensures Chain(V) && (r, used) == Minimize(V, nMax, nChangeCount, next, t, held, usedIn)
  {
    hide Chain, Greedy, Value, Coins, FillUp, Overlap, Natural, Change;
    VChain();
    PositiveValues(V);
    var rest, amountUsed;
    rest, amountUsed, used := FillBelow(next, t, held);
    FillBelowFacts(V, held, next, t);
    amountUsed, used := FillFromBottom(rest, amountUsed, used, held);
    var mapAltChange := GetChange(amountUsed - t);
    ChangeNatural(V, amountUsed - t);
    amountUsed := DropOverlap(mapAltChange, used, amountUsed);
    used := GetSpendCoins(amountUsed, held);
    var nCoinCount := GetNumberOfCoinsUsed(used);
    mapAltChange := GetChange(amountUsed - t);
    var altChangeCount := GetNumberOfCoinsUsed(mapAltChange);
    if altChangeCount < nChangeCount && nCoinCount <= nMax {
      return altChangeCount, used;
    } else {
      return nChangeCount, usedIn;
    }
  }

  lemma FillBelowFacts(d: seq<int>, c: seq<int>, next: int, t: int)
    requires Coinage(d, c) && Natural(c) && t >= 1
    ensures var g := Greedy(d, Limit(c, next), t - 1);
            |g| == |c| && t - Value(d, g) > 0 && Natural(FillUp(d, c, g, t - Value(d, g)))
  {
    hide Greedy, Limit, FillUp, Value, Coins, Chain;
    FilledPays(d, c, next, t);
    LimitWithin(c, next);
    GreedyFits(d, Limit(c, next), t - 1);
  }

  lemma ChangeNatural(d: seq<int>, t: int)
    requires Chain(d)
    ensures Natural(Change(d, |d|, t))
  {
    GreedyFits(d, Supply(|d|, t), t);
  }

  // ---------------------------------------------------------------- calculateChange

  /** getNextLowerDenomHeld, and with `i` past the last kind getMaxDenomHeld. */
  method GetDenomHeldBelow(held: seq<int>, i: int) returns (k: int)
    requires |held| == KINDS && 0 <= i <= KINDS
    ensures k == HeldBelow(held, i)
  {
    var j := KINDS;
    while j > 0
      invariant 0 <= j <= KINDS && HeldBelow(held, i) == HeldBelow(held, if j < i then j else i)
    {
      j := j - 1;
      if j < i && held[j] != 0 { return j; }
    }
    k := -1;
  }

  /** The loop of calculateChange for a target that no single coin exceeds. */
  method TakeUntilOver(t: int, held: seq<int>) returns (amountUsed: int, nCoinCount: int, used: seq<int>)
    requires |held| == KINDS && Natural(held)
    ensures Chain(V) && used == Over(V, held, t) && amountUsed == Value(V, used) && nCoinCount == Coins(used)
  {
    hide Chain, Over, TakeOver, Worth, Value, Coins;
    VChain();
    PositiveValues(V);
    used, amountUsed, nCoinCount := Zeros(KINDS), 0, 0;
    ZerosPay(V, KINDS);
    var rest := t;
    OverFromStart(V, held, t);
    var i := KINDS;
    while i > 0
      invariant OverFrom(V, held, t, i, rest, used)
      invariant amountUsed == Value(V, used) && nCoinCount == Coins(used) && rest == t - amountUsed
    {
      hide OverFrom;
      OverFromShape(V, held, t, i, rest, used);
      i := i - 1;
      var v := V[i];
      ghost var used0, rest0 := used, rest;
      OverStart(v, held[i], rest0);
      // the do-while loop takes its first coin under the condition held != 0, later ones under used < held
      while rest > 0 && used[i] < held[i]
        invariant |used| == KINDS && 0 <= used[i] <= TakeOver(v, held[i], rest0) && used == used0[i := used[i]]
        invariant rest == rest0 - Worth(v, used[i]) && rest == t - amountUsed && nCoinCount == Coins(used0) + used[i]
        decreases held[i] - used[i]
      {
        OverMore(v, held[i], rest0, used[i]);
        used := used[i := used[i] + 1];
        amountUsed := amountUsed + v;
        rest := rest - v;
        nCoinCount := nCoinCount + 1;
      }
      OverNoMore(v, held[i], rest0, used[i]);
      SetPays(V, used0, i, used[i]);
      SetCounts(used0, i, used[i]);
      OverFromNext(V, held, t, i, rest0, used0, used, used[i]);
      if rest < 0 { break; }
    }
    OverFromEnd(V, held, t, i, rest, used);
  }

  lemma OverStart(v: int, c: int, t: int)
    requires v > 0
    ensures Worth(v, 0) == 0 && TakeOver(v, c, t) >= 0
  {}

  lemma OverMore(v: int, c: int, t: int, n: int)
    requires v > 0 && 0 <= n < c && t - Worth(v, n) > 0
    ensures Worth(v, n + 1) == Worth(v, n) + v && n + 1 <= TakeOver(v, c, t)
  {
    WorthNext(v, n);
    WorthAtLeast(v, n);
    QuotientGreatest(v, t - 1, n);
  }

  lemma OverNoMore(v: int, c: int, t: int, n: int)
    requires v > 0 && 0 <= n <= TakeOver(v, c, t) && (t - Worth(v, n) <= 0 || n >= c) && c >= 0
    ensures n == TakeOver(v, c, t)
  {
    var a := TakeOver(v, c, t);
    if n < a {
      var q := (t - 1) / v;
      assert v * q <= t - 1;
      WorthMonotone(v, n, q);
    }
  }

  /** The result so far of the overshooting loop from the highest kind down to `i`. */
  ghost predicate OverFrom(d: seq<int>, c: seq<int>, t: int, i: int, rest: int, used: seq<int>) {
    && Coinage(d, c) && |used| == |c| && 0 <= i <= |c|
    && (forall j :: 0 <= j < i ==> used[j] == 0)
    && Over(d, c, t) == Over(d, c[..i], rest) + used[i..]
  }

  lemma OverFromStart(d: seq<int>, c: seq<int>, t: int)
    requires Coinage(d, c)
    ensures OverFrom(d, c, t, |c|, t, Zeros(|c|))
  {
    assert c[..|c|] == c;
  }

  lemma OverFromShape(d: seq<int>, c: seq<int>, t: int, i: int, rest: int, used: seq<int>)
    requires OverFrom(d, c, t, i, rest, used)
    ensures |used| == |c| == |d| && 0 <= i <= |c| && (forall j :: 0 <= j < i ==> used[j] == 0)
  {}

  lemma OverFromNext(d: seq<int>, c: seq<int>, t: int, i: int, rest: int, used: seq<int>, used': seq<int>, n: int)
    requires OverFrom(d, c, t, i + 1, rest, used) && 0 <= i
    requires (forall j :: 0 <= j < |d| ==> d[j] > 0) && n == TakeOver(d[i], c[i], rest) && used' == used[i := n]
    ensures OverFrom(d, c, t, i, rest - Worth(d[i], n), used')
  {
    hide Worth, TakeOver, Chain;
    assert c[..i + 1][..i] == c[..i];
    assert [n] + used[i + 1..] == used'[i..];
  }

  /** Stopping early makes no difference: with nothing left to pay, no more coins are taken. */
  lemma OverFromEnd(d: seq<int>, c: seq<int>, t: int, i: int, rest: int, used: seq<int>)
    requires OverFrom(d, c, t, i, rest, used) && (i == 0 || rest < 0)
    ensures used == Over(d, c, t)
  {
    if i > 0 {
      OverNothing(d, c[..i], rest);
      assert used[..i] == Zeros(i);
      assert used == used[..i] + used[i..];
    } else {
      assert used[0..] == used;
    }
  }

  method CalculateChange_(nMax: int, fMin: bool, t: int, held: seq<int>) returns (r: int, used: seq<int>)
    requires |held| == KINDS && Natural(held) && t >= 1
    ensures Chain(V) && (r, used) == CalculateChange(V, nMax, fMin, t, held)
  {
    hide Chain, Over, Value, Coins, Minimize, Change, HeldBelow, Natural;
    VChain();
    PositiveValues(V);
    var minDenomOverTarget := 0;
    while minDenomOverTarget < KINDS
      invariant 0 <= minDenomOverTarget <= KINDS
      invariant FirstOver(V, held, t, 0) == FirstOver(V, held, t, minDenomOverTarget)
    {
      if t < V[minDenomOverTarget] && held[minDenomOverTarget] != 0 { break; }
      minDenomOverTarget := minDenomOverTarget + 1;
    }
    if minDenomOverTarget < KINDS {
      used := Zeros(KINDS)[minDenomOverTarget := 1];
      var mapChange := GetChange(V[minDenomOverTarget] - t);
      var nChangeCount := GetNumberOfCoinsUsed(mapChange);
      if fMin {
        var nextToMaxDenom := GetDenomHeldBelow(held, minDenomOverTarget);
        var newChangeCount;
        newChangeCount, used := MinimizeChange(nMax, nChangeCount, nextToMaxDenom, t, held, used);
        if newChangeCount < nChangeCount { return newChangeCount, used; }
        used := Zeros(KINDS)[minDenomOverTarget := 1];
      }
      return nChangeCount, used;
    } else {
      var amountUsed, nCoinCount;
      amountUsed, nCoinCount, used := TakeUntilOver(t, held);
      var mapChange := GetChange(amountUsed - t);
      var nMaxChangeCount := GetNumberOfCoinsUsed(mapChange);
      var maxDenomHeld := GetDenomHeldBelow(held, KINDS);
      var nChangeCount, minUsed := MinimizeChange(nMax, nMaxChangeCount, maxDenomHeld, t, held, used);
      var nNumSpends := GetNumberOfCoinsUsed(minUsed);
      if !fMin && nCoinCount < nNumSpends { return nMaxChangeCount, used; }
      return nChangeCount, minUsed;
    }
  }

  // ---------------------------------------------------------------- the selection

  /** The conversion of a 32-bit int to a 64-bit size_t. */
  function ToSize(n: int): int { if n < 0 then n + 0x1_0000_0000_0000_0000 else n }

  /** The selection over a list whose unused mints the caller has counted. A selection is made of
      distinct unused mints, adds up to `nSelectedValue` and covers the target, and `nCoinsReturned` is
      the least number of coins the excess can be returned in. An exact payment within the limit is
      found whenever there is one, and then it is one with the fewest mints; without an exact payment, a
      target of whole coins is covered whenever the mints are worth it. A selection within the limit is
      made for whole coins exactly if some choice of the mints reaches the target within it. Without an exact payment the flag
      decides between fewest mints and less change. */
  method SelectMintsFromList(t: int, nSelectedIn: int, nMax: int, fMin: bool, mints: seq<Mint>, held: seq<int>)
    returns (sel: seq<Mint>, nSelectedValue: int, nCoinsReturned: int, nNeededSpends: int, ghost at: seq<nat>)
    requires held == Held(mints) && t >= 1
    ensures Chain(V) && |V| == KINDS
    ensures Picked(mints, sel, at)
    ensures sel != [] ==>
              && nSelectedValue == SumOf(sel) && nSelectedValue >= t
              && nCoinsReturned == Coins(Change(V, KINDS, nSelectedValue - t))
    ensures forall u :: Pays(V, held, u, t) && Coins(u) <= ToSize(nMax) ==>
              sel != [] && nSelectedValue == t && nCoinsReturned == 0 && |sel| <= Coins(u)
    ensures (forall u :: Pays(V, held, u, t) ==> Coins(u) > ToSize(nMax)) ==>
              var (r, used) := CalculateChange(V, nMax, fMin, t, held);
              nCoinsReturned == r && (r > 0 ==> Held(sel) == used && nSelectedValue == Value(V, used))
    ensures (forall u :: !Pays(V, held, u, t)) && t % COIN == 0 && Value(V, held) >= t ==> sel != []
    ensures nMax >= 0 && sel != [] ==> (|sel| <= nMax <==> Affordable(V, held, t, nMax))
    ensures nMax >= 0 && t % COIN == 0 ==> (sel != [] && |sel| <= nMax <==> Affordable(V, held, t, nMax))
    ensures !fMin && nCoinsReturned > 0 ==> forall u :: Within(u, held) && Value(V, u) >= t ==> |sel| <= Coins(u)
    ensures fMin && (forall u :: Pays(V, held, u, t) ==> Coins(u) > ToSize(nMax)) ==> nCoinsReturned <= CalculateChange(V, nMax, false, t, held).0
    ensures sel == [] <==> nCoinsReturned == 0 && forall u :: Pays(V, held, u, t) ==> Coins(u) > ToSize(nMax)
    ensures if (exists u :: Pays(V, held, u, t)) && (forall u :: Pays(V, held, u, t) ==> Coins(u) > ToSize(nMax))
            then (exists u :: Pays(V, held, u, t) && Coins(u) == nNeededSpends) && (forall u :: Pays(V, held, u, t) ==> nNeededSpends <= Coins(u))
            else nNeededSpends == 0
  {
    hide Chain, Value, Coins, CalculateChange, Change, Natural, Held, SumOf, Count, Within, Greedy;
    HeldShape(mints);
    VChain();
    nNeededSpends := 0;
    nSelectedValue := nSelectedIn;
    var fCanMeetExactly, used := GetIdealSpends(t, mints);
    if fCanMeetExactly {
      nCoinsReturned := 0;
      sel, nSelectedValue, at := GetSpends(mints, used);
      ExactChange(V, t);
      if |sel| <= ToSize(nMax) {
        WithinNatural(used, held);
        PaysSomething(V, used, t);
        return;
      }
      nNeededSpends := |sel|;
    }
    nCoinsReturned, used := CalculateChange_(nMax, fMin, t, held);
    CalculateChangeSound(V, nMax, fMin, t, held);
    if (forall u :: !Pays(V, held, u, t)) && t % COIN == 0 && Value(V, held) >= t {
      CalculateChangeComplete(V, nMax, fMin, t, held);
    }
    if t % COIN == 0 && nMax >= 0 { CalculateChangeWithin(V, nMax, fMin, t, held); }
    if nCoinsReturned > 0 { CalculateChangeLimit(V, nMax, fMin, t, held); }
    if fMin {
      FlagLessChange(V, nMax, t, held);
    } else {
      FewestOfAll(V, nMax, t, held);
    }
    if nCoinsReturned == 0 {
      sel, at := [], [];
      PickedNone(mints);
    } else {
      sel, nSelectedValue, at := GetSpends(mints, used);
      WithinNatural(used, held);
      PaysSomething(V, used, Value(V, used));
    }
  }

  lemma FewestOfAll(d: seq<int>, nMax: int, t: int, c: seq<int>)
    requires Coinage(d, c) && Natural(c) && t >= 1
    ensures forall u :: Within(u, c) && Value(d, u) >= t ==> Coins(CalculateChange(d, nMax, false, t, c).1) <= Coins(u)
  {
    hide Value, Coins, CalculateChange;
    forall u | Within(u, c) && Value(d, u) >= t ensures Coins(CalculateChange(d, nMax, false, t, c).1) <= Coins(u) { WithoutFlagFewest(d, nMax, t, c, u); }
  }

  lemma HeldShape(mints: seq<Mint>)
    ensures |Held(mints)| == KINDS && Natural(Held(mints))
  {}

  lemma ExactChange(d: seq<int>, t: int)
    requires Chain(d) && |d| > 0
    ensures Coins(Change(d, |d|, t - t)) == 0
  {
    ChangeCoins(d, 0);
  }

  lemma PaysSomething(d: seq<int>, u: seq<int>, t: int)
    requires Chain(d) && |u| <= |d| && Natural(u) && Value(d, u) == t && t >= 1
    ensures Coins(u) > 0
  {
    ValueNatural(d, u);
    NoCoinsNoValue(d, u);
  }
}
