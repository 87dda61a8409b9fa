/** Runs of the address manager, and the check the source makes of its own state. */
module AddrManRuns {
  import opened Basics
  import opened AddrMan
  import opened Options
  import opened AddrManOps

  // ---------------------------------------------------------------- the remaining operations

  ghost function Attempt(s: State, addr: Service, nTime: int): State {
    match FindExact(s, addr)
    case None => s
    case Some(id) => Update(s, id, s.mapInfo[id].(nLastTry := nTime, nAttempts := s.mapInfo[id].nAttempts + 1))
  }

  ghost function Connected(s: State, addr: Service, nTime: int): State {
    match FindExact(s, addr)
    case None => s
    case Some(id) =>
      if nTime - s.mapInfo[id].nTime > 20 * 60 then Update(s, id, s.mapInfo[id].(nTime := nTime)) else s
  }

  function ToAddress(i: AddrInfo): Address { Address(i.service, i.nServices, i.nTime) }

  function GetAddrCount(size: nat): nat {
    var n := GETADDR_MAX_PCT * size / 100;
    if n > GETADDR_MAX then GETADDR_MAX else n
  }

  /** The loop of GetAddr_ from position `n` on, with the addresses gathered so far. */
  ghost function GetAddrFrom(s: State, n: nat, limit: nat, now: int, draws: nat -> nat, found: seq<Address>): (State, seq<Address>)
    requires RandIndexed(s.mapInfo, s.vRandom) && n <= |s.vRandom|
    decreases |s.vRandom| - n
  {
    if n == |s.vRandom| || |found| >= limit then (s, found)
    else
      var r := draws(n) % (|s.vRandom| - n) + n;
      SwapEffect(s, n, r);
      var t := SwapRandom(s, n, r);
      var i := t.mapInfo[t.vRandom[n]];
      GetAddrFrom(t, n + 1, limit, now, draws, Gathered(i, now, found))
  }

  ghost function GetAddr(s: State, now: int, draws: nat -> nat): (State, seq<Address>)
    requires RandIndexed(s.mapInfo, s.vRandom)
  {
    GetAddrFrom(s, 0, GetAddrCount(|s.vRandom|), now, draws, [])
  }

  /** The addresses of the listed entries that are not terrible, in order. */
  ghost function Worthy(info: map<int, AddrInfo>, ids: seq<int>, now: int): seq<Address>
    requires forall i :: 0 <= i < |ids| ==> ids[i] in info
  {
    if ids == [] then []
    else
      var rest := Worthy(info, ids[..|ids| - 1], now);
      var i := info[ids[|ids| - 1]];
      if IsTerrible(i, now) then rest else rest + [ToAddress(i)]
  }

  /** `t` is `s` with `vRandom` permuted. */
  ghost predicate Reordered(s: State, t: State) {
    && t == s.(mapInfo := t.mapInfo, vRandom := t.vRandom)
    && SameFiling(s, t)
    && (forall id :: id in s.mapInfo ==> Facts(t.mapInfo[id]) == Facts(s.mapInfo[id]))
    && |t.vRandom| == |s.vRandom|
  }

  lemma SwapReorders(s: State, i: int, j: int)
    requires RandIndexed(s.mapInfo, s.vRandom) && 0 <= i <= j < |s.vRandom|
    ensures CanSwap(s, i, j) && Reordered(s, SwapRandom(s, i, j))
    ensures |SwapRandom(s, i, j).vRandom| == |s.vRandom| && SwapRandom(s, i, j).vRandom[..i] == s.vRandom[..i]
  {}

  lemma RandomIsLive(info: map<int, AddrInfo>, random: seq<int>)
    requires RandIndexed(info, random)
    ensures forall i :: 0 <= i < |random| ==> random[i] in info
  {}

  lemma FactsDecideWorth(i: AddrInfo, j: AddrInfo, now: int)
    requires Facts(i) == Facts(j)
    ensures IsTerrible(i, now) == IsTerrible(j, now) && ToAddress(i) == ToAddress(j)
  {
    assert Facts(i).service == i.service && Facts(i).nServices == i.nServices && Facts(i).nTime == i.nTime
        && Facts(i).nLastTry == i.nLastTry && Facts(i).nLastSuccess == i.nLastSuccess && Facts(i).nAttempts == i.nAttempts;
  }

  lemma WorthyFrame(s: State, t: State, ids: seq<int>, now: int)
    requires Reordered(s, t) && forall i :: 0 <= i < |ids| ==> ids[i] in s.mapInfo
    ensures forall i :: 0 <= i < |ids| ==> ids[i] in t.mapInfo
    ensures Worthy(t.mapInfo, ids, now) == Worthy(s.mapInfo, ids, now)
  {
    if ids != [] {
      WorthyFrame(s, t, ids[..|ids| - 1], now);
      var id := ids[|ids| - 1];
      FactsDecideWorth(t.mapInfo[id], s.mapInfo[id], now);
    }
  }

  /** What GetAddr_ hands out: the worthy entries of some stretch of the shuffled list, which ends
      when the limit is reached or the list is used up; nothing but the order of the list changes. */
  ghost predicate GetAddrResult(s: State, t: State, limit: nat, now: int, found: seq<Address>) {
    && Reordered(s, t) && RandIndexed(t.mapInfo, t.vRandom)
    && exists m :: 0 <= m <= |t.vRandom| && found == Worthy(t.mapInfo, t.vRandom[..m], now) && (m == |t.vRandom| || |found| >= limit)
  }

  function Gathered(i: AddrInfo, now: int, found: seq<Address>): seq<Address> {
    if IsTerrible(i, now) then found else found + [ToAddress(i)]
  }

  /** One round: position `n` of the list is settled and its entry judged. */
  lemma GetAddrRound(s: State, n: nat, r: nat, now: int, found: seq<Address>)
    requires RandIndexed(s.mapInfo, s.vRandom) && n <= r < |s.vRandom|
    requires forall i :: 0 <= i < |s.vRandom[..n]| ==> s.vRandom[..n][i] in s.mapInfo
    requires found == Worthy(s.mapInfo, s.vRandom[..n], now)
    ensures CanSwap(s, n, r)
    ensures var t := SwapRandom(s, n, r);
            && Reordered(s, t) && RandIndexed(t.mapInfo, t.vRandom)
            && Gathered(t.mapInfo[t.vRandom[n]], now, found) == Worthy(t.mapInfo, t.vRandom[..n + 1], now)
  {
    hide SwapRandom, CanSwap, Reordered, IsTerrible, RandIndexed;
    SwapEffect(s, n, r);
    SwapReorders(s, n, r);
    var t := SwapRandom(s, n, r);
    RandomIsLive(t.mapInfo, t.vRandom);
    WorthyFrame(s, t, s.vRandom[..n], now);
    assert t.vRandom[..n + 1][..n] == s.vRandom[..n];
  }

  lemma GetAddrFromKeeps(s: State, n: nat, limit: nat, now: int, draws: nat -> nat, found: seq<Address>)
    requires RandIndexed(s.mapInfo, s.vRandom) && n <= |s.vRandom|
    requires found == Worthy(s.mapInfo, s.vRandom[..n], now) && |found| <= limit
    ensures var (t, r) := GetAddrFrom(s, n, limit, now, draws, found);
            GetAddrResult(s, t, limit, now, r) && |r| <= limit
    decreases |s.vRandom| - n
  {
    hide SwapRandom, CanSwap, Reordered, IsTerrible, RandIndexed, Worthy, GetAddrResult, Gathered;
    RandomIsLive(s.mapInfo, s.vRandom);
    if n == |s.vRandom| || |found| >= limit {
      GetAddrDone(s, n, limit, now, found);
    } else {
      var r := draws(n) % (|s.vRandom| - n) + n;
      GetAddrRound(s, n, r, now, found);
      var t := SwapRandom(s, n, r);
      ReorderedLength(s, t);
      RandomIsLive(t.mapInfo, t.vRandom);
      var i := t.mapInfo[t.vRandom[n]];
      GatheredLength(i, now, found);
      GetAddrFromKeeps(t, n + 1, limit, now, draws, Gathered(i, now, found));
      var (u, f) := GetAddrFrom(t, n + 1, limit, now, draws, Gathered(i, now, found));
      GetAddrChain(s, t, u, limit, now, f);
    }
  }

  lemma GatheredLength(i: AddrInfo, now: int, found: seq<Address>)
    ensures |Gathered(i, now, found)| <= |found| + 1
  {}

  lemma GetAddrDone(s: State, n: nat, limit: nat, now: int, found: seq<Address>)
    requires RandIndexed(s.mapInfo, s.vRandom) && n <= |s.vRandom|
    requires found == Worthy(s.mapInfo, s.vRandom[..n], now) && (n == |s.vRandom| || |found| >= limit)
    ensures GetAddrResult(s, s, limit, now, found)
  {}

  lemma GetAddrChain(s: State, t: State, u: State, limit: nat, now: int, found: seq<Address>)
    requires Reordered(s, t) && GetAddrResult(t, u, limit, now, found)
    ensures GetAddrResult(s, u, limit, now, found)
  {
    ReorderedChain(s, t, u);
  }

  lemma ReorderedLength(s: State, t: State)
    requires Reordered(s, t)
    ensures |t.vRandom| == |s.vRandom|
  {}

  lemma ReorderedChain(s: State, t: State, u: State)
    requires Reordered(s, t) && Reordered(t, u)
    ensures Reordered(s, u)
  {}

  lemma GetAddrKeeps(env: Env, s: State, now: int, draws: nat -> nat)
    requires Consistent(env, s)
    ensures var (t, r) := GetAddr(s, now, draws);
            && Consistent(env, t) && |r| <= GetAddrCount(|s.vRandom|)
            && GetAddrResult(s, t, GetAddrCount(|s.vRandom|), now, r)
  {
    GetAddrFromKeeps(s, 0, GetAddrCount(|s.vRandom|), now, draws, []);
    var t := GetAddr(s, now, draws).0;
    AddrIndexedFrame(s, t);
    SlottedFrame(env, s, t);
    ReferencedFrame(env, s, t, {});
    IdsFrame(s, t);
  }

  lemma GetAddrUnrolled(s: State, n: nat, r: nat, limit: nat, now: int, draws: nat -> nat, found: seq<Address>)
    requires RandIndexed(s.mapInfo, s.vRandom) && n < |s.vRandom| && |found| < limit && r == draws(n) % (|s.vRandom| - n) + n
    ensures CanSwap(s, n, r)
    ensures var t := SwapRandom(s, n, r);
            && RandIndexed(t.mapInfo, t.vRandom) && |t.vRandom| == |s.vRandom| && t.vRandom[n] in t.mapInfo
            && GetAddrFrom(s, n, limit, now, draws, found) == GetAddrFrom(t, n + 1, limit, now, draws, Gathered(t.mapInfo[t.vRandom[n]], now, found))
  {
    hide SwapRandom, CanSwap, IsTerrible, RandIndexed, Gathered, Reordered, SameFiling;
    SwapEffect(s, n, r);
    SwapReorders(s, n, r);
    RandomIsLive(SwapRandom(s, n, r).mapInfo, SwapRandom(s, n, r).vRandom);
  }

  lemma NoMoreGiven(s: State, n: nat, limit: nat, now: int, draws: nat -> nat, found: seq<Address>)
    requires RandIndexed(s.mapInfo, s.vRandom) && n <= |s.vRandom| && (n == |s.vRandom| || |found| >= limit)
    ensures GetAddrFrom(s, n, limit, now, draws, found) == (s, found)
  {}

  lemma {:induction false} SameDraws(s: State, n: nat, limit: nat, now: int, d: nat -> nat, e: nat -> nat, found: seq<Address>)
    requires RandIndexed(s.mapInfo, s.vRandom) && n <= |s.vRandom| && forall k: nat :: k >= n ==> d(k) == e(k)
    ensures GetAddrFrom(s, n, limit, now, d, found) == GetAddrFrom(s, n, limit, now, e, found)
    decreases |s.vRandom| - n
  {
    hide SwapRandom, CanSwap, IsTerrible, RandIndexed, GetAddrFrom, Gathered;
    if n < |s.vRandom| && |found| < limit {
      var r := d(n) % (|s.vRandom| - n) + n;
      GetAddrUnrolled(s, n, r, limit, now, d, found);
      GetAddrUnrolled(s, n, r, limit, now, e, found);
      var t := SwapRandom(s, n, r);
      SameDraws(t, n + 1, limit, now, d, e, Gathered(t.mapInfo[t.vRandom[n]], now, found));
    } else {
      NoMoreGiven(s, n, limit, now, d, found);
      NoMoreGiven(s, n, limit, now, e, found);
    }
  }

  /** `w` lists all entries once, in some order. */
  ghost predicate OrderOf(s: State, w: seq<int>) {
    && |w| == |s.vRandom| && (forall i :: 0 <= i < |w| ==> w[i] in s.mapInfo)
    && forall i, j :: 0 <= i < j < |w| ==> w[i] != w[j]
  }

  lemma SwapBrings(s: State, n: nat, w: seq<int>)
    requires RandIndexed(s.mapInfo, s.vRandom) && OrderOf(s, w) && n < |w| && s.vRandom[..n] == w[..n]
    ensures var r := s.mapInfo[w[n]].nRandomPos;
            && n <= r < |s.vRandom| && CanSwap(s, n, r)
            && var t := SwapRandom(s, n, r);
               t.vRandom[..n + 1] == w[..n + 1] && OrderOf(t, w) && Reordered(s, t) && RandIndexed(t.mapInfo, t.vRandom)
  {
    assert w[n] in s.mapInfo;
    var r := s.mapInfo[w[n]].nRandomPos;
    assert 0 <= r < |s.vRandom| && s.vRandom[r] == w[n];
    forall i | 0 <= i < n ensures s.vRandom[i] == w[i] { assert s.vRandom[..n][i] == w[..n][i]; }
    SwapEffect(s, n, r);
    SwapReorders(s, n, r);
    var t := SwapRandom(s, n, r);
    assert t.vRandom[n] == w[n];
    assert t.vRandom[..n + 1] == t.vRandom[..n] + [w[n]] && w[..n + 1] == w[..n] + [w[n]];
  }

  /** From position `n` on, the draws hand out the worthy entries in the order `w`, up to its place `m`. */
  ghost predicate Given(s: State, n: nat, limit: nat, now: int, draws: nat -> nat, found: seq<Address>, w: seq<int>, m: nat)
    requires RandIndexed(s.mapInfo, s.vRandom) && OrderOf(s, w) && n <= |w|
  {
    n <= m <= |w| && var r := GetAddrFrom(s, n, limit, now, draws, found).1;
    r == Worthy(s.mapInfo, w[..m], now) && (m == |w| || |r| >= limit)
  }

  lemma {:induction false} OrderDrawn(s: State, n: nat, limit: nat, now: int, found: seq<Address>, w: seq<int>) returns (draws: nat -> nat, m: nat)
    requires RandIndexed(s.mapInfo, s.vRandom) && OrderOf(s, w) && n <= |w| && s.vRandom[..n] == w[..n]
    requires found == Worthy(s.mapInfo, w[..n], now)
    ensures Given(s, n, limit, now, draws, found, w, m)
    decreases |w| - n
  {
    hide SwapRandom, CanSwap, Reordered, IsTerrible, RandIndexed, Worthy, GetAddrFrom, Gathered, OrderOf, Given;
    OrderLength(s, w);
    if n == |w| || |found| >= limit {
      draws, m := _ => 0, n;
      AllGiven(s, n, limit, now, draws, found, w);
    } else {
      SwapBrings(s, n, w);
      var r := s.mapInfo[w[n]].nRandomPos;
      var t := SwapRandom(s, n, r);
      GetAddrRoundOf(s, t, w, n, now, found);
      var later: nat -> nat;
      later, m := OrderDrawn(t, n + 1, limit, now, Gathered(t.mapInfo[t.vRandom[n]], now, found), w);
      draws := (k: nat) => if k == n then r - n else later(k);
      GivenNext(s, n, r, limit, now, draws, later, found, w, m);
    }
  }

  lemma AllGiven(s: State, n: nat, limit: nat, now: int, draws: nat -> nat, found: seq<Address>, w: seq<int>)
    requires RandIndexed(s.mapInfo, s.vRandom) && OrderOf(s, w) && n <= |w| && (n == |w| || |found| >= limit)
    requires found == Worthy(s.mapInfo, w[..n], now)
    ensures Given(s, n, limit, now, draws, found, w, n)
  {
    hide RandIndexed;
    NoMoreGiven(s, n, limit, now, draws, found);
  }

  lemma GivenNext(s: State, n: nat, r: nat, limit: nat, now: int, draws: nat -> nat, later: nat -> nat, found: seq<Address>, w: seq<int>, m: nat)
    requires RandIndexed(s.mapInfo, s.vRandom) && OrderOf(s, w) && n <= r < |w| && CanSwap(s, n, r) && |found| < limit
    requires draws(n) == r - n && forall k: nat :: k > n ==> draws(k) == later(k)
    requires var t := SwapRandom(s, n, r);
             && RandIndexed(t.mapInfo, t.vRandom) && OrderOf(t, w) && Reordered(s, t) && |t.vRandom| == |w| && t.vRandom[n] in t.mapInfo
             && Given(t, n + 1, limit, now, later, Gathered(t.mapInfo[t.vRandom[n]], now, found), w, m)
    ensures Given(s, n, limit, now, draws, found, w, m)
  {
    hide SwapRandom, CanSwap, Reordered, RandIndexed, Worthy, GetAddrFrom, Gathered;
    var t := SwapRandom(s, n, r);
    DrawOf(r, n, |w|);
    GetAddrUnrolled(s, n, r, limit, now, draws, found);
    SameDraws(t, n + 1, limit, now, later, draws, Gathered(t.mapInfo[t.vRandom[n]], now, found));
    WorthyFrame(s, t, w[..m], now);
  }

  lemma DrawOf(r: nat, n: nat, size: nat)
    requires n <= r < size
    ensures (r - n) % (size - n) + n == r
  {}

  lemma GetAddrRoundOf(s: State, t: State, w: seq<int>, n: nat, now: int, found: seq<Address>)
    requires OrderOf(s, w) && OrderOf(t, w) && n < |w| && Reordered(s, t) && t.vRandom[..n + 1] == w[..n + 1]
    requires found == Worthy(s.mapInfo, w[..n], now)
    ensures |t.vRandom| == |w| && t.vRandom[n] in t.mapInfo
    ensures Gathered(t.mapInfo[t.vRandom[n]], now, found) == Worthy(t.mapInfo, w[..n + 1], now)
  {
    hide Reordered, IsTerrible;
    assert t.vRandom[..n + 1][n] == w[..n + 1][n];
    WorthyFrame(s, t, w[..n], now);
    assert w[..n + 1][..n] == w[..n];
  }

  /** The shuffle leaves nothing out: for every order of the entries there are draws with which GetAddr_ hands
      out the worthy ones in that order, up to the limit. */
  lemma AnyOrderGiven(env: Env, s: State, now: int, w: seq<int>)
    requires Consistent(env, s) && OrderOf(s, w)
    ensures exists draws: nat -> nat, m: nat :: m <= |w| &&
              var r := GetAddr(s, now, draws).1;
              r == Worthy(s.mapInfo, w[..m], now) && (m == |w| || |r| >= GetAddrCount(|s.vRandom|))
  {
    hide OrderOf, Consistent;
    assert RandIndexed(s.mapInfo, s.vRandom) by { RandomOf(env, s); }
    OrderLength(s, w);
    var draws, m := OrderDrawn(s, 0, GetAddrCount(|s.vRandom|), now, [], w);
    assert GetAddr(s, now, draws).1 == Worthy(s.mapInfo, w[..m], now);
  }

  lemma RandomOf(env: Env, s: State)
    requires Consistent(env, s)
    ensures RandIndexed(s.mapInfo, s.vRandom)
  {}

  lemma OrderLength(s: State, w: seq<int>)
    requires OrderOf(s, w)
    ensures |w| == |s.vRandom| && forall i :: 0 <= i < |w| ==> w[i] in s.mapInfo
  {}

  // ---------------------------------------------------------------- runs

  /** No negative times, and every entry of the tried table has succeeded once. */
  ghost predicate Timed(s: State) {
    forall id :: id in s.mapInfo ==>
      s.mapInfo[id].nLastTry >= 0 && s.mapInfo[id].nLastSuccess >= 0 && (s.mapInfo[id].fInTried ==> s.mapInfo[id].nLastSuccess != 0)
  }

  datatype Op =
    | DoAdd(addr: Address, source: NetAddr, penalty: int, now: int, draw: nat)
    | DoGood(service: Service, nTime: int)
    | DoAttempt(service: Service, nTime: int)
    | DoConnected(service: Service, nTime: int)
    | DoGetAddr(now: int, draws: nat -> nat)

  /** The times the callers pass are those of a clock that has started. */
  predicate Clocked(op: Op) {
    (op.DoGood? || op.DoAttempt? || op.DoConnected?) ==> op.nTime > 0
  }

  ghost function Step(env: Env, s: State, op: Op): State
    requires Consistent(env, s)
  {
    match op
    case DoAdd(addr, source, penalty, now, draw) => Add(env, s, addr, source, penalty, now, draw).0
    case DoGood(service, nTime) => Good(env, s, service, nTime)
    case DoAttempt(service, nTime) => Attempt(s, service, nTime)
    case DoConnected(service, nTime) => Connected(s, service, nTime)
    case DoGetAddr(now, draws) => GetAddr(s, now, draws).0
  }

  function Empty(key: nat): State {
    State(key, 0, map[], map[], [], 0, seq(TRIED_BUCKET_COUNT, _ => seq(BUCKET_SIZE, _ => -1)),
          0, seq(NEW_BUCKET_COUNT, _ => seq(BUCKET_SIZE, _ => -1)))
  }

  /** Clear, with a new random key: the entries and the index of their addresses stay. */
  function Cleared(s: State, key: nat): State { Empty(key).(mapInfo := s.mapInfo, mapAddr := s.mapAddr) }

  /** So Clear leaves a consistent manager, and then an empty one, if and only if it had no entries. */
  lemma ClearedIff(env: Env, s: State, key: nat)
    requires Consistent(env, s)
    ensures Consistent(env, Cleared(s, key)) <==> s.mapInfo == map[]
    ensures Cleared(s, key) == Empty(key) <==> s.mapInfo == map[]
  {
    EmptyConsistent(env, key);
    if s.mapInfo == map[] {
      assert forall a :: a !in s.mapAddr;
      assert s.mapAddr == map[];
    } else {
      NonEmpty(s.mapInfo.Keys);
      assert s.mapInfo.Keys != {};
      var id :| id in s.mapInfo.Keys;
      assert id in Cleared(s, key).mapInfo && Cleared(s, key).vRandom == [];
    }
  }

  lemma EmptyConsistent(env: Env, key: nat)
    ensures Consistent(env, Empty(key)) && Timed(Empty(key))
  {
    var s := Empty(key);
    assert TriedIds(s) == {} && NewIds(s) - {} == {};
  }

  lemma AttemptKeeps(env: Env, s: State, addr: Service, nTime: int)
    requires Consistent(env, s)
    ensures Consistent(env, Attempt(s, addr, nTime))
    ensures Timed(s) && nTime >= 0 ==> Timed(Attempt(s, addr, nTime))
    ensures var t := Attempt(s, addr, nTime);
            t.mapInfo.Keys == s.mapInfo.Keys && forall x :: x in s.mapInfo ==>
              var i := s.mapInfo[x];
              t.mapInfo[x] == if i.service == addr then i.(nLastTry := nTime, nAttempts := i.nAttempts + 1) else i
  {
    hide Inv;
    forall x ensures FindExact(s, addr) == Some(x) <==> x in s.mapInfo && s.mapInfo[x].service == addr { FindExactIff(env, s, addr, x); }
    match FindExact(s, addr)
    case None =>
    case Some(id) =>
      UpdateKeeps(env, s, id, s.mapInfo[id].(nLastTry := nTime, nAttempts := s.mapInfo[id].nAttempts + 1), {}, 0);
  }

  lemma ConnectedKeeps(env: Env, s: State, addr: Service, nTime: int)
    requires Consistent(env, s)
    ensures Consistent(env, Connected(s, addr, nTime))
    ensures Timed(s) ==> Timed(Connected(s, addr, nTime))
    ensures var t := Connected(s, addr, nTime);
            t.mapInfo.Keys == s.mapInfo.Keys && forall x :: x in s.mapInfo ==>
              var i := s.mapInfo[x];
              t.mapInfo[x] == if i.service == addr && nTime - i.nTime > 20 * 60 then i.(nTime := nTime) else i
  {
    hide Inv;
    forall x ensures FindExact(s, addr) == Some(x) <==> x in s.mapInfo && s.mapInfo[x].service == addr { FindExactIff(env, s, addr, x); }
    match FindExact(s, addr)
    case None =>
    case Some(id) => UpdateKeeps(env, s, id, s.mapInfo[id].(nTime := nTime), {}, 0);
  }

  /** An entry is in the tried table of a consistent state exactly when its own slot lists it. */
  lemma TriedBySlot(env: Env, s: State, id: int)
    requires Consistent(env, s) && id in s.mapInfo
    ensures Shaped(s.vvTried, TRIED_BUCKET_COUNT)
    ensures var slot := TriedSlot(env, s.nKey, s.mapInfo[id].service);
            s.mapInfo[id].fInTried <==> s.vvTried[slot.0][slot.1] == id
  {}

  lemma AddTimed(env: Env, s: State, t: State, added: bool, addr: Address, source: NetAddr, penalty: int)
    requires Consistent(env, s) && AddEffect(env, s, t, added, addr, source, penalty) && Timed(s)
    ensures Timed(t)
  {
    hide Inv, LosesAtMostOneNew;
    forall id | id in t.mapInfo
      ensures t.mapInfo[id].nLastTry >= 0 && t.mapInfo[id].nLastSuccess >= 0 && (t.mapInfo[id].fInTried ==> t.mapInfo[id].nLastSuccess != 0)
    {
      TriedBySlot(env, t, id);
      if id in s.mapInfo {
        TriedBySlot(env, s, id);
        var i, j := t.mapInfo[id], s.mapInfo[id];
        FactsFields(i, j);
      } else {
        NotListed(env, s);
      }
    }
  }

  lemma FactsFields(i: AddrInfo, j: AddrInfo)
    requires Facts(i).(nTime := 0, nServices := {}) == Facts(j).(nTime := 0, nServices := {})
    ensures i.service == j.service && i.nLastTry == j.nLastTry && i.nLastSuccess == j.nLastSuccess
  {
    var a, b := Facts(i).(nTime := 0, nServices := {}), Facts(j).(nTime := 0, nServices := {});
    assert a.service == i.service && a.nLastTry == i.nLastTry && a.nLastSuccess == i.nLastSuccess;
    assert b.service == j.service && b.nLastTry == j.nLastTry && b.nLastSuccess == j.nLastSuccess;
  }

  lemma NotListed(env: Env, s: State)
    requires Consistent(env, s)
    ensures Shaped(s.vvTried, TRIED_BUCKET_COUNT)
    ensures forall b, p :: 0 <= b < TRIED_BUCKET_COUNT && 0 <= p < BUCKET_SIZE ==> s.vvTried[b][p] != s.nIdCount
  {}

  lemma MakeTriedTimed(env: Env, s: State, id: int)
    requires Consistent(env, s) && id in s.mapInfo && !s.mapInfo[id].fInTried
    requires Timed(s) && s.mapInfo[id].nLastSuccess != 0
    ensures Timed(MakeTried(env, s, id))
  {
    hide Inv, MakeTried, LosesAtMostOneNew, TriedSlot, Preserves;
    MakeTriedKeeps(env, s, id);
    var t := MakeTried(env, s, id);
    forall x | x in t.mapInfo
      ensures t.mapInfo[x].nLastTry >= 0 && t.mapInfo[x].nLastSuccess >= 0 && (t.mapInfo[x].fInTried ==> t.mapInfo[x].nLastSuccess != 0)
    {
      PreservesFacts(s, t, x);
      var i, j := t.mapInfo[x], s.mapInfo[x];
      FactsFields(i, j) by { assert Facts(i).(nTime := 0, nServices := {}) == Facts(j).(nTime := 0, nServices := {}); }
      if i.fInTried && x != id {
        StillTried(env, s, t, id, x);
      }
    }
  }

  /** Only `id` joins the tried table. */
  lemma StillTried(env: Env, s: State, t: State, id: int, x: int)
    requires Consistent(env, s) && Consistent(env, t) && Preserves(s, t) && id in s.mapInfo && x in t.mapInfo && x != id
    requires var slot := TriedSlot(env, s.nKey, s.mapInfo[id].service);
             Shaped(s.vvTried, TRIED_BUCKET_COUNT) && t.vvTried == Put(s.vvTried, slot.0, slot.1, id)
    requires t.mapInfo[x].fInTried
    ensures s.mapInfo[x].fInTried
  {
    hide Inv;
    PreservesFacts(s, t, x);
    TriedBySlot(env, s, x);
    TriedBySlot(env, t, x);
  }

  lemma GoodTimed(env: Env, s: State, addr: Service, nTime: int)
    requires Consistent(env, s) && Timed(s) && nTime > 0
    ensures Timed(Good(env, s, addr, nTime))
  {
    hide Inv, MakeTried;
    match FindExact(s, addr)
    case None =>
    case Some(id) =>
      var i := Praised(s.mapInfo[id], nTime);
      UpdateKeeps(env, s, id, i, {}, 0);
      var t := Update(s, id, i);
      if !t.mapInfo[id].fInTried {
        NewEntryHasBucket(env, t, id);
        MakeTriedTimed(env, t, id);
      }
  }

  lemma ReorderedTimed(s: State, t: State)
    requires Reordered(s, t) && Timed(s)
    ensures Timed(t)
  {
    forall id | id in t.mapInfo
      ensures t.mapInfo[id].nLastTry >= 0 && t.mapInfo[id].nLastSuccess >= 0 && (t.mapInfo[id].fInTried ==> t.mapInfo[id].nLastSuccess != 0)
    {
      FactsFields(t.mapInfo[id], s.mapInfo[id]) by {
        assert Facts(t.mapInfo[id]).(nTime := 0, nServices := {}) == Facts(s.mapInfo[id]).(nTime := 0, nServices := {});
      }
    }
  }

  /** Every operation keeps the manager consistent, and with a running clock also its times. */
  lemma StepKeeps(env: Env, s: State, op: Op)
    requires Consistent(env, s)
    ensures Consistent(env, Step(env, s, op))
    ensures Timed(s) && Clocked(op) ==> Timed(Step(env, s, op))
  {
    hide Inv, Add, Good, Attempt, Connected, GetAddr, AddEffect, Timed, Reordered, LosesAtMostOneNew, RandIndexed;
    match op
    case DoAdd(addr, source, penalty, now, draw) =>
      AddKeeps(env, s, addr, source, penalty, now, draw);
      var (t, added) := Add(env, s, addr, source, penalty, now, draw);
      AddConsistent(env, s, t, added, addr, source, penalty);
      if Timed(s) { AddTimed(env, s, t, added, addr, source, penalty); }
    case DoGood(service, nTime) =>
      GoodKeeps(env, s, service, nTime);
      if Timed(s) && nTime > 0 { GoodTimed(env, s, service, nTime); }
    case DoAttempt(service, nTime) => AttemptKeeps(env, s, service, nTime);
    case DoConnected(service, nTime) => ConnectedKeeps(env, s, service, nTime);
    case DoGetAddr(now, draws) =>
      GetAddrKeeps(env, s, now, draws);
      if Timed(s) { ReorderedTimed(s, Step(env, s, op)) by { GetAddrReorders(env, s, now, draws); } }
  }

  lemma GetAddrReorders(env: Env, s: State, now: int, draws: nat -> nat)
    requires Consistent(env, s)
    ensures Reordered(s, Step(env, s, DoGetAddr(now, draws)))
  {
    hide Inv, Reordered, GetAddr;
    GetAddrKeeps(env, s, now, draws);
  }

  lemma AddConsistent(env: Env, s: State, t: State, added: bool, addr: Address, source: NetAddr, penalty: int)
    requires AddEffect(env, s, t, added, addr, source, penalty)
    ensures Consistent(env, t)
  {}

  ghost function Run(env: Env, s: State, ops: seq<Op>): (t: State)
    requires Consistent(env, s)
    ensures Consistent(env, t)
    decreases |ops|
  {
    if ops == [] then s
    else
      StepKeeps(env, Run(env, s, ops[..|ops| - 1]), ops[|ops| - 1]);
      Step(env, Run(env, s, ops[..|ops| - 1]), ops[|ops| - 1])
  }

  /** The main result: a manager that starts empty is consistent after any operations at all, and its
      times are right as long as the clock runs. */
  lemma {:induction false} RunKeeps(env: Env, key: nat, ops: seq<Op>)
    ensures Consistent(env, Empty(key))
    ensures Consistent(env, Run(env, Empty(key), ops))
    ensures (forall i :: 0 <= i < |ops| ==> Clocked(ops[i])) ==> Timed(Run(env, Empty(key), ops))
    ensures Run(env, Empty(key), ops).nKey == key
  {
    hide Inv, Step, Timed;
    EmptyConsistent(env, key);
    if ops != [] {
      RunKeeps(env, key, ops[..|ops| - 1]);
      StepKeeps(env, Run(env, Empty(key), ops[..|ops| - 1]), ops[|ops| - 1]);
      StepKeepsKey(env, Run(env, Empty(key), ops[..|ops| - 1]), ops[|ops| - 1]);
    }
  }

  lemma StepKeepsKey(env: Env, s: State, op: Op)
    requires Consistent(env, s)
    ensures Step(env, s, op).nKey == s.nKey
  {
    hide Inv, Add, GetAddr, MakeTried;
    match op
    case DoAdd(addr, source, penalty, now, draw) => AddKeeps(env, s, addr, source, penalty, now, draw);
    case DoGood(service, nTime) =>
      match FindExact(s, service) {
        case None =>
        case Some(id) =>
          var i := Praised(s.mapInfo[id], nTime);
          UpdateKeeps(env, s, id, i, {}, 0);
          if !i.fInTried { NewEntryHasBucket(env, Update(s, id, i), id); MakeTriedKeeps(env, Update(s, id, i), id); }
      }
    case DoAttempt(_, _) =>
    case DoConnected(_, _) =>
    case DoGetAddr(now, draws) => GetAddrKeeps(env, s, now, draws);
  }

  // ---------------------------------------------------------------- the check

  /** What Check_ tests, in its own terms. An address missing from `mapAddr` is looked up with
      operator[], which yields 0. */
  ghost predicate Passes(env: Env, s: State) {
    && |s.vRandom| == s.nTried + s.nNew
    && (forall id :: id in s.mapInfo ==>
          var i := s.mapInfo[id];
          && (if i.fInTried then i.nLastSuccess != 0 && i.nRefCount == 0 else 1 <= i.nRefCount <= NEW_BUCKETS_PER_ADDRESS)
          && (if i.service.net in s.mapAddr then s.mapAddr[i.service.net] == id else id == 0)
          && 0 <= i.nRandomPos < |s.vRandom| && s.vRandom[i.nRandomPos] == id
          && i.nLastTry >= 0 && i.nLastSuccess >= 0)
    && |TriedIds(s)| == s.nTried
    && |NewIds(s)| == s.nNew
    && Slotted(env, s)
    && TriedsListed(env, s)
    && (forall id :: id in s.mapInfo && !s.mapInfo[id].fInTried ==>
          id != -1 && |Buckets(env, s, id)| == s.mapInfo[id].nRefCount)
    && s.nKey != 0
  }

  /** setTried is empty at the end. */
  ghost predicate TriedsListed(env: Env, s: State)
    requires Shaped(s.vvTried, TRIED_BUCKET_COUNT)
  {
    forall id :: id in s.mapInfo && s.mapInfo[id].fInTried ==>
      id != -1 && exists b, p :: 0 <= b < TRIED_BUCKET_COUNT && 0 <= p < BUCKET_SIZE && s.vvTried[b][p] == id
  }

  /** What Check_ does not test: that `mapAddr` lists every address, and no dead entry, and that the
      next id is unused. */
  ghost predicate Unchecked(s: State) {
    AddrIndexed(s.mapInfo, s.mapAddr, s.nIdCount)
  }

  ghost function Elements(v: seq<int>): set<int> { set x | x in v }

  lemma DistinctSize(v: seq<int>)
    ensures |Elements(v)| <= |v|
    ensures (forall i, j :: 0 <= i < j < |v| ==> v[i] != v[j]) <==> |Elements(v)| == |v|
  {
    if v != [] {
      var w, x := v[..|v| - 1], v[|v| - 1];
      DistinctSize(w);
      assert Elements(v) == Elements(w) + {x};
      assert v == w + [x];
      if |Elements(v)| == |v| {
        assert x !in Elements(w);
        forall i, j | 0 <= i < j < |v| ensures v[i] != v[j] { assert v[i] in w; }
      }
      if forall i, j :: 0 <= i < j < |v| ==> v[i] != v[j] {
        forall i, j | 0 <= i < j < |w| ensures w[i] != w[j] { assert v[i] != v[j]; }
        assert x !in w;
      }
    }
  }

  lemma IdsAddUp(s: State)
    ensures |s.mapInfo| == |TriedIds(s)| + |NewIds(s)|
  {
    assert s.mapInfo.Keys == TriedIds(s) + NewIds(s);
    assert |s.mapInfo| == |s.mapInfo.Keys|;
  }

  /** A list as long as the table, with every entry where it says it is, is a permutation of the ids. */
  lemma RandomIsPermutation(info: map<int, AddrInfo>, random: seq<int>)
    requires forall id :: id in info ==> 0 <= info[id].nRandomPos < |random| && random[info[id].nRandomPos] == id
    ensures RandIndexed(info, random) <==> |random| == |info|
  {
    DistinctSize(random);
    assert |info| == |info.Keys|;
    forall id | id in info ensures id in Elements(random) { assert random[info[id].nRandomPos] in random; }
    if RandIndexed(info, random) {
      assert Elements(random) == info.Keys;
      forall i, j | 0 <= i < j < |random| ensures random[i] != random[j] {}
    }
    if |random| == |info| {
      SubsetSize(info.Keys, Elements(random));
      forall i | 0 <= i < |random| ensures random[i] in info && info[random[i]].nRandomPos == i {
        assert random[i] in Elements(random);
      }
    }
  }

  lemma SubsetSize(a: set<int>, b: set<int>)
    requires a <= b && |b| <= |a|
    ensures a == b
  {
    assert b == a + (b - a);
    assert b - a == {};
  }

  lemma ListedInOwnSlot(env: Env, s: State)
    requires Slotted(env, s) && -1 !in s.mapInfo
    ensures TriedsListed(env, s) <==>
            forall id :: id in s.mapInfo && s.mapInfo[id].fInTried ==>
              var slot := TriedSlot(env, s.nKey, s.mapInfo[id].service); s.vvTried[slot.0][slot.1] == id
  {
    forall id | id in s.mapInfo && s.mapInfo[id].fInTried
      ensures var slot := TriedSlot(env, s.nKey, s.mapInfo[id].service);
              (exists b, p :: 0 <= b < TRIED_BUCKET_COUNT && 0 <= p < BUCKET_SIZE && s.vvTried[b][p] == id)
              <==> s.vvTried[slot.0][slot.1] == id
    {}
  }

  lemma ConsistentPasses(env: Env, s: State)
    requires Consistent(env, s) && Timed(s) && s.nKey != 0
    ensures Passes(env, s) && Unchecked(s)
  {
    IdsAddUp(s);
    assert NewIds(s) - {} == NewIds(s);
    RandomIsPermutation(s.mapInfo, s.vRandom);
    ListedInOwnSlot(env, s);
  }

  lemma PassesConsistent(env: Env, s: State)
    requires Passes(env, s) && Unchecked(s)
    ensures Consistent(env, s) && Timed(s) && s.nKey != 0
  {
    IdsAddUp(s);
    assert NewIds(s) - {} == NewIds(s);
    RandomIsPermutation(s.mapInfo, s.vRandom);
    ListedInOwnSlot(env, s);
    assert TriedsFiled(env, s);
  }

  /** The state is consistent, timed and keyed exactly when it passes the check and is also right in
      the points that the check leaves out. */
  lemma ConsistentMeansPasses(env: Env, s: State)
    ensures Consistent(env, s) && Timed(s) && s.nKey != 0 <==> Passes(env, s) && Unchecked(s)
  {
    hide Consistent, Timed, Passes, Unchecked;
    if Consistent(env, s) && Timed(s) && s.nKey != 0 { ConsistentPasses(env, s); }
    if Passes(env, s) && Unchecked(s) { PassesConsistent(env, s); }
  }
}
