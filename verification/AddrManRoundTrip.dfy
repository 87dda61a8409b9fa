/** Saving the address manager and loading it again gives the same manager, with other ids. */
module AddrManRoundTrip {
  import opened Basics
  import opened AddrMan
  import opened AddrManOps
  import opened AddrManRuns
  import opened AddrManStore
  import opened Options

  // ---------------------------------------------------------------- saving

  /** The tests of the two loops of Serialize. */
  predicate Selected(i: AddrInfo, tried: bool) { if tried then i.fInTried else i.nRefCount != 0 }

  /** The selected ids below `k`, ascending as the map is. */
  function Ids(m: map<int, AddrInfo>, k: nat, tried: bool): seq<int> {
    if k == 0 then [] else Ids(m, k - 1, tried) + if k - 1 in m && Selected(m[k - 1], tried) then [k - 1] else []
  }

  /** The index that an id gets in the stream. */
  function Rank(m: map<int, AddrInfo>, id: int, tried: bool): nat { |Ids(m, if id < 0 then 0 else id, tried)| }

  function StoredOf(m: map<int, AddrInfo>, ids: seq<int>): seq<Stored>
    requires forall i :: 0 <= i < |ids| ==> ids[i] in m
  {
    seq(|ids|, i requires 0 <= i < |ids| => ToStored(m[ids[i]]))
  }

  lemma {:induction false} IdsIn(m: map<int, AddrInfo>, k: nat, tried: bool, i: nat)
    requires i < |Ids(m, k, tried)|
    ensures var id := Ids(m, k, tried)[i]; 0 <= id < k && id in m && Selected(m[id], tried) && Rank(m, id, tried) == i
    decreases k
  {
    if i < |Ids(m, k - 1, tried)| { IdsIn(m, k - 1, tried, i); }
  }

  lemma {:induction false} IdsAll(m: map<int, AddrInfo>, k: nat, tried: bool, id: int)
    requires 0 <= id < k && id in m && Selected(m[id], tried)
    ensures Rank(m, id, tried) < |Ids(m, k, tried)| && Ids(m, k, tried)[Rank(m, id, tried)] == id
    decreases k
  {
    if id < k - 1 { IdsAll(m, k - 1, tried, id); }
  }

  lemma IdsListed(m: map<int, AddrInfo>, k: nat, tried: bool)
    ensures forall i :: 0 <= i < |Ids(m, k, tried)| ==> Ids(m, k, tried)[i] in m
  {
    forall i | 0 <= i < |Ids(m, k, tried)| ensures Ids(m, k, tried)[i] in m { IdsIn(m, k, tried, i); }
  }

  /** The index of each occupied slot of a bucket, below `n`. */
  function Row(s: State, b: int, n: nat): seq<int>
    requires Shaped(s.vvNew, NEW_BUCKET_COUNT) && 0 <= b < NEW_BUCKET_COUNT && n <= BUCKET_SIZE
  {
    if n == 0 then []
    else Row(s, b, n - 1) + if s.vvNew[b][n - 1] != -1 then [Rank(s.mapInfo, s.vvNew[b][n - 1], false)] else []
  }

  function Count(s: State): nat { if s.nIdCount < 0 then 0 else s.nIdCount }

  function News(s: State): seq<Stored> {
    IdsListed(s.mapInfo, Count(s), false);
    StoredOf(s.mapInfo, Ids(s.mapInfo, Count(s), false))
  }

  function Trieds(s: State): seq<Stored> {
    IdsListed(s.mapInfo, Count(s), true);
    StoredOf(s.mapInfo, Ids(s.mapInfo, Count(s), true))
  }

  /** Serialize */
  function Saved(s: State): Stream
    requires Shaped(s.vvNew, NEW_BUCKET_COUNT)
  {
    Stream(1, 32, s.nKey, NEW_BUCKET_COUNT, News(s), Trieds(s),
           seq(NEW_BUCKET_COUNT, b requires 0 <= b < NEW_BUCKET_COUNT => Row(s, b, BUCKET_SIZE)))
  }

  /** In a consistent manager the entries with references are the ones not tried. */
  lemma SelectedMeans(env: Env, s: State, id: int)
    requires Consistent(env, s) && id in s.mapInfo
    ensures Selected(s.mapInfo[id], true) == s.mapInfo[id].fInTried
    ensures Selected(s.mapInfo[id], false) == !s.mapInfo[id].fInTried
    ensures 0 <= id < s.nIdCount && Count(s) == s.nIdCount
  {}

  ghost function IdsBelow(s: State, k: nat, tried: bool): set<int> { set id | id in s.mapInfo && s.mapInfo[id].fInTried == tried && id < k }

  lemma {:induction false} IdsCount(env: Env, s: State, k: nat, tried: bool)
    requires Consistent(env, s)
    ensures |Ids(s.mapInfo, k, tried)| == |IdsBelow(s, k, tried)|
  {
    hide Inv;
    if k == 0 {
      forall id ensures id !in IdsBelow(s, 0, tried) { if id in s.mapInfo { SelectedMeans(env, s, id); } }
      NothingIn(IdsBelow(s, 0, tried));
    } else {
      IdsCount(env, s, k - 1, tried);
      if k - 1 in s.mapInfo { SelectedMeans(env, s, k - 1); }
      IdsBelowNext(s, k - 1, tried);
      hide IdsBelow;
    }
  }

  lemma IdsBelowNext(s: State, k: nat, tried: bool)
    ensures |IdsBelow(s, k + 1, tried)| == |IdsBelow(s, k, tried)| + if k in s.mapInfo && s.mapInfo[k].fInTried == tried then 1 else 0
  {
    var a, b := IdsBelow(s, k, tried), IdsBelow(s, k + 1, tried);
    var there := k in s.mapInfo && s.mapInfo[k].fInTried == tried;
    forall id ensures id in b <==> id in a || (there && id == k) {}
    assert k !in a;
    hide IdsBelow;
    OneMore(a, b, k, there);
  }

  lemma OneMore(a: set<int>, b: set<int>, k: int, there: bool)
    requires k !in a && forall id :: id in b <==> id in a || (there && id == k)
    ensures |b| == |a| + if there then 1 else 0
  {
    if there {
      forall id ensures id in b <==> id in a + {k} {}
      assert b == a + {k};
    } else {
      forall id ensures id in b <==> id in a {}
      assert b == a;
    }
  }

  /** The asserts on the counters hold: there are exactly nNew new and nTried tried entries. */
  lemma SavedCounts(env: Env, s: State)
    requires Consistent(env, s)
    ensures |News(s)| == s.nNew && |Trieds(s)| == s.nTried
  {
    IdsCount(env, s, Count(s), false);
    IdsCount(env, s, Count(s), true);
    forall id ensures id in IdsBelow(s, Count(s), false) <==> id in NewIds(s) - {} { if id in s.mapInfo { SelectedMeans(env, s, id); } }
    forall id ensures id in IdsBelow(s, Count(s), true) <==> id in TriedIds(s) { if id in s.mapInfo { SelectedMeans(env, s, id); } }
    assert IdsBelow(s, Count(s), false) == NewIds(s) - {};
    assert IdsBelow(s, Count(s), true) == TriedIds(s);
  }

  lemma NetsDiffer(env: Env, s: State, i: int, j: int)
    requires Consistent(env, s) && i in s.mapInfo && j in s.mapInfo && i != j
    ensures s.mapInfo[i].service.net != s.mapInfo[j].service.net
  {}

  /** No address is saved twice. */
  lemma SavedDistinct(env: Env, s: State)
    requires Consistent(env, s)
    ensures Distinct(News(s) + Trieds(s))
  {
    hide Inv, Ids;
    var a, b := Ids(s.mapInfo, Count(s), false), Ids(s.mapInfo, Count(s), true);
    var zs := News(s) + Trieds(s);
    forall i, j | 0 <= i < j < |zs| ensures zs[i].service.net != zs[j].service.net {
      var x, y := if i < |a| then a[i] else b[i - |a|], if j < |a| then a[j] else b[j - |a|];
      if i < |a| { IdsIn(s.mapInfo, Count(s), false, i); } else { IdsIn(s.mapInfo, Count(s), true, i - |a|); }
      if j < |a| { IdsIn(s.mapInfo, Count(s), false, j); } else { IdsIn(s.mapInfo, Count(s), true, j - |a|); }
      SelectedMeans(env, s, x);
      SelectedMeans(env, s, y);
      NetsDiffer(env, s, x, y);
    }
  }

  // ---------------------------------------------------------------- loading what was saved

  /** The id that an entry has after loading. */
  function Renamed(s: State, id: int): int {
    if id in s.mapInfo && s.mapInfo[id].fInTried then |News(s)| + Rank(s.mapInfo, id, true) else Rank(s.mapInfo, id, false)
  }

  /** A slot of a table after loading. */
  function RenamedSlot(s: State, v: int): int { if v == -1 then -1 else Renamed(s, v) }

  /** Entry `k` of `t` is what was stored as `x`. */
  ghost predicate EntryIs(t: State, k: int, x: Stored, tried: bool) {
    k in t.mapInfo && ToStored(t.mapInfo[k]) == x && t.mapInfo[k].fInTried == tried && t.mapInfo[k].nLastTry == 0
  }

  /** The new entries are there in order, and nothing else has changed. */
  ghost predicate NewsAre(s: State, t: State, xs: seq<Stored>) {
    && t.vvNew == s.vvNew && t.vvTried == s.vvTried && t.nIdCount == s.nIdCount + |xs|
    && (forall id :: id in s.mapInfo ==> id in t.mapInfo && t.mapInfo[id] == s.mapInfo[id])
    && forall i :: 0 <= i < |xs| ==> EntryIs(t, s.nIdCount + i, xs[i], false)
  }

  lemma NewsAreNext(env: Env, s: State, u: State, xs: seq<Stored>)
    requires xs != [] && NewsAre(s, u, xs[..|xs| - 1]) && u.nIdCount !in u.mapInfo
    ensures NewsAre(s, Enter(u, xs[|xs| - 1]), xs)
  {
    var n := |xs| - 1;
    EnterEffect(u, xs[n]);
    hide Enter;
    var t := Enter(u, xs[n]);
    forall i | 0 <= i < |xs| ensures EntryIs(t, s.nIdCount + i, xs[i], false) {
      if i < n { assert EntryIs(u, s.nIdCount + i, xs[..n][i], false); }
    }
  }

  lemma {:induction false} NewsExact(env: Env, s: State, xs: seq<Stored>)
    requires Loading(env, s)
    ensures NewsAre(s, LoadNews(env, s, xs, false), xs)
  {
    hide Loading, Inv, Limbo, NewIds, Enter, NewsAre, NewsLoaded;
    if xs == [] {
      NewsAreNone(s);
    } else {
      var n := |xs| - 1;
      NewsExact(env, s, xs[..n]);
      var u := LoadNews(env, s, xs[..n], false);
      NewsLoadedNext(env, s, u, xs, false);
      EnterKeeps(env, u, xs[n]);
      NewsAreNext(env, s, u, xs);
    }
  }

  lemma NewsAreNone(s: State)
    ensures NewsAre(s, s, [])
  {}

  /** The tried entries are there behind `n` new ones, each in the slot that it had in `s`; the slots of later
      ones are free. */
  ghost predicate TriedsAre(s: State, s1: State, t: State, ys: seq<Stored>)
    requires Shaped(s.vvTried, TRIED_BUCKET_COUNT) && Shaped(t.vvTried, TRIED_BUCKET_COUNT)
  {
    && t.vvNew == s1.vvNew && t.nKey == s.nKey && t.nIdCount == s1.nIdCount + |ys| && t.nTried == s1.nTried + |ys|
    && (forall id :: id in s1.mapInfo ==> id in t.mapInfo && t.mapInfo[id] == s1.mapInfo[id])
    && (forall i :: 0 <= i < |ys| ==> EntryIs(t, s1.nIdCount + i, ys[i], true))
    && TriedTable(s, s1.nIdCount, |ys|, t.vvTried)
  }

  function TriedSoFar(s: State, n: int, m: nat, v: int): int {
    if v != -1 && Rank(s.mapInfo, v, true) < m then n + Rank(s.mapInfo, v, true) else -1
  }

  /** The slot of the m-th tried entry is the only one with its rank. */
  lemma TriedAt(env: Env, s: State, m: nat)
    requires Consistent(env, s) && m < |Ids(s.mapInfo, Count(s), true)|
    ensures var id := Ids(s.mapInfo, Count(s), true)[m];
            && id in s.mapInfo && s.mapInfo[id].fInTried
            && var slot := TriedSlot(env, s.nKey, s.mapInfo[id].service);
               && Shaped(s.vvTried, TRIED_BUCKET_COUNT) && s.vvTried[slot.0][slot.1] == id && Rank(s.mapInfo, id, true) == m
               && forall b, p :: 0 <= b < TRIED_BUCKET_COUNT && 0 <= p < BUCKET_SIZE && s.vvTried[b][p] != -1 && Rank(s.mapInfo, s.vvTried[b][p], true) == m ==>
                    (b, p) == slot
  {
    hide Ids, Rank, TriedBucket, BucketPosition;
    IdsIn(s.mapInfo, Count(s), true, m);
    var id := Ids(s.mapInfo, Count(s), true)[m];
    SelectedMeans(env, s, id);
    forall b, p | 0 <= b < TRIED_BUCKET_COUNT && 0 <= p < BUCKET_SIZE && s.vvTried[b][p] != -1 && Rank(s.mapInfo, s.vvTried[b][p], true) == m
      ensures (b, p) == TriedSlot(env, s.nKey, s.mapInfo[id].service)
    {
      var v := s.vvTried[b][p];
      SelectedMeans(env, s, v);
      IdsAll(s.mapInfo, Count(s), true, v);
    }
  }

  lemma ShapedTables(env: Env, s: State)
    requires Consistent(env, s)
    ensures Shaped(s.vvTried, TRIED_BUCKET_COUNT) && Shaped(s.vvNew, NEW_BUCKET_COUNT)
  {}

  lemma TriedsNone(env: Env, s: State, s1: State)
    requires Shaped(s.vvTried, TRIED_BUCKET_COUNT) && Shaped(s1.vvTried, TRIED_BUCKET_COUNT) && s1.nKey == s.nKey
    requires forall b, p :: 0 <= b < TRIED_BUCKET_COUNT && 0 <= p < BUCKET_SIZE ==> s1.vvTried[b][p] == -1
    ensures TriedsAre(s, s1, s1, [])
  {
    hide Rank;
  }

  /** The slot of the next tried entry is still free. */
  lemma NextSlotFree(env: Env, s: State, s1: State, u: State, ys: seq<Stored>, m: nat)
    requires Consistent(env, s) && m < |Ids(s.mapInfo, Count(s), true)| && |ys| == m
    requires Shaped(s.vvTried, TRIED_BUCKET_COUNT) && Shaped(u.vvTried, TRIED_BUCKET_COUNT) && TriedsAre(s, s1, u, ys)
    ensures var id := Ids(s.mapInfo, Count(s), true)[m];
            && id in s.mapInfo && Trieds(s)[m] == ToStored(s.mapInfo[id])
            && var slot := TriedSlot(env, s.nKey, s.mapInfo[id].service);
               && 0 <= slot.0 < TRIED_BUCKET_COUNT && 0 <= slot.1 < BUCKET_SIZE && u.vvTried[slot.0][slot.1] == -1
               && TriedTable(s, s1.nIdCount, m + 1, Put(u.vvTried, slot.0, slot.1, s1.nIdCount + m))
  {
    hide Inv, Ids, Rank, TriedBucket, BucketPosition;
    TriedAt(env, s, m);
    var id := Ids(s.mapInfo, Count(s), true)[m];
    SelectedMeans(env, s, id);
    var slot := TriedSlot(env, s.nKey, s.mapInfo[id].service);
    SlotRange(env, s.nKey, s.mapInfo[id].service);
    var t := Put(u.vvTried, slot.0, slot.1, s1.nIdCount + m);
    forall b, p | 0 <= b < TRIED_BUCKET_COUNT && 0 <= p < BUCKET_SIZE ensures t[b][p] == TriedSoFar(s, s1.nIdCount, m + 1, s.vvTried[b][p]) {
      assert u.vvTried[b][p] == TriedSoFar(s, s1.nIdCount, m, s.vvTried[b][p]);
      if (b, p) == slot {
        assert s.vvTried[b][p] == id && id != -1;
      } else {
        assert t[b][p] == u.vvTried[b][p];
      }
    }
  }

  /** The tried table once the first `m` entries are loaded behind `n` new ones. */
  ghost predicate TriedTable(s: State, n: int, m: nat, t: Table)
    requires Shaped(s.vvTried, TRIED_BUCKET_COUNT)
  {
    Shaped(t, TRIED_BUCKET_COUNT)
    && forall b, p :: 0 <= b < TRIED_BUCKET_COUNT && 0 <= p < BUCKET_SIZE ==> t[b][p] == TriedSoFar(s, n, m, s.vvTried[b][p])
  }

  /** So it is not lost. */
  lemma TriedsNext(env: Env, s: State, s1: State, u: State, ys: seq<Stored>)
    requires Consistent(env, s) && Loading(env, u) && ys != [] && |ys| <= |Trieds(s)| && ys == Trieds(s)[..|ys|]
    requires Shaped(s.vvTried, TRIED_BUCKET_COUNT) && Shaped(u.vvTried, TRIED_BUCKET_COUNT)
    requires TriedsAre(s, s1, u, ys[..|ys| - 1])
    ensures var t := LoadTried(env, u, ys[|ys| - 1]); Shaped(t.vvTried, TRIED_BUCKET_COUNT) && TriedsAre(s, s1, t, ys)
  {
    hide Inv, Loading, Ids, TriedBucket, BucketPosition, Enter, TriedSoFar, Limbo, Excess, NewIds;
    var m := |ys| - 1;
    var x := ys[m];
    NextSlotFree(env, s, s1, u, ys[..m], m);
    EnterKeeps(env, u, x);
    EnterEffect(u, x);
    var slot := TriedSlot(env, s.nKey, x.service);
    var v := Enter(u, x);
    var t := Try(v, slot.0, slot.1, u.nIdCount);
    assert t == LoadTried(env, u, x);
    TriedEntries(s1, u, v, t, ys, ys[..m]);
  }

  lemma TriedEntries(s1: State, u: State, v: State, t: State, ys: seq<Stored>, front: seq<Stored>)
    requires ys != [] && front == ys[..|ys| - 1] && u.nIdCount == s1.nIdCount + |front|
    requires forall id :: id in s1.mapInfo ==> id in u.mapInfo && u.mapInfo[id] == s1.mapInfo[id]
    requires forall i :: 0 <= i < |front| ==> EntryIs(u, s1.nIdCount + i, front[i], true)
    requires u.nIdCount !in u.mapInfo && v.mapInfo.Keys == u.mapInfo.Keys + {u.nIdCount} && (forall id :: id in u.mapInfo ==> v.mapInfo[id] == u.mapInfo[id])
    requires ToStored(v.mapInfo[u.nIdCount]) == ys[|ys| - 1] && v.mapInfo[u.nIdCount].nLastTry == 0
    requires t.mapInfo == v.mapInfo[u.nIdCount := v.mapInfo[u.nIdCount].(fInTried := true)]
    ensures forall id :: id in s1.mapInfo ==> id in t.mapInfo && t.mapInfo[id] == s1.mapInfo[id]
    ensures forall i :: 0 <= i < |ys| ==> EntryIs(t, s1.nIdCount + i, ys[i], true)
  {
    forall i | 0 <= i < |ys| ensures EntryIs(t, s1.nIdCount + i, ys[i], true) {
      if i < |ys| - 1 { assert EntryIs(u, s1.nIdCount + i, front[i], true); }
    }
  }

  lemma {:induction false} TriedsExact(env: Env, s: State, s1: State, ys: seq<Stored>)
    requires Consistent(env, s) && Loading(env, s1) && |ys| <= |Trieds(s)| && ys == Trieds(s)[..|ys|] && s1.nKey == s.nKey
    requires Shaped(s.vvTried, TRIED_BUCKET_COUNT) && Shaped(s1.vvTried, TRIED_BUCKET_COUNT)
    requires forall b, p :: 0 <= b < TRIED_BUCKET_COUNT && 0 <= p < BUCKET_SIZE ==> s1.vvTried[b][p] == -1
    ensures var t := LoadTrieds(env, s1, ys); Shaped(t.vvTried, TRIED_BUCKET_COUNT) && TriedsAre(s, s1, t, ys)
  {
    hide Inv, Loading, TriedsLoaded, TriedsAre, Trieds, LoadTried;
    if ys == [] {
      TriedsNone(env, s, s1);
    } else {
      var n := |ys| - 1;
      assert ys[..n] == Trieds(s)[..n];
      TriedsExact(env, s, s1, ys[..n]);
      var u := LoadTrieds(env, s1, ys[..n]);
      TriedsLoadedNext(env, s1, u, ys);
      LoadingShaped(env, u);
      TriedsNext(env, s, s1, u, ys);
    }
  }

  // ---------------------------------------------------------------- the positions in the new table

  /** The slots before position `p` of bucket `b` are filled as in `s`; the others are free. */
  ghost predicate Filled(s: State, t: State, b: int, p: int)
    requires Shaped(s.vvNew, NEW_BUCKET_COUNT) && Shaped(t.vvNew, NEW_BUCKET_COUNT)
  {
    forall i, j :: 0 <= i < NEW_BUCKET_COUNT && 0 <= j < BUCKET_SIZE ==>
      t.vvNew[i][j] == if i < b || (i == b && j < p) then NewSlot(s, s.vvNew[i][j]) else -1
  }

  function NewSlot(s: State, v: int): int { if v == -1 then -1 else Rank(s.mapInfo, v, false) }

  /** The new entries of `t` are those of `s` by rank. */
  ghost predicate NewsMatch(s: State, t: State) {
    && t.nKey == s.nKey && t.nNew == |Ids(s.mapInfo, Count(s), false)|
    && forall i :: 0 <= i < t.nNew ==> EntryIs(t, i, News(s)[i], false)
  }

  lemma NewAt(env: Env, s: State, b: int, p: int)
    requires Consistent(env, s) && 0 <= b < NEW_BUCKET_COUNT && 0 <= p < BUCKET_SIZE && Shaped(s.vvNew, NEW_BUCKET_COUNT) && s.vvNew[b][p] != -1
    ensures var id := s.vvNew[b][p];
            var r := Rank(s.mapInfo, id, false);
            && id in s.mapInfo && !s.mapInfo[id].fInTried && NewPos(env, s, b, id) == p
            && r < |Ids(s.mapInfo, Count(s), false)| && Ids(s.mapInfo, Count(s), false)[r] == id && News(s)[r] == ToStored(s.mapInfo[id])
  {
    hide Ids, Rank;
    var id := s.vvNew[b][p];
    SelectedMeans(env, s, id);
    IdsAll(s.mapInfo, Count(s), false, id);
  }

  lemma NewPosSame(env: Env, s: State, t: State, b: int, id: int, r: int)
    requires id in s.mapInfo && r in t.mapInfo && t.nKey == s.nKey && t.mapInfo[r].service == s.mapInfo[id].service
    ensures NewPos(env, t, b, r) == NewPos(env, s, b, id)
  {}

  /** The buckets in which entry `r` is filed so far are among those of the original. */
  lemma BucketsSoFar(env: Env, s: State, t: State, b: int, p: int, id: int)
    requires Consistent(env, s) && Shaped(s.vvNew, NEW_BUCKET_COUNT) && Shaped(t.vvNew, NEW_BUCKET_COUNT) && id in s.mapInfo && !s.mapInfo[id].fInTried
    requires Filled(s, t, b, p) && NewsMatch(s, t)
    ensures var r := Rank(s.mapInfo, id, false);
            && EntryIs(t, r, ToStored(s.mapInfo[id]), false)
            && Buckets(env, t, r) == set i | i in Buckets(env, s, id) && (i < b || (i == b && NewPos(env, s, i, id) < p))
  {
    hide Inv, Ids, Rank, BucketPosition;
    var r := Rank(s.mapInfo, id, false);
    SelectedMeans(env, s, id);
    IdsAll(s.mapInfo, Count(s), false, id);
    assert EntryIs(t, r, News(s)[r], false);
    forall i | 0 <= i < NEW_BUCKET_COUNT ensures i in Buckets(env, t, r) <==> i in Buckets(env, s, id) && (i < b || (i == b && NewPos(env, s, i, id) < p)) {
      NewPosSame(env, s, t, i, id, r);
      var j := NewPos(env, s, i, id);
      PositionRange(env, s, i, id);
      assert t.vvNew[i][j] == if i < b || (i == b && j < p) then NewSlot(s, s.vvNew[i][j]) else -1;
      if s.vvNew[i][j] != -1 { NewAt(env, s, i, j); }
    }
  }

  lemma ReferencesCounted(env: Env, t: State, r: int)
    requires Loading(env, t) && r in t.mapInfo && !t.mapInfo[r].fInTried
    ensures Shaped(t.vvNew, NEW_BUCKET_COUNT) && t.mapInfo[r].nRefCount == |Buckets(env, t, r)|
  {}

  lemma ReferencesFew(env: Env, s: State, id: int)
    requires Consistent(env, s) && id in s.mapInfo && !s.mapInfo[id].fInTried
    ensures Shaped(s.vvNew, NEW_BUCKET_COUNT) && 0 < s.mapInfo[id].nRefCount == |Buckets(env, s, id)| <= NEW_BUCKETS_PER_ADDRESS
  {
    hide Buckets;
  }

  lemma Smaller(a: set<int>, b: set<int>, x: int)
    requires a <= b && x in b && x !in a
    ensures |a| < |b|
  {
    var c := b - {x};
    assert a <= c;
    Subset(a, c);
  }

  lemma {:induction false} Subset(a: set<int>, b: set<int>)
    requires a <= b
    ensures |a| <= |b|
    decreases |b|
  {
    NonEmpty(b);
    if b == {} {
      assert a == {};
    } else {
      var x :| x in b;
      Subset(a - {x}, b - {x});
      if x !in a { assert a - {x} == a; }
    }
  }

  /** The next occupied slot is filled again: its slot is free, and the entry still has room. */
  lemma FillNext(env: Env, s: State, t: State, b: int, p: int)
    requires Consistent(env, s) && Loading(env, t) && NewsFirst(t) && 0 <= b < NEW_BUCKET_COUNT && 0 <= p < BUCKET_SIZE
    requires Shaped(s.vvNew, NEW_BUCKET_COUNT) && Shaped(t.vvNew, NEW_BUCKET_COUNT) && s.vvNew[b][p] != -1
    requires Filled(s, t, b, p) && NewsMatch(s, t)
    ensures var u := FileIndex(env, t, b, NewSlot(s, s.vvNew[b][p])); Shaped(u.vvNew, NEW_BUCKET_COUNT) && Filled(s, u, b, p + 1)
  {
    hide Inv, Loading, Ids, Rank, BucketPosition, NewsMatch, Buckets;
    NewAt(env, s, b, p);
    var id := s.vvNew[b][p];
    var r := Rank(s.mapInfo, id, false);
    BucketsSoFar(env, s, t, b, p, id);
    NewsMatchCount(s, t);
    ReferencesCounted(env, t, r);
    ReferencesFew(env, s, id);
    assert b in Buckets(env, s, id) by { InBucket(env, s, b, p); }
    Smaller(Buckets(env, t, r), Buckets(env, s, id), b);
    NewPosSame(env, s, t, b, id, r);
    assert t.vvNew[b][p] == -1;
    var u := FileIndex(env, t, b, r);
    assert u == Slot(t, b, p, r);
    forall i, j | 0 <= i < NEW_BUCKET_COUNT && 0 <= j < BUCKET_SIZE
      ensures u.vvNew[i][j] == if i < b || (i == b && j < p + 1) then NewSlot(s, s.vvNew[i][j]) else -1
    {
      assert t.vvNew[i][j] == if i < b || (i == b && j < p) then NewSlot(s, s.vvNew[i][j]) else -1;
    }
  }

  lemma NewsMatchCount(s: State, t: State)
    requires NewsMatch(s, t)
    ensures t.nNew == |Ids(s.mapInfo, Count(s), false)| && t.nKey == s.nKey
  {}

  lemma InBucket(env: Env, s: State, b: int, p: int)
    requires Shaped(s.vvNew, NEW_BUCKET_COUNT) && 0 <= b < NEW_BUCKET_COUNT && 0 <= p < BUCKET_SIZE && s.vvNew[b][p] in s.mapInfo
    requires NewPos(env, s, b, s.vvNew[b][p]) == p
    ensures b in Buckets(env, s, s.vvNew[b][p])
  {}

  lemma NewsMatchKept(s: State, t: State, u: State)
    requires NewsMatch(s, t) && SameButReferences(t, u)
    ensures NewsMatch(s, u)
  {
    hide NewIds, Ids;
    forall i | 0 <= i < u.nNew ensures EntryIs(u, i, News(s)[i], false) { assert EntryIs(t, i, News(s)[i], false); }
  }

  lemma FilledSame(s: State, t: State, b: int, p: int)
    requires Shaped(s.vvNew, NEW_BUCKET_COUNT) && Shaped(t.vvNew, NEW_BUCKET_COUNT) && 0 <= b < NEW_BUCKET_COUNT && 0 <= p < BUCKET_SIZE
    requires Filled(s, t, b, p) && s.vvNew[b][p] == -1
    ensures Filled(s, t, b, p + 1)
  {
    hide Rank;
  }

  lemma {:induction false} RowExact(env: Env, s: State, t: State, b: int, n: nat)
    requires Consistent(env, s) && Loading(env, t) && NewsFirst(t) && 0 <= b < NEW_BUCKET_COUNT && n <= BUCKET_SIZE
    requires Shaped(s.vvNew, NEW_BUCKET_COUNT) && Shaped(t.vvNew, NEW_BUCKET_COUNT) && Filled(s, t, b, 0) && NewsMatch(s, t)
    ensures var u := FileRow(env, t, b, Row(s, b, n)); Shaped(u.vvNew, NEW_BUCKET_COUNT) && Filled(s, u, b, n) && NewsMatch(s, u)
  {
    hide Inv, Loading, Filled, NewsMatch, NewsFirst, SameButReferences, FileIndex, Rank, Shaped;
    var row := Row(s, b, n);
    LoadingShaped(env, FileRow(env, t, b, row));
    NewsMatchKept(s, t, FileRow(env, t, b, row));
    if n > 0 {
      RowExact(env, s, t, b, n - 1);
      var u := FileRow(env, t, b, Row(s, b, n - 1));
      ShapedRow(s, b);
      if s.vvNew[b][n - 1] != -1 {
        FillNext(env, s, u, b, n - 1);
        assert row[..|row| - 1] == Row(s, b, n - 1);
      } else {
        FilledSame(s, u, b, n - 1);
        assert row == Row(s, b, n - 1);
      }
    }
  }

  lemma ShapedRow(s: State, b: int)
    requires Shaped(s.vvNew, NEW_BUCKET_COUNT) && 0 <= b < NEW_BUCKET_COUNT
    ensures b < |s.vvNew| && |s.vvNew[b]| == BUCKET_SIZE
  {}

  lemma FilledNextRow(s: State, t: State, b: int)
    requires Shaped(s.vvNew, NEW_BUCKET_COUNT) && Shaped(t.vvNew, NEW_BUCKET_COUNT) && Filled(s, t, b, BUCKET_SIZE)
    ensures Filled(s, t, b + 1, 0)
  {
    hide Rank;
  }

  lemma {:induction false} RowsExact(env: Env, s: State, t: State, n: nat)
    requires Consistent(env, s) && Loading(env, t) && NewsFirst(t) && n <= NEW_BUCKET_COUNT
    requires Shaped(s.vvNew, NEW_BUCKET_COUNT) && Shaped(t.vvNew, NEW_BUCKET_COUNT) && Filled(s, t, 0, 0) && NewsMatch(s, t)
    ensures var u := FileRows(env, t, Saved(s).buckets[..n]); Shaped(u.vvNew, NEW_BUCKET_COUNT) && Filled(s, u, n, 0) && NewsMatch(s, u)
  {
    hide Inv, Loading, Filled, NewsMatch, NewsFirst, SameButReferences, FileRow, Shaped, Row, News, Trieds;
    var rows := Saved(s).buckets[..n];
    if n > 0 {
      RowsExact(env, s, t, n - 1);
      assert rows[..n - 1] == Saved(s).buckets[..n - 1];
      var u := FileRows(env, t, rows[..n - 1]);
      assert rows[n - 1] == Row(s, n - 1, BUCKET_SIZE);
      RowExact(env, s, u, n - 1, BUCKET_SIZE);
      FilledNextRow(s, FileRow(env, u, n - 1, rows[n - 1]), n - 1);
    }
  }

  /** With no entry left without a reference, pruning does nothing. */
  lemma {:induction false} NothingPruned(env: Env, s: State, k: nat)
    requires Loading(env, s) && Limbo(s) == {}
    ensures Pruned(env, s, k) == s
  {
    hide Loading, Limbo, Delete, CanDelete, NewIds;
    if k > 0 { NothingPruned(env, s, k - 1); }
  }

  // ---------------------------------------------------------------- the round trip

  /** `t` is `s` with its entries renamed: every entry keeps what is stored of it, its kind and its number of
      references, and both tables hold the same entries in the same slots. */
  ghost predicate SameManager(s: State, t: State)
    requires Shaped(s.vvNew, NEW_BUCKET_COUNT) && Shaped(s.vvTried, TRIED_BUCKET_COUNT)
  {
    && t.nKey == s.nKey && t.nNew == s.nNew && t.nTried == s.nTried && |t.mapInfo| == |s.mapInfo|
    && Shaped(t.vvNew, NEW_BUCKET_COUNT) && Shaped(t.vvTried, TRIED_BUCKET_COUNT)
    && (forall id :: id in s.mapInfo ==> EntryKept(s, t, id))
    && (forall i, j :: i in s.mapInfo && j in s.mapInfo && Renamed(s, i) == Renamed(s, j) ==> i == j)
    && (forall b, p :: 0 <= b < NEW_BUCKET_COUNT && 0 <= p < BUCKET_SIZE ==> t.vvNew[b][p] == RenamedSlot(s, s.vvNew[b][p]))
    && (forall b, p :: 0 <= b < TRIED_BUCKET_COUNT && 0 <= p < BUCKET_SIZE ==> t.vvTried[b][p] == RenamedSlot(s, s.vvTried[b][p]))
  }

  ghost predicate EntryKept(s: State, t: State, id: int)
    requires id in s.mapInfo
  {
    && EntryIs(t, Renamed(s, id), ToStored(s.mapInfo[id]), s.mapInfo[id].fInTried)
    && t.mapInfo[Renamed(s, id)].nRefCount == s.mapInfo[id].nRefCount
  }

  lemma StartTables(x: Stream)
    ensures var s := Start(x);
            && Shaped(s.vvNew, NEW_BUCKET_COUNT) && Shaped(s.vvTried, TRIED_BUCKET_COUNT) && s.nKey == x.nKey && s.nIdCount == 0 && s.nNew == |x.news| && s.nTried == 0
            && (forall b, p :: 0 <= b < NEW_BUCKET_COUNT && 0 <= p < BUCKET_SIZE ==> s.vvNew[b][p] == -1)
            && (forall b, p :: 0 <= b < TRIED_BUCKET_COUNT && 0 <= p < BUCKET_SIZE ==> s.vvTried[b][p] == -1)
  {}

  /** Before the positions are read: all entries are there, the tried table is complete, the new one empty. */
  ghost predicate Entered(s: State, t: State)
    requires Shaped(s.vvNew, NEW_BUCKET_COUNT) && Shaped(s.vvTried, TRIED_BUCKET_COUNT)
  {
    && NewsMatch(s, t) && t.nTried == |Trieds(s)| && TriedTable(s, |News(s)|, |Trieds(s)|, t.vvTried)
    && Shaped(t.vvNew, NEW_BUCKET_COUNT) && Filled(s, t, 0, 0)
    && forall i :: 0 <= i < |Trieds(s)| ==> EntryIs(t, |News(s)| + i, Trieds(s)[i], true)
  }

  lemma EnteredAll(env: Env, s: State, s0: State, s1: State, s2: State)
    requires Consistent(env, s) && Shaped(s.vvNew, NEW_BUCKET_COUNT) && Shaped(s.vvTried, TRIED_BUCKET_COUNT)
    requires s0 == Start(Saved(s)) && NewsAre(s0, s1, News(s)) && s1.nKey == s0.nKey && s1.nNew == s0.nNew && s1.nTried == s0.nTried
    requires Shaped(s2.vvTried, TRIED_BUCKET_COUNT) && TriedsAre(s, s1, s2, Trieds(s)) && s2.nNew == s1.nNew
    ensures Entered(s, s2)
  {
    StartTables(Saved(s));
    hide Start, Ids, Rank, Inv, TriedTable;
    forall i | 0 <= i < s2.nNew ensures EntryIs(s2, i, News(s)[i], false) { assert EntryIs(s1, s0.nIdCount + i, News(s)[i], false); }
    forall i | 0 <= i < |Trieds(s)| ensures EntryIs(s2, |News(s)| + i, Trieds(s)[i], true) { assert EntryIs(s2, s1.nIdCount + i, Trieds(s)[i], true); }
    assert Filled(s, s2, 0, 0);
  }

  /** Loading what was saved up to the positions in the new table. */
  lemma EntersSaved(env: Env, s: State)
    requires Consistent(env, s) && Shaped(s.vvNew, NEW_BUCKET_COUNT) && Shaped(s.vvTried, TRIED_BUCKET_COUNT)
    requires var x := Saved(s); Complete(x) && Usable(x)
    ensures var x := Saved(s);
            Loading(env, Start(x)) &&
            var s1 := LoadNews(env, Start(x), x.news, false);
            var s2 := LoadTrieds(env, s1, x.trieds);
            NewsFirst(s2) && Entered(s, s2)
  {
    hide Inv, Loading, Start, NewsLoaded, TriedsLoaded, NewsAre, TriedsAre, Entered, NewIds, Trieds, News, Row;
    var x := Saved(s);
    StartLoads(env, x);
    StartTables(x);
    var s0 := Start(x);
    var s1 := LoadNews(env, s0, x.news, false);
    var s2 := LoadTrieds(env, s1, x.trieds);
    NewsFirstThen(env, x, s1, s2);
    NewsExact(env, s0, x.news);
    NewsKeepTables(s0, s1, x.news);
    LoadedCounts(s0, s1, s2, x.news, x.trieds);
    assert x.trieds == x.trieds[..|x.trieds|];
    TriedsExact(env, s, s1, x.trieds);
    EnteredAll(env, s, s0, s1, s2);
  }

  lemma NewsKeepTables(s0: State, s1: State, xs: seq<Stored>)
    requires NewsAre(s0, s1, xs)
    ensures s1.vvNew == s0.vvNew && s1.vvTried == s0.vvTried
  {}

  lemma LoadedCounts(s0: State, s1: State, s2: State, xs: seq<Stored>, ys: seq<Stored>)
    requires NewsLoaded(s0, s1, xs) && TriedsLoaded(s1, s2, ys)
    ensures s1.nKey == s0.nKey && s1.nNew == s0.nNew && s1.nTried == s0.nTried && s2.nNew == s1.nNew
  {
    hide NewIds, Addressed;
  }

  /** With the new table filled, every reference count is the original one. */
  lemma CountsBack(env: Env, s: State, t: State, id: int)
    requires Consistent(env, s) && Loading(env, t) && id in s.mapInfo && !s.mapInfo[id].fInTried
    requires Shaped(s.vvNew, NEW_BUCKET_COUNT) && Shaped(t.vvNew, NEW_BUCKET_COUNT) && Filled(s, t, NEW_BUCKET_COUNT, 0) && NewsMatch(s, t)
    ensures var r := Rank(s.mapInfo, id, false);
            EntryIs(t, r, ToStored(s.mapInfo[id]), false) && t.mapInfo[r].nRefCount == s.mapInfo[id].nRefCount > 0
  {
    hide Inv, Loading, Ids, Rank, NewsMatch, Filled, NewPos;
    BucketsSoFar(env, s, t, NEW_BUCKET_COUNT, 0, id);
    var r := Rank(s.mapInfo, id, false);
    ReferencesCounted(env, t, r);
    ReferencesFew(env, s, id);
    assert forall i :: i in Buckets(env, s, id) ==> i < NEW_BUCKET_COUNT;
    assert Buckets(env, t, r) == Buckets(env, s, id);
  }

  /** No new entry is without a reference. */
  lemma NoLimbo(env: Env, s: State, t: State)
    requires Consistent(env, s) && Loading(env, t) && Shaped(s.vvNew, NEW_BUCKET_COUNT) && Shaped(t.vvNew, NEW_BUCKET_COUNT)
    requires Filled(s, t, NEW_BUCKET_COUNT, 0) && NewsMatch(s, t) && NewIdsBelow(t)
    ensures Limbo(t) == {}
  {
    hide Inv, Loading, Filled, Ids, Rank;
    forall k ensures k !in Limbo(t) {
      if k in Limbo(t) {
        IdsIn(s.mapInfo, Count(s), false, k);
        var id := Ids(s.mapInfo, Count(s), false)[k];
        SelectedMeans(env, s, id);
        CountsBack(env, s, t, id);
      }
    }
    NothingIn(Limbo(t));
  }

  /** The new entries are those with ids below nNew. */
  ghost predicate NewIdsBelow(t: State) { forall k :: k in t.mapInfo && !t.mapInfo[k].fInTried ==> 0 <= k < t.nNew }

  lemma NewIdsAre(s0: State, s1: State, s2: State, xs: seq<Stored>, ys: seq<Stored>)
    requires s0.mapInfo == map[] && s0.nIdCount == 0 && s0.nNew == |xs| && NewsLoaded(s0, s1, xs) && TriedsLoaded(s1, s2, ys)
    ensures NewIdsBelow(s2)
  {
    forall k | k in s2.mapInfo && !s2.mapInfo[k].fInTried ensures 0 <= k < s2.nNew {
      assert k in NewIds(s2);
      assert k in NewIds(s1);
    }
  }

  lemma NewIdsBelowKept(t: State, u: State)
    requires NewIdsBelow(t) && SameButReferences(t, u)
    ensures NewIdsBelow(u)
  {
    hide NewIds;
  }

  /** Everything is back. */
  lemma AllBack(env: Env, s: State, s2: State, t: State)
    requires Consistent(env, s) && Loading(env, t) && Shaped(s.vvNew, NEW_BUCKET_COUNT) && Shaped(s.vvTried, TRIED_BUCKET_COUNT)
    requires Entered(s, s2) && SameButReferences(s2, t) && Shaped(t.vvNew, NEW_BUCKET_COUNT) && Filled(s, t, NEW_BUCKET_COUNT, 0) && NewsMatch(s, t)
    requires Consistent(env, t)
    ensures SameManager(s, t)
  {
    hide Inv, Loading, Ids, Rank, NewIds, Filled, NewsMatch;
    SavedCounts(env, s);
    NewsMatchCount(s, t);
    forall id | id in s.mapInfo ensures EntryKept(s, t, id) { EntryBack(env, s, s2, t, id); }
    forall i, j | i in s.mapInfo && j in s.mapInfo && Renamed(s, i) == Renamed(s, j) ensures i == j { RenamedOnce(env, s, i, j); }
    forall b, p | 0 <= b < NEW_BUCKET_COUNT && 0 <= p < BUCKET_SIZE ensures t.vvNew[b][p] == RenamedSlot(s, s.vvNew[b][p]) {
      FilledAt(s, t, b, p);
      if s.vvNew[b][p] != -1 { NewAt(env, s, b, p); }
    }
    LoadingShaped(env, t);
    forall b, p | 0 <= b < TRIED_BUCKET_COUNT && 0 <= p < BUCKET_SIZE ensures t.vvTried[b][p] == RenamedSlot(s, s.vvTried[b][p]) {
      assert t.vvTried[b][p] == TriedSoFar(s, |News(s)|, |Trieds(s)|, s.vvTried[b][p]);
      if s.vvTried[b][p] != -1 { TriedRank(env, s, b, p); }
    }
    SizeOf(env, s);
    SizeOf(env, t);
  }

  lemma FilledAt(s: State, t: State, b: int, p: int)
    requires Shaped(s.vvNew, NEW_BUCKET_COUNT) && Shaped(t.vvNew, NEW_BUCKET_COUNT) && Filled(s, t, NEW_BUCKET_COUNT, 0)
    requires 0 <= b < NEW_BUCKET_COUNT && 0 <= p < BUCKET_SIZE
    ensures t.vvNew[b][p] == NewSlot(s, s.vvNew[b][p])
  {}

  lemma TriedRank(env: Env, s: State, b: int, p: int)
    requires Consistent(env, s) && 0 <= b < TRIED_BUCKET_COUNT && 0 <= p < BUCKET_SIZE && Shaped(s.vvTried, TRIED_BUCKET_COUNT) && s.vvTried[b][p] != -1
    ensures var id := s.vvTried[b][p]; id in s.mapInfo && s.mapInfo[id].fInTried && Rank(s.mapInfo, id, true) < |Trieds(s)|
  {
    hide Ids, Rank;
    var id := s.vvTried[b][p];
    SelectedMeans(env, s, id);
    IdsAll(s.mapInfo, Count(s), true, id);
  }

  lemma EntryBack(env: Env, s: State, s2: State, t: State, id: int)
    requires Consistent(env, s) && Loading(env, t) && Shaped(s.vvNew, NEW_BUCKET_COUNT) && Shaped(s.vvTried, TRIED_BUCKET_COUNT)
    requires Entered(s, s2) && SameButReferences(s2, t) && Shaped(t.vvNew, NEW_BUCKET_COUNT) && Filled(s, t, NEW_BUCKET_COUNT, 0) && NewsMatch(s, t)
    requires Consistent(env, t) && id in s.mapInfo
    ensures EntryKept(s, t, id)
  {
    hide Inv, Loading, Ids, Rank, NewIds, Filled, NewsMatch, TriedTable, Shaped, Entered, SameButReferences;
    if s.mapInfo[id].fInTried {
      TriedBack(env, s, s2, t, id);
    } else {
      CountsBack(env, s, t, id);
    }
  }

  lemma TriedBack(env: Env, s: State, s2: State, t: State, id: int)
    requires Consistent(env, s) && Shaped(s.vvNew, NEW_BUCKET_COUNT) && Shaped(s.vvTried, TRIED_BUCKET_COUNT)
    requires Entered(s, s2) && SameButReferences(s2, t)
    requires Consistent(env, t) && id in s.mapInfo && s.mapInfo[id].fInTried
    ensures EntryKept(s, t, id)
  {
    hide Inv, Ids, Rank, NewIds, Filled, NewsMatch, TriedTable, Shaped;
    SelectedMeans(env, s, id);
    TriedUnreferenced(env, s, id);
    IdsAll(s.mapInfo, Count(s), true, id);
    var r := Rank(s.mapInfo, id, true);
    assert EntryIs(s2, |News(s)| + r, Trieds(s)[r], true);
    assert Trieds(s)[r] == ToStored(s.mapInfo[id]);
    TriedUnreferenced(env, t, |News(s)| + r);
  }

  lemma TriedUnreferenced(env: Env, s: State, id: int)
    requires Consistent(env, s) && id in s.mapInfo
    ensures s.mapInfo[id].fInTried ==> s.mapInfo[id].nRefCount == 0
  {}

  lemma RenamedOnce(env: Env, s: State, i: int, j: int)
    requires Consistent(env, s) && i in s.mapInfo && j in s.mapInfo && Renamed(s, i) == Renamed(s, j)
    ensures i == j
  {
    hide Inv, Ids, Rank;
    SelectedMeans(env, s, i);
    SelectedMeans(env, s, j);
    IdsAll(s.mapInfo, Count(s), s.mapInfo[i].fInTried, i);
    IdsAll(s.mapInfo, Count(s), s.mapInfo[j].fInTried, j);
  }

  lemma SizeOf(env: Env, s: State)
    requires Consistent(env, s)
    ensures |s.mapInfo| == s.nNew + s.nTried
  {
    forall id ensures id in s.mapInfo.Keys <==> id in NewIds(s) + TriedIds(s) {}
    assert s.mapInfo.Keys == NewIds(s) + TriedIds(s) && NewIds(s) - {} == NewIds(s);
    assert NewIds(s) !! TriedIds(s);
    assert |s.mapInfo| == |s.mapInfo.Keys|;
  }

  /** The positions in the new table are all restored, and leave nothing to prune. */
  lemma FilesSaved(env: Env, s: State, s2: State)
    requires Consistent(env, s) && Shaped(s.vvNew, NEW_BUCKET_COUNT) && Shaped(s.vvTried, TRIED_BUCKET_COUNT)
    requires Loading(env, s2) && NewsFirst(s2) && Entered(s, s2) && NewIdsBelow(s2)
    ensures var s3 := FileRows(env, s2, Saved(s).buckets);
            && Shaped(s3.vvNew, NEW_BUCKET_COUNT) && Filled(s, s3, NEW_BUCKET_COUNT, 0) && NewsMatch(s, s3) && Limbo(s3) == {}
  {
    hide Inv, Loading, Entered, NewIds, Limbo, Filled, NewsMatch, Shaped, SameButReferences, NewIdsBelow, NewsFirst, Row, News, Trieds;
    EnteredParts(s, s2);
    assert Saved(s).buckets == Saved(s).buckets[..NEW_BUCKET_COUNT];
    RowsExact(env, s, s2, NEW_BUCKET_COUNT);
    var s3 := FileRows(env, s2, Saved(s).buckets);
    NewIdsBelowKept(s2, s3);
    NoLimbo(env, s, s3);
  }

  lemma LoadSteps(env: Env, x: Stream)
    requires Complete(x) && Usable(x) && Loading(env, Start(x))
    requires NewsFirst(LoadTrieds(env, LoadNews(env, Start(x), x.news, false), x.trieds))
    requires Limbo(FileRows(env, LoadTrieds(env, LoadNews(env, Start(x), x.news, false), x.trieds), x.buckets)) == {}
    ensures NewIdsBelow(LoadTrieds(env, LoadNews(env, Start(x), x.news, false), x.trieds))
    ensures Load(env, x) == FileRows(env, LoadTrieds(env, LoadNews(env, Start(x), x.news, false), x.trieds), x.buckets)
  {
    hide Inv, Loading, Start, NewsLoaded, TriedsLoaded, NewIds, Limbo, SameButReferences, NewIdsBelow, NewsFirst, Addressed;
    LoadIds(env, x);
    var s3 := FileRows(env, LoadTrieds(env, LoadNews(env, Start(x), x.news, false), x.trieds), x.buckets);
    NothingPruned(env, s3, if s3.nIdCount < 0 then 0 else s3.nIdCount);
  }

  lemma LoadIds(env: Env, x: Stream)
    requires Loading(env, Start(x))
    ensures NewIdsBelow(LoadTrieds(env, LoadNews(env, Start(x), x.news, false), x.trieds))
  {
    hide Inv, Loading, Start, NewsLoaded, TriedsLoaded, NewIds, NewIdsBelow;
    StartEmpty(x);
    var s1 := LoadNews(env, Start(x), x.news, false);
    NewIdsAre(Start(x), s1, LoadTrieds(env, s1, x.trieds), x.news, x.trieds);
  }

  /** Saving a consistent manager and loading it into a new one gives the same manager, but for the ids of its
      entries, the order of vRandom and the times of the last tries: nothing is lost or pruned. */
  lemma SavedThenLoaded(env: Env, s: State)
    requires Consistent(env, s)
    ensures Shaped(s.vvNew, NEW_BUCKET_COUNT) && Shaped(s.vvTried, TRIED_BUCKET_COUNT)
    ensures var x := Saved(s);
            Complete(x) && Distinct(x.news + x.trieds) && Consistent(env, Load(env, x)) && SameManager(s, Load(env, x))
  {
    hide Inv, Loading, Start, Entered, NewIds, Trieds, News, Row, Limbo, Filled, NewsMatch, SameManager, Shaped, SameButReferences, NewIdsBelow, NewsFirst, NewsLoaded, TriedsLoaded, Load, Distinct;
    ShapedTables(env, s);
    SavedDistinct(env, s);
    var x := Saved(s);
    DistinctHarmless(env, x);
    EntersSaved(env, s);
    LoadConsistent(env, x);
    LoadIds(env, x);
    var s2 := LoadTrieds(env, LoadNews(env, Start(x), x.news, false), x.trieds);
    FilesSaved(env, s, s2);
    LoadSteps(env, x);
    AllBack(env, s, s2, FileRows(env, s2, x.buckets));
  }

  lemma EnteredParts(s: State, t: State)
    requires Shaped(s.vvNew, NEW_BUCKET_COUNT) && Shaped(s.vvTried, TRIED_BUCKET_COUNT) && Entered(s, t)
    ensures NewsMatch(s, t) && Shaped(t.vvNew, NEW_BUCKET_COUNT) && Filled(s, t, 0, 0)
  {}

  lemma StartEmpty(x: Stream)
    ensures Start(x).mapInfo == map[] && Start(x).nIdCount == 0 && Start(x).nNew == |x.news|
  {}
}
