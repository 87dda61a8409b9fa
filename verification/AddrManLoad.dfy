/** What any stream leaves in a new manager, collisions and unusable tables included. */
module AddrManLoad {
  import opened AddrMan
  import opened AddrManOps
  import opened AddrManStore
  import opened AddrManRoundTrip

  /** The slot that an entry of the stream competes for. */
  function SlotFor(env: Env, key: nat, x: Stored, tried: bool): (int, int) {
    if tried then
      var b := TriedBucket(env, key, x.service);
      (b, BucketPosition(env, key, false, b, x.service))
    else
      var b := NewBucket(env, key, x.service, x.source);
      (b, BucketPosition(env, key, true, b, x.service))
  }

  /** The first entry that competes for a slot, -1 if there is none. */
  function FirstFor(env: Env, key: nat, xs: seq<Stored>, tried: bool, slot: (int, int)): (r: int)
    ensures -1 <= r < |xs|
    ensures r != -1 ==> SlotFor(env, key, xs[r], tried) == slot && forall j :: 0 <= j < r ==> SlotFor(env, key, xs[j], tried) != slot
    ensures r == -1 ==> forall j :: 0 <= j < |xs| ==> SlotFor(env, key, xs[j], tried) != slot
  {
    if xs == [] then -1
    else
      var n := |xs| - 1;
      var r := FirstFor(env, key, xs[..n], tried, slot);
      assert forall j :: 0 <= j < n ==> xs[..n][j] == xs[j];
      if r != -1 then r else if SlotFor(env, key, xs[n], tried) == slot then n else -1
  }

  lemma FirstForLast(env: Env, key: nat, xs: seq<Stored>, tried: bool, slot: (int, int))
    requires xs != []
    ensures var n := |xs| - 1;
            var r := FirstFor(env, key, xs[..n], tried, slot);
            FirstFor(env, key, xs, tried, slot) == if r != -1 then r else if SlotFor(env, key, xs[n], tried) == slot then n else -1
  {}

  // ---------------------------------------------------------------- the tried table

  /** Each slot holds the first tried entry of the list that competes for it. */
  ghost predicate TriedFirst(env: Env, key: nat, t: State, ys: seq<Stored>)
    requires Shaped(t.vvTried, TRIED_BUCKET_COUNT)
  {
    forall b, p :: 0 <= b < TRIED_BUCKET_COUNT && 0 <= p < BUCKET_SIZE ==>
      var i := FirstFor(env, key, ys, true, (b, p));
      if i == -1 then t.vvTried[b][p] == -1 else t.vvTried[b][p] != -1 && EntryIs(t, t.vvTried[b][p], ys[i], true)
  }

  lemma EntryKept(s: State, t: State, k: int, x: Stored, tried: bool)
    requires EntryIs(s, k, x, tried) && k in t.mapInfo && Facts(t.mapInfo[k]) == Facts(s.mapInfo[k]) && t.mapInfo[k].fInTried == s.mapInfo[k].fInTried
    ensures EntryIs(t, k, x, tried)
  {
    var i, j := Facts(s.mapInfo[k]), Facts(t.mapInfo[k]);
    assert i.service == j.service && i.source == j.source;
  }

  lemma {:induction false} TriedsFirst(env: Env, s: State, ys: seq<Stored>)
    requires Loading(env, s) && Shaped(s.vvTried, TRIED_BUCKET_COUNT) && TriedFirst(env, s.nKey, s, [])
    ensures var t := LoadTrieds(env, s, ys);
            Shaped(t.vvTried, TRIED_BUCKET_COUNT) && t.nKey == s.nKey && t.vvNew == s.vvNew && TriedFirst(env, s.nKey, t, ys)
            && forall id :: id in s.mapInfo ==> id in t.mapInfo && t.mapInfo[id] == s.mapInfo[id]
  {
    hide Loading, TriedsLoaded, LoadTried, TriedFirst;
    if ys != [] {
      var n := |ys| - 1;
      TriedsFirst(env, s, ys[..n]);
      var u := LoadTrieds(env, s, ys[..n]);
      TriedsLoadedNext(env, s, u, ys);
      LoadingShaped(env, LoadTried(env, u, ys[n]));
      TriedFirstNext(env, u, ys);
    }
  }

  /** A tried entry is taken in if its slot is free, and lost otherwise. */
  lemma TakenIn(env: Env, u: State, y: Stored)
    requires Loading(env, u) && Shaped(u.vvTried, TRIED_BUCKET_COUNT)
    ensures var t := LoadTried(env, u, y);
            var slot := SlotFor(env, u.nKey, y, true);
            && 0 <= slot.0 < TRIED_BUCKET_COUNT && 0 <= slot.1 < BUCKET_SIZE
            && t.nKey == u.nKey && t.vvNew == u.vvNew && (forall id :: id in u.mapInfo ==> id in t.mapInfo && t.mapInfo[id] == u.mapInfo[id])
            && (u.vvTried[slot.0][slot.1] != -1 ==> t == u)
            && (u.vvTried[slot.0][slot.1] == -1 ==>
                  t.vvTried == Put(u.vvTried, slot.0, slot.1, u.nIdCount) && u.nIdCount != -1 && EntryIs(t, u.nIdCount, y, true))
  {
    hide Loading, Enter, Limbo, Excess, NewIds, BucketPosition, TriedBucket;
    EnterKeeps(env, u, y);
    EnterEffect(u, y);
    SlotRange(env, u.nKey, y.service);
    NewIdNotNone(env, u);
    NextEntry(u, Enter(u, y), y, true);
  }

  lemma TriedFirstNext(env: Env, u: State, ys: seq<Stored>)
    requires Loading(env, u) && Shaped(u.vvTried, TRIED_BUCKET_COUNT) && ys != [] && TriedFirst(env, u.nKey, u, ys[..|ys| - 1])
    ensures var t := LoadTried(env, u, ys[|ys| - 1]);
            && Shaped(t.vvTried, TRIED_BUCKET_COUNT) && t.nKey == u.nKey && t.vvNew == u.vvNew && TriedFirst(env, u.nKey, t, ys)
            && forall id :: id in u.mapInfo ==> id in t.mapInfo && t.mapInfo[id] == u.mapInfo[id]
  {
    hide Loading, LoadTried, SlotFor, FirstFor, EntryIs;
    var n := |ys| - 1;
    var t := LoadTried(env, u, ys[n]);
    TakenIn(env, u, ys[n]);
    forall b, p | 0 <= b < TRIED_BUCKET_COUNT && 0 <= p < BUCKET_SIZE
      ensures var i := FirstFor(env, u.nKey, ys, true, (b, p));
              if i == -1 then t.vvTried[b][p] == -1 else t.vvTried[b][p] != -1 && EntryIs(t, t.vvTried[b][p], ys[i], true)
    {
      FirstForLast(env, u.nKey, ys, true, (b, p));
      var i := FirstFor(env, u.nKey, ys[..n], true, (b, p));
      if i != -1 {
        EntryIsIn(u, u.vvTried[b][p], ys[..n][i], true);
        EntryKept(u, t, u.vvTried[b][p], ys[i], true);
      }
    }
  }

  lemma NextEntry(u: State, t: State, y: Stored, tried: bool)
    requires u.nIdCount in t.mapInfo && ToStored(t.mapInfo[u.nIdCount]) == y && t.mapInfo[u.nIdCount].nLastTry == 0
    ensures EntryIs(t.(mapInfo := t.mapInfo[u.nIdCount := t.mapInfo[u.nIdCount].(fInTried := tried)]), u.nIdCount, y, tried)
  {}

  lemma NewIdNotNone(env: Env, s: State)
    requires Loading(env, s)
    ensures 0 <= s.nIdCount
  {}

  // ---------------------------------------------------------------- the new table when the stream's cannot be used

  /** Each slot holds the first new entry of the list that competes for it. */
  ghost predicate NewFirst(env: Env, key: nat, t: State, xs: seq<Stored>)
    requires Shaped(t.vvNew, NEW_BUCKET_COUNT)
  {
    forall b, p :: 0 <= b < NEW_BUCKET_COUNT && 0 <= p < BUCKET_SIZE ==> t.vvNew[b][p] == FirstFor(env, key, xs, false, (b, p))
  }

  /** The ids of the new entries are their places in the list. */
  ghost predicate NewsThereBy(t: State, xs: seq<Stored>) {
    t.nIdCount == |xs| && forall i :: 0 <= i < |xs| ==> EntryIs(t, i, xs[i], false)
  }

  lemma {:induction false} NewsFirstDirect(env: Env, s: State, xs: seq<Stored>, direct: bool)
    requires Loading(env, s) && Shaped(s.vvNew, NEW_BUCKET_COUNT) && NewFirst(env, s.nKey, s, []) && s.nIdCount == 0
    ensures var t := LoadNews(env, s, xs, direct);
            && Shaped(t.vvNew, NEW_BUCKET_COUNT) && t.nKey == s.nKey && t.vvTried == s.vvTried && NewsThereBy(t, xs)
            && NewFirst(env, s.nKey, t, if direct then xs else [])
  {
    hide Loading, NewsLoaded, LoadNew, NewFirst, NewsThereBy;
    if xs == [] {
      NoNewsThere(s);
    } else {
      var n := |xs| - 1;
      NewsFirstDirect(env, s, xs[..n], direct);
      var u := LoadNews(env, s, xs[..n], direct);
      NewsLoadedNext(env, s, u, xs, direct);
      LoadingShaped(env, LoadNew(env, u, xs[n], direct));
      NewFirstNext(env, u, xs, direct);
    }
  }

  lemma NoNewsThere(s: State)
    requires s.nIdCount == 0
    ensures NewsThereBy(s, [])
  {}

  lemma NewFirstNext(env: Env, u: State, xs: seq<Stored>, direct: bool)
    requires xs != [] && Loading(env, u) && Shaped(u.vvNew, NEW_BUCKET_COUNT) && NewsThereBy(u, xs[..|xs| - 1])
    requires NewFirst(env, u.nKey, u, if direct then xs[..|xs| - 1] else [])
    ensures var t := LoadNew(env, u, xs[|xs| - 1], direct);
            && Shaped(t.vvNew, NEW_BUCKET_COUNT) && t.nKey == u.nKey && t.vvTried == u.vvTried && NewsThereBy(t, xs)
            && NewFirst(env, u.nKey, t, if direct then xs else [])
  {
    hide Loading, Enter, FileDirectly, NewFirst, Limbo, Excess, NewIds;
    var n := |xs| - 1;
    var x := xs[n];
    EnterKeeps(env, u, x);
    EnterEffect(u, x);
    var v := Enter(u, x);
    NewsThereNext(u, v, xs);
    if direct {
      FileDirectlyEffect(env, v, u.nIdCount);
      NewsThereSame(v, FileDirectly(env, v, u.nIdCount), xs);
      DirectSlot(env, u, v, xs);
    } else {
      NewFirstSame(env, u.nKey, u, v, []);
    }
  }

  lemma NewFirstSame(env: Env, key: nat, s: State, t: State, xs: seq<Stored>)
    requires t.vvNew == s.vvNew && Shaped(s.vvNew, NEW_BUCKET_COUNT) && NewFirst(env, key, s, xs)
    ensures NewFirst(env, key, t, xs)
  {}

  lemma NewsThereNext(u: State, v: State, xs: seq<Stored>)
    requires xs != [] && NewsThereBy(u, xs[..|xs| - 1]) && u.nIdCount !in u.mapInfo && v.nIdCount == u.nIdCount + 1
    requires v.mapInfo.Keys == u.mapInfo.Keys + {u.nIdCount} && forall id :: id in u.mapInfo ==> v.mapInfo[id] == u.mapInfo[id]
    requires EntryIs(v, u.nIdCount, xs[|xs| - 1], false)
    ensures NewsThereBy(v, xs)
  {
    forall i | 0 <= i < |xs| ensures EntryIs(v, i, xs[i], false) {
      if i < |xs| - 1 { assert EntryIs(u, i, xs[..|xs| - 1][i], false); }
    }
  }

  lemma NewsThereSame(s: State, t: State, xs: seq<Stored>)
    requires NewsThereBy(s, xs) && SameButReferences(s, t)
    ensures NewsThereBy(t, xs)
  {
    hide NewIds;
    forall i | 0 <= i < |xs| ensures EntryIs(t, i, xs[i], false) { assert EntryIs(s, i, xs[i], false); }
  }

  /** The entry just made is filed in its slot if that is free. */
  lemma DirectSlot(env: Env, u: State, v: State, xs: seq<Stored>)
    requires xs != [] && Loading(env, v) && Shaped(u.vvNew, NEW_BUCKET_COUNT) && NewFirst(env, u.nKey, u, xs[..|xs| - 1])
    requires v.nKey == u.nKey && v.vvNew == u.vvNew && u.nIdCount in v.mapInfo && ToStored(v.mapInfo[u.nIdCount]) == xs[|xs| - 1] && u.nIdCount == |xs| - 1
    ensures var t := FileDirectly(env, v, u.nIdCount); Shaped(t.vvNew, NEW_BUCKET_COUNT) && NewFirst(env, u.nKey, t, xs)
  {
    hide Loading, FirstFor;
    var n := |xs| - 1;
    var t := FileDirectly(env, v, n);
    LoadingShaped(env, v);
    assert v.mapInfo[n].service == xs[n].service && v.mapInfo[n].source == xs[n].source;
    forall b, p | 0 <= b < NEW_BUCKET_COUNT && 0 <= p < BUCKET_SIZE ensures t.vvNew[b][p] == FirstFor(env, u.nKey, xs, false, (b, p)) {
      FirstForLast(env, u.nKey, xs, false, (b, p));
      assert u.vvNew[b][p] == FirstFor(env, u.nKey, xs[..n], false, (b, p));
    }
  }

  // ---------------------------------------------------------------- the new table of the stream

  /** `t` is `s` with more slots filled. */
  ghost predicate Grew(s: State, t: State) {
    && Shaped(s.vvNew, NEW_BUCKET_COUNT) && Shaped(t.vvNew, NEW_BUCKET_COUNT) && SameButReferences(s, t)
    && (forall b, p :: 0 <= b < NEW_BUCKET_COUNT && 0 <= p < BUCKET_SIZE && s.vvNew[b][p] != -1 ==> t.vvNew[b][p] == s.vvNew[b][p])
    && (forall id :: id in s.mapInfo ==> t.mapInfo[id].nRefCount >= s.mapInfo[id].nRefCount)
  }

  lemma GrewNot(env: Env, s: State)
    requires Loading(env, s)
    ensures Grew(s, s)
  {}

  lemma GrewChain(s: State, t: State, u: State)
    requires Grew(s, t) && Grew(t, u)
    ensures Grew(s, u)
  {
    hide NewIds, Shaped;
  }

  /** An index was done justice: its slot is taken, by its entry or another one, or the entry has eight. */
  ghost predicate Settled(env: Env, t: State, b: int, n: int)
    requires Shaped(t.vvNew, NEW_BUCKET_COUNT) && 0 <= b < NEW_BUCKET_COUNT
  {
    0 <= n < t.nNew ==>
      n in t.mapInfo && (t.vvNew[b][NewPos(env, t, b, n)] != -1 || t.mapInfo[n].nRefCount == NEW_BUCKETS_PER_ADDRESS)
  }

  lemma SettledStays(env: Env, s: State, t: State, b: int, n: int)
    requires Grew(s, t) && Loading(env, t) && NewsFirst(t) && 0 <= b < NEW_BUCKET_COUNT && Settled(env, s, b, n)
    ensures Settled(env, t, b, n)
  {
    if 0 <= n < t.nNew { NewPosSame(env, s, t, b, n, n); }
  }

  lemma IndexSettled(env: Env, s: State, b: int, n: int)
    requires Loading(env, s) && NewsFirst(s) && 0 <= b < NEW_BUCKET_COUNT
    ensures var t := FileIndex(env, s, b, n);
            && Grew(s, t) && Settled(env, t, b, n)
            && forall c, p :: 0 <= c < NEW_BUCKET_COUNT && 0 <= p < BUCKET_SIZE ==> t.vvNew[c][p] == s.vvNew[c][p] || (c == b && t.vvNew[c][p] == n)
  {
    hide Core, NewIds, Loading, BucketPosition, SameButReferences;
    LoadingShaped(env, s);
    FileIndexKeeps(env, s, b, n);
    var t := FileIndex(env, s, b, n);
    LoadingShaped(env, t);
    if 0 <= n < s.nNew {
      PositionRange(env, s, b, n);
      RoomLeft(env, s, n);
      NewCountSame(s, t);
      NewPosSame(env, s, t, b, n, n);
    }
  }

  lemma RoomLeft(env: Env, s: State, n: int)
    requires Loading(env, s) && NewsFirst(s) && 0 <= n < s.nNew
    ensures n in s.mapInfo && 0 <= s.mapInfo[n].nRefCount <= NEW_BUCKETS_PER_ADDRESS
  {}

  lemma NewCountSame(s: State, t: State)
    requires SameButReferences(s, t)
    ensures t.nNew == s.nNew && t.nKey == s.nKey && forall id :: id in s.mapInfo ==> id in t.mapInfo && t.mapInfo[id].service == s.mapInfo[id].service
  {}

  lemma {:induction false} RowSettled(env: Env, s: State, b: int, row: seq<int>)
    requires Loading(env, s) && NewsFirst(s) && 0 <= b < NEW_BUCKET_COUNT
    ensures var t := FileRow(env, s, b, row);
            && Grew(s, t) && (forall n :: n in row ==> Settled(env, t, b, n))
            && forall c, p :: 0 <= c < NEW_BUCKET_COUNT && 0 <= p < BUCKET_SIZE ==> t.vvNew[c][p] == s.vvNew[c][p] || (c == b && t.vvNew[c][p] in row)
  {
    hide Loading, NewsFirst, SameButReferences, FileIndex, Grew, Settled;
    GrewNot(env, s);
    GrewShaped(s, s);
    if row != [] {
      var k := |row| - 1;
      RowSettled(env, s, b, row[..k]);
      var u := FileRow(env, s, b, row[..k]);
      IndexSettled(env, u, b, row[k]);
      FileIndexKeeps(env, u, b, row[k]);
      NewsThere(u, row[k]);
      var t := FileIndex(env, u, b, row[k]);
      GrewChain(s, u, t);
      GrewShaped(s, u);
      GrewShaped(u, t);
      forall n | n in row ensures Settled(env, t, b, n) {
        if n != row[k] { assert n in row[..k]; SettledStays(env, u, t, b, n); }
      }
    }
  }

  lemma GrewShaped(s: State, t: State)
    requires Grew(s, t)
    ensures Shaped(s.vvNew, NEW_BUCKET_COUNT) && Shaped(t.vvNew, NEW_BUCKET_COUNT)
  {}

  lemma {:induction false} RowsSettled(env: Env, s: State, rows: seq<seq<int>>)
    requires Loading(env, s) && NewsFirst(s) && |rows| <= NEW_BUCKET_COUNT
    ensures var t := FileRows(env, s, rows);
            && Grew(s, t) && (forall b, n :: 0 <= b < |rows| && n in rows[b] ==> Settled(env, t, b, n))
            && forall b, p :: 0 <= b < NEW_BUCKET_COUNT && 0 <= p < BUCKET_SIZE ==> t.vvNew[b][p] == s.vvNew[b][p] || (b < |rows| && t.vvNew[b][p] in rows[b])
  {
    hide Loading, NewsFirst, SameButReferences, FileRow, Grew, Settled;
    GrewNot(env, s);
    GrewShaped(s, s);
    if rows != [] {
      var k := |rows| - 1;
      RowsSettled(env, s, rows[..k]);
      var u := FileRows(env, s, rows[..k]);
      RowSettled(env, u, k, rows[k]);
      var t := FileRow(env, u, k, rows[k]);
      GrewChain(s, u, t);
      GrewShaped(s, u);
      GrewShaped(u, t);
      forall b, n | 0 <= b < |rows| && n in rows[b] ensures Settled(env, t, b, n) {
        if b < k { assert n in rows[..k][b]; SettledStays(env, u, t, b, n); }
      }
    }
  }

  // ---------------------------------------------------------------- after the pruning

  /** Deleting others leaves an entry as it is, but for its place in vRandom. */
  ghost predicate Spared(s: State, t: State) {
    && t.vvNew == s.vvNew && t.vvTried == s.vvTried && t.nKey == s.nKey
    && forall id :: id in t.mapInfo ==> id in s.mapInfo && t.mapInfo[id] == s.mapInfo[id].(nRandomPos := t.mapInfo[id].nRandomPos)
  }

  lemma SparedDelete(s: State, u: State, id: int)
    requires Spared(s, u) && CanDelete(u, id)
    ensures Spared(s, Delete(u, id))
  {
    DeleteLeavesTables(u, id);
  }

  lemma {:induction false} PrunedSpared(env: Env, s: State, k: nat)
    requires Loading(env, s)
    ensures Spared(s, Pruned(env, s, k))
    decreases k
  {
    hide Loading, Limbo, NewIds, CanDelete, Delete, Forgot, Spared;
    if k == 0 {
      SparedAll(s);
    } else {
      PrunedSpared(env, s, k - 1);
      var u := Pruned(env, s, k - 1);
      PruneStep(env, s, u, k - 1);
      if k - 1 in Limbo(u) { SparedDelete(s, u, k - 1); }
    }
  }

  lemma SparedAll(s: State)
    ensures Spared(s, s)
  {}

  /** Every occupied slot of the new table holds an entry of the list, under its place in it. */
  ghost predicate NewsInSlots(t: State, xs: seq<Stored>)
    requires Shaped(t.vvNew, NEW_BUCKET_COUNT)
  {
    forall b, p :: 0 <= b < NEW_BUCKET_COUNT && 0 <= p < BUCKET_SIZE && t.vvNew[b][p] != -1 ==>
      0 <= t.vvNew[b][p] < |xs| && EntryIs(t, t.vvNew[b][p], xs[t.vvNew[b][p]], false)
  }

  /** Each bucket holds only entries that the stream lists for it, and each of those unless its slot is taken
      or it has eight slots already. */
  ghost predicate NewListed(env: Env, x: Stream, t: State)
    requires Shaped(t.vvNew, NEW_BUCKET_COUNT) && |x.buckets| == NEW_BUCKET_COUNT
  {
    && (forall b, p :: 0 <= b < NEW_BUCKET_COUNT && 0 <= p < BUCKET_SIZE && t.vvNew[b][p] != -1 ==> t.vvNew[b][p] in x.buckets[b])
    && (forall b, n :: 0 <= b < NEW_BUCKET_COUNT && n in x.buckets[b] && 0 <= n < |x.news| ==>
          || t.vvNew[b][BucketPosition(env, x.nKey, true, b, x.news[n].service)] != -1
          || (n in t.mapInfo && t.mapInfo[n].nRefCount == NEW_BUCKETS_PER_ADDRESS))
  }

  lemma StartEmpty(env: Env, x: Stream)
    ensures var s := Start(x);
            && Shaped(s.vvNew, NEW_BUCKET_COUNT) && Shaped(s.vvTried, TRIED_BUCKET_COUNT) && s.nIdCount == 0 && s.nKey == x.nKey
            && NewFirst(env, x.nKey, s, []) && TriedFirst(env, x.nKey, s, [])
            && forall b, p :: 0 <= b < NEW_BUCKET_COUNT && 0 <= p < BUCKET_SIZE ==> s.vvNew[b][p] == -1
  {}

  lemma NothingFiled(env: Env, s: State, t: State)
    requires Shaped(s.vvNew, NEW_BUCKET_COUNT) && t.vvNew == s.vvNew && NewFirst(env, s.nKey, s, [])
    ensures forall b, p :: 0 <= b < NEW_BUCKET_COUNT && 0 <= p < BUCKET_SIZE ==> t.vvNew[b][p] == -1
  {}

  lemma TriedFirstSame(env: Env, key: nat, s: State, t: State, ys: seq<Stored>)
    requires Shaped(s.vvTried, TRIED_BUCKET_COUNT) && t.vvTried == s.vvTried && TriedFirst(env, key, s, ys)
    requires forall id :: id in s.mapInfo && id in t.mapInfo ==> Facts(t.mapInfo[id]) == Facts(s.mapInfo[id]) && t.mapInfo[id].fInTried == s.mapInfo[id].fInTried
    requires forall b, p :: 0 <= b < TRIED_BUCKET_COUNT && 0 <= p < BUCKET_SIZE && t.vvTried[b][p] != -1 ==> t.vvTried[b][p] in t.mapInfo
    ensures TriedFirst(env, key, t, ys)
  {
    hide FirstFor, Facts, EntryIs;
    forall b, p | 0 <= b < TRIED_BUCKET_COUNT && 0 <= p < BUCKET_SIZE
      ensures var i := FirstFor(env, key, ys, true, (b, p));
              if i == -1 then t.vvTried[b][p] == -1 else t.vvTried[b][p] != -1 && EntryIs(t, t.vvTried[b][p], ys[i], true)
    {
      var i := FirstFor(env, key, ys, true, (b, p));
      if i != -1 {
        EntryIsIn(s, s.vvTried[b][p], ys[i], true);
        EntryKept(s, t, s.vvTried[b][p], ys[i], true);
      }
    }
  }

  lemma NewsInSlotsSame(s: State, t: State, xs: seq<Stored>, n: int)
    requires Shaped(t.vvNew, NEW_BUCKET_COUNT) && n == |xs| && (forall i :: 0 <= i < |xs| ==> EntryIs(s, i, xs[i], false))
    requires forall id :: id in s.mapInfo && id in t.mapInfo ==> Facts(t.mapInfo[id]) == Facts(s.mapInfo[id]) && t.mapInfo[id].fInTried == s.mapInfo[id].fInTried
    requires forall b, p :: 0 <= b < NEW_BUCKET_COUNT && 0 <= p < BUCKET_SIZE && t.vvNew[b][p] != -1 ==> 0 <= t.vvNew[b][p] < n && t.vvNew[b][p] in t.mapInfo
    ensures NewsInSlots(t, xs)
  {
    hide Facts, EntryIs;
    forall b, p | 0 <= b < NEW_BUCKET_COUNT && 0 <= p < BUCKET_SIZE && t.vvNew[b][p] != -1 ensures EntryIs(t, t.vvNew[b][p], xs[t.vvNew[b][p]], false) {
      var v := t.vvNew[b][p];
      assert EntryIs(s, v, xs[v], false);
      EntryIsIn(s, v, xs[v], false);
      EntryKept(s, t, v, xs[v], false);
    }
  }

  lemma EntryIsIn(s: State, k: int, x: Stored, tried: bool)
    requires EntryIs(s, k, x, tried)
    ensures k in s.mapInfo && s.mapInfo[k].service == x.service
  {}

  // ---------------------------------------------------------------- the whole stream

  /** Both lists are there before the pruning. */
  ghost predicate ListsEntered(env: Env, x: Stream, s: State) {
    && Shaped(s.vvNew, NEW_BUCKET_COUNT) && Shaped(s.vvTried, TRIED_BUCKET_COUNT) && s.nKey == x.nKey && s.nNew == |x.news|
    && TriedFirst(env, x.nKey, s, x.trieds)
    && (forall i :: 0 <= i < |x.news| ==> EntryIs(s, i, x.news[i], false))
    && (forall id :: id in NewIds(s) ==> 0 <= id < |x.news|)
  }

  lemma FirstIds(x: Stream, s1: State, s2: State)
    requires NewsLoaded(Start(x), s1, x.news) && TriedsLoaded(s1, s2, x.trieds)
    ensures s2.nNew == |x.news| && forall id :: id in NewIds(s2) ==> 0 <= id < |x.news|
  {
    hide Addressed;
    assert forall id :: id in NewIds(s1) ==> 0 <= id < |x.news|;
  }

  lemma ListsLoaded(env: Env, x: Stream, s1: State, s2: State)
    requires Loading(env, Start(x)) && s1 == LoadNews(env, Start(x), x.news, !Usable(x)) && s2 == LoadTrieds(env, s1, x.trieds)
    ensures ListsEntered(env, x, s2) && NewFirst(env, x.nKey, s2, if Usable(x) then [] else x.news)
  {
    hide Loading, Start, NewsLoaded, TriedsLoaded, NewIds, Usable, TriedFirst, NewFirst, EntryIs;
    StartEmpty(env, x);
    FirstIds(x, s1, s2);
    NewsFirstDirect(env, Start(x), x.news, !Usable(x));
    LoadingShaped(env, s1);
    LoadingShaped(env, s2);
    TriedFirstNone(env, x.nKey, Start(x), s1);
    TriedsFirst(env, s1, x.trieds);
    NewFirstSame(env, x.nKey, s1, s2, if Usable(x) then [] else x.news);
    forall i | 0 <= i < |x.news| ensures EntryIs(s2, i, x.news[i], false) {
      EntryIsIn(s1, i, x.news[i], false);
      EntryKept(s1, s2, i, x.news[i], false);
    }
  }

  lemma TriedFirstNone(env: Env, key: nat, s: State, t: State)
    requires Shaped(s.vvTried, TRIED_BUCKET_COUNT) && t.vvTried == s.vvTried && TriedFirst(env, key, s, [])
    ensures TriedFirst(env, key, t, [])
  {}

  lemma SlotLive(env: Env, s: State)
    requires Loading(env, s)
    ensures Shaped(s.vvNew, NEW_BUCKET_COUNT) && Shaped(s.vvTried, TRIED_BUCKET_COUNT)
    ensures forall b, p :: 0 <= b < TRIED_BUCKET_COUNT && 0 <= p < BUCKET_SIZE && s.vvTried[b][p] != -1 ==> s.vvTried[b][p] in s.mapInfo
    ensures forall b, p :: 0 <= b < NEW_BUCKET_COUNT && 0 <= p < BUCKET_SIZE && s.vvNew[b][p] != -1 ==> s.vvNew[b][p] in NewIds(s)
  {}

  lemma SameFactsOf(s: State, t: State)
    requires SameButReferences(s, t)
    ensures t.mapInfo.Keys == s.mapInfo.Keys && NewIds(t) == NewIds(s) && t.vvTried == s.vvTried && t.nKey == s.nKey && t.nNew == s.nNew
    ensures forall id :: id in s.mapInfo ==> Facts(t.mapInfo[id]) == Facts(s.mapInfo[id]) && t.mapInfo[id].fInTried == s.mapInfo[id].fInTried
  {
    hide NewIds;
  }

  /** Filing the buckets of the stream leaves both lists in place. */
  lemma RowsLoaded(env: Env, x: Stream, s: State)
    requires Loading(env, s) && NewsFirst(s) && ListsEntered(env, x, s) && |x.buckets| <= NEW_BUCKET_COUNT
    ensures ListsEntered(env, x, FileRows(env, s, x.buckets))
  {
    hide Loading, NewIds, NewsFirst, TriedFirst, EntryIs, SameButReferences, Facts, FileRows;
    var t := FileRows(env, s, x.buckets);
    SlotLive(env, t);
    SameFactsOf(s, t);
    TriedFirstSame(env, x.nKey, s, t, x.trieds);
    forall i | 0 <= i < |x.news| ensures EntryIs(t, i, x.news[i], false) {
      EntryIsIn(s, i, x.news[i], false);
      EntryKept(s, t, i, x.news[i], false);
    }
  }

  /** What holds of the new table before the pruning. */
  ghost predicate TableEntered(env: Env, x: Stream, s: State)
    requires Complete(x) && Shaped(s.vvNew, NEW_BUCKET_COUNT)
  {
    if !Usable(x) then NewFirst(env, x.nKey, s, x.news)
    else
      && (forall b, n :: 0 <= b < NEW_BUCKET_COUNT && n in x.buckets[b] ==> Settled(env, s, b, n))
      && (forall b, p :: 0 <= b < NEW_BUCKET_COUNT && 0 <= p < BUCKET_SIZE && s.vvNew[b][p] != -1 ==> s.vvNew[b][p] in x.buckets[b])
  }

  lemma AllEnteredIs(env: Env, x: Stream)
    requires Complete(x)
    ensures var s := AllEntered(env, x); ListsEntered(env, x, s) && TableEntered(env, x, s)
  {
    hide Loading, Start, NewsLoaded, TriedsLoaded, NewsFirst, NewIds, Addressed, SameButReferences, ListsEntered, NewFirst, Settled, LoadNews, LoadTrieds, Grew, FileRows;
    StartLoads(env, x);
    var s1 := LoadNews(env, Start(x), x.news, !Usable(x));
    var s2 := LoadTrieds(env, s1, x.trieds);
    NewsFirstThen(env, x, s1, s2);
    ListsLoaded(env, x, s1, s2);
    ListsShaped(env, x, s2);
    if Usable(x) {
      NothingFiled(env, s2, s2);
      RowsSettled(env, s2, x.buckets);
      RowsLoaded(env, x, s2);
      GrewShaped(s2, FileRows(env, s2, x.buckets));
    }
  }

  lemma ListsShaped(env: Env, x: Stream, s: State)
    requires ListsEntered(env, x, s)
    ensures Shaped(s.vvNew, NEW_BUCKET_COUNT) && Shaped(s.vvTried, TRIED_BUCKET_COUNT) && s.nKey == x.nKey && s.nNew == |x.news|
  {}

  lemma SparedFacts(s: State, t: State)
    requires Spared(s, t)
    ensures t.vvNew == s.vvNew && t.vvTried == s.vvTried && t.nKey == s.nKey && forall id :: id in NewIds(t) ==> id in NewIds(s)
    ensures forall id :: id in t.mapInfo ==> id in s.mapInfo && Facts(t.mapInfo[id]) == Facts(s.mapInfo[id]) && t.mapInfo[id].fInTried == s.mapInfo[id].fInTried
                                             && t.mapInfo[id].nRefCount == s.mapInfo[id].nRefCount
  {}

  /** First come, first served. Whatever the stream lists, each tried slot holds the first tried entry that
      competes for it. If its table can be used, so does each slot of the new table hold an entry that the
      stream lists for the bucket, and nothing listed was passed over without need. If not, each slot of the
      new table holds the first new entry that competes for it. Nothing else is in the manager. */
  lemma LoadFirstCome(env: Env, x: Stream)
    requires Complete(x)
    ensures var t := Load(env, x);
            && Core(env, t, {}, 0) && Shaped(t.vvNew, NEW_BUCKET_COUNT) && Shaped(t.vvTried, TRIED_BUCKET_COUNT)
            && TriedFirst(env, x.nKey, t, x.trieds) && NewsInSlots(t, x.news)
            && if Usable(x) then NewListed(env, x, t) else NewFirst(env, x.nKey, t, x.news)
  {
    hide Core, Loading, NewIds, Limbo, NewFirst, TriedFirst, Settled, EntryIs, Facts, AllEntered, NewsInSlots, Spared, Forgot, Clash;
    LoadConsistentIff(env, x);
    AllEnteredIs(env, x);
    var s, t := AllEntered(env, x), Load(env, x);
    PrunedSpared(env, s, if s.nIdCount < 0 then 0 else s.nIdCount);
    SparedFacts(s, t);
    SlotLive(env, t);
    forall id | id in NewIds(t) ensures id in t.mapInfo { NewIdIn(t, id); }
    TriedFirstSame(env, x.nKey, s, t, x.trieds);
    NewsInSlotsSame(s, t, x.news, |x.news|);
    if Usable(x) { ListedAfter(env, x, s, t); } else { NewFirstSame(env, x.nKey, s, t, x.news); }
  }

  lemma NewIdIn(s: State, id: int)
    requires id in NewIds(s)
    ensures id in s.mapInfo
  {}

  lemma ListedAfter(env: Env, x: Stream, s: State, t: State)
    requires Complete(x) && Usable(x) && ListsEntered(env, x, s) && TableEntered(env, x, s)
    requires t.vvNew == s.vvNew && t.mapInfo.Keys == s.mapInfo.Keys - (Limbo(s) - Limbo(t))
    requires forall id :: id in t.mapInfo ==> id in s.mapInfo && t.mapInfo[id].nRefCount == s.mapInfo[id].nRefCount
    ensures NewListed(env, x, t)
  {
    hide NewIds, TriedFirst, EntryIs;
    forall b, n | 0 <= b < NEW_BUCKET_COUNT && n in x.buckets[b] && 0 <= n < |x.news|
      ensures t.vvNew[b][BucketPosition(env, x.nKey, true, b, x.news[n].service)] != -1 || (n in t.mapInfo && t.mapInfo[n].nRefCount == NEW_BUCKETS_PER_ADDRESS)
    {
      EntryIsIn(s, n, x.news[n], false);
      assert Settled(env, s, b, n);
    }
  }
}
