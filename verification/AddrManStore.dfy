/** Saving the address manager to disk and loading it again. */
module AddrManStore {
  import opened Basics
  import opened AddrMan
  import opened AddrManOps
  import opened AddrManRuns
  import opened Options

  /** What is stored of an entry; nLastTry is not. */
  datatype Stored = Stored(service: Service, nServices: set<nat>, nTime: int, source: NetAddr, nLastSuccess: int, nAttempts: int)

  function ToStored(i: AddrInfo): Stored { Stored(i.service, i.nServices, i.nTime, i.source, i.nLastSuccess, i.nAttempts) }

  /** The stream, field by field: the new entries, the tried ones, and a list of indices per bucket. The number
      of buckets is meant after the xor with 2^30. */
  datatype Stream = Stream(nVersion: int, nKeySize: int, nKey: nat, nUBuckets: int,
                           news: seq<Stored>, trieds: seq<Stored>, buckets: seq<seq<int>>)

  // ---------------------------------------------------------------- the state while loading

  /** New entries without a reference. */
  ghost function Limbo(s: State): set<int> { set id | id in s.mapInfo && !s.mapInfo[id].fInTried && s.mapInfo[id].nRefCount == 0 }

  ghost function Excess(s: State): int { s.nNew - |NewIds(s) - Limbo(s)| }

  /** All indexes but mapAddr agree, except that entries may still wait for a reference and nNew counts what
      the stream announced. */
  ghost predicate Loading(env: Env, s: State) { Core(env, s, Limbo(s), Excess(s)) }

  /** What mapAddr has in common with a consistent one even if two entries have the same address: every
      address is in it, and leads to an entry that has it. */
  ghost predicate Addressed(s: State) {
    && (forall id :: id in s.mapInfo ==> s.mapInfo[id].service.net in s.mapAddr)
    && (forall a :: a in s.mapAddr ==> s.mapAddr[a] in s.mapInfo && s.mapInfo[s.mapAddr[a]].service.net == a)
  }

  /** The sets that an invariant speaks of are the ones above. */
  lemma IsLoading(env: Env, s: State, limbo: set<int>, excess: int)
    requires Core(env, s, limbo, excess)
    ensures Loading(env, s) && Limbo(s) == limbo && Excess(s) == excess
  {
    forall id ensures id in Limbo(s) <==> id in limbo {}
    assert Limbo(s) == limbo;
  }

  // ---------------------------------------------------------------- loading one entry

  function AddressOf(x: Stored): Address { Address(x.service, x.nServices, x.nTime) }

  /** A new entry with the next id. */
  function Enter(s: State, x: Stored): State {
    var t := Create(s, AddressOf(x), x.source);
    Update(t, s.nIdCount, t.mapInfo[s.nIdCount].(nLastSuccess := x.nLastSuccess, nAttempts := x.nAttempts))
  }

  lemma EnterKeeps(env: Env, s: State, x: Stored)
    requires Loading(env, s)
    ensures var t := Enter(s, x);
            && Loading(env, t) && Limbo(t) == Limbo(s) + {s.nIdCount} && Excess(t) == Excess(s) && s.nIdCount !in s.mapInfo
  {
    hide Core, Create;
    CreateCore(env, s, Limbo(s), Excess(s), AddressOf(x), x.source);
    var t := Create(s, AddressOf(x), x.source);
    CreatedEntry(s, AddressOf(x), x.source);
    UpdateCore(env, t, s.nIdCount, t.mapInfo[s.nIdCount].(nLastSuccess := x.nLastSuccess, nAttempts := x.nAttempts), Limbo(s) + {s.nIdCount}, Excess(s));
    IsLoading(env, Enter(s, x), Limbo(s) + {s.nIdCount}, Excess(s));
  }

  lemma CreatedEntry(s: State, addr: Address, source: NetAddr)
    ensures s.nIdCount in Create(s, addr, source).mapInfo
  {}

  /** If the table of new entries cannot be used: a reference based on the primary source address. */
  ghost function FileDirectly(env: Env, s: State, id: int): State
    requires Loading(env, s) && id in s.mapInfo
  {
    var b := NewBucket(env, s.nKey, s.mapInfo[id].service, s.mapInfo[id].source);
    var p := NewPos(env, s, b, id);
    LoadingShaped(env, s);
    if s.vvNew[b][p] == -1 then Slot(s, b, p, id) else s
  }

  lemma LoadingShaped(env: Env, s: State)
    requires Loading(env, s)
    ensures Shaped(s.vvNew, NEW_BUCKET_COUNT) && Shaped(s.vvTried, TRIED_BUCKET_COUNT)
  {}

  lemma SlotLoads(env: Env, s: State, b: int, p: int, id: int)
    requires Loading(env, s) && 0 <= b < NEW_BUCKET_COUNT && 0 <= p < BUCKET_SIZE && s.vvNew[b][p] == -1
    requires id in s.mapInfo && !s.mapInfo[id].fInTried && s.mapInfo[id].nRefCount < NEW_BUCKETS_PER_ADDRESS && p == NewPos(env, s, b, id)
    ensures Loading(env, Slot(s, b, p, id)) && Limbo(Slot(s, b, p, id)) == Limbo(s) - {id}
  {
    LoadingShaped(env, s);
    hide Core;
    SlotCore(env, s, Limbo(s), Excess(s), b, p, id);
    IsLoading(env, Slot(s, b, p, id), Limbo(s) - {id}, if id in Limbo(s) then Excess(s) - 1 else Excess(s));
  }

  lemma FileDirectlyKeeps(env: Env, s: State, id: int)
    requires Loading(env, s) && id in Limbo(s)
    ensures Loading(env, FileDirectly(env, s, id))
  {
    LoadingShaped(env, s);
    var b := NewBucket(env, s.nKey, s.mapInfo[id].service, s.mapInfo[id].source);
    hide Core;
    if s.vvNew[b][NewPos(env, s, b, id)] == -1 { SlotLoads(env, s, b, NewPos(env, s, b, id), id); }
  }

  ghost function LoadNew(env: Env, s: State, x: Stored, direct: bool): State
    requires Loading(env, s)
  {
    EnterKeeps(env, s, x);
    var t := Enter(s, x);
    if direct then FileDirectly(env, t, s.nIdCount) else t
  }

  /** A tried entry is lost if its slot is taken. */
  ghost function LoadTried(env: Env, s: State, x: Stored): State
    requires Loading(env, s)
  {
    var slot := TriedSlot(env, s.nKey, x.service);
    LoadingShaped(env, s);
    if s.vvTried[slot.0][slot.1] == -1 then Try(Enter(s, x), slot.0, slot.1, s.nIdCount) else s
  }

  /** The fields that an entry of the stream brings. */
  lemma EnterEffect(s: State, x: Stored)
    requires s.nIdCount !in s.mapInfo
    ensures var t := Enter(s, x);
            && t.nIdCount == s.nIdCount + 1 && t.nKey == s.nKey && t.vvNew == s.vvNew && t.vvTried == s.vvTried
            && t.nNew == s.nNew && t.nTried == s.nTried
            && t.mapInfo.Keys == s.mapInfo.Keys + {s.nIdCount} && (forall id :: id in s.mapInfo ==> t.mapInfo[id] == s.mapInfo[id])
            && ToStored(t.mapInfo[s.nIdCount]) == x && !t.mapInfo[s.nIdCount].fInTried && t.mapInfo[s.nIdCount].nRefCount == 0
            && t.mapInfo[s.nIdCount].nLastTry == 0
            && t.mapAddr == s.mapAddr[x.service.net := s.nIdCount]
            && NewIds(t) == NewIds(s) + {s.nIdCount}
  {
    var t := Enter(s, x);
    assert t.mapInfo.Keys == s.mapInfo.Keys + {s.nIdCount};
    forall id ensures id in NewIds(t) <==> id in NewIds(s) + {s.nIdCount} {}
  }

  lemma EnterAddressed(s: State, t: State, x: Stored)
    requires s.nIdCount !in s.mapInfo && t == Enter(s, x)
    ensures Addressed(s) ==> Addressed(t)
  {
    EnterEffect(s, x);
    hide Enter;
    assert t.mapInfo[s.nIdCount].service == x.service;
  }

  lemma AddressedSame(s: State, t: State)
    requires t.mapAddr == s.mapAddr && t.mapInfo.Keys == s.mapInfo.Keys && forall id :: id in s.mapInfo ==> t.mapInfo[id].service == s.mapInfo[id].service
    ensures Addressed(s) ==> Addressed(t)
  {
    if Addressed(s) {
      forall id | id in t.mapInfo ensures t.mapInfo[id].service.net in t.mapAddr { assert id in s.mapInfo; }
      forall a | a in t.mapAddr ensures t.mapAddr[a] in t.mapInfo && t.mapInfo[t.mapAddr[a]].service.net == a {
        var id := s.mapAddr[a];
        assert id in s.mapInfo;
      }
    }
  }

  lemma LoadNewKeeps(env: Env, s: State, x: Stored, direct: bool)
    requires Loading(env, s)
    ensures var t := LoadNew(env, s, x, direct);
            && Loading(env, t) && t.nIdCount == s.nIdCount + 1 && t.nKey == s.nKey && t.nNew == s.nNew && t.nTried == s.nTried
            && |NewIds(t)| == |NewIds(s)| + 1 && (Addressed(s) ==> Addressed(t))
            && t.mapInfo.Keys == s.mapInfo.Keys + {s.nIdCount} && s.nIdCount !in s.mapInfo
            && !t.mapInfo[s.nIdCount].fInTried && (forall id :: id in s.mapInfo ==> t.mapInfo[id].fInTried == s.mapInfo[id].fInTried)
  {
    hide Core;
    EnterKeeps(env, s, x);
    EnterEffect(s, x);
    var t := Enter(s, x);
    assert s.nIdCount in Limbo(t);
    FileDirectlyKeeps(env, t, s.nIdCount);
    FileDirectlyEffect(env, t, s.nIdCount);
    assert s.nIdCount !in NewIds(s);
    EnterAddressed(s, t, x);
    AddressedSame(t, LoadNew(env, s, x, direct));
  }

  lemma FileDirectlyEffect(env: Env, s: State, id: int)
    requires Loading(env, s) && id in s.mapInfo
    ensures SameButReferences(s, FileDirectly(env, s, id))
  {
    LoadingShaped(env, s);
    hide Core;
    var b := NewBucket(env, s.nKey, s.mapInfo[id].service, s.mapInfo[id].source);
    if s.vvNew[b][NewPos(env, s, b, id)] == -1 { SlotSame(s, b, NewPos(env, s, b, id), id); } else { SelfSame(s); }
  }

  /** Everything but the new table and the reference counts. */
  ghost predicate SameButReferences(s: State, t: State) {
    && t.nIdCount == s.nIdCount && t.nKey == s.nKey && t.nNew == s.nNew && t.nTried == s.nTried && t.vvTried == s.vvTried
    && t.mapAddr == s.mapAddr && t.vRandom == s.vRandom && t.mapInfo.Keys == s.mapInfo.Keys && NewIds(t) == NewIds(s)
    && forall id :: id in s.mapInfo ==> t.mapInfo[id] == s.mapInfo[id].(nRefCount := t.mapInfo[id].nRefCount)
  }

  lemma SelfSame(s: State)
    ensures SameButReferences(s, s)
  {}

  lemma SlotSame(s: State, b: int, p: int, id: int)
    requires Shaped(s.vvNew, NEW_BUCKET_COUNT) && 0 <= b < NEW_BUCKET_COUNT && 0 <= p < BUCKET_SIZE && id in s.mapInfo
    ensures SameButReferences(s, Slot(s, b, p, id))
  {
    var t := Slot(s, b, p, id);
    assert t.mapInfo.Keys == s.mapInfo.Keys;
    forall x ensures x in NewIds(t) <==> x in NewIds(s) {}
  }

  lemma TryLoads(env: Env, s: State, b: int, p: int, id: int)
    requires Loading(env, s) && id in Limbo(s) && (b, p) == TriedSlot(env, s.nKey, s.mapInfo[id].service)
    requires Shaped(s.vvTried, TRIED_BUCKET_COUNT) && s.vvTried[b][p] == -1
    ensures Loading(env, Try(s, b, p, id)) && NewIds(Try(s, b, p, id)) == NewIds(s) - {id}
  {
    hide Core;
    TryCore(env, s, Limbo(s), Excess(s), b, p, id);
    var u := Try(s, b, p, id);
    IsLoading(env, u, Limbo(s) - {id}, Excess(s));
    forall x ensures x in NewIds(u) <==> x in NewIds(s) - {id} {}
  }

  lemma LoadTriedKeeps(env: Env, s: State, x: Stored)
    requires Loading(env, s)
    ensures Loading(env, LoadTried(env, s, x)) && TriedKept(s, LoadTried(env, s, x))
  {
    hide Core, Enter, Loading, Limbo, NewIds, TriedBucket, BucketPosition, Addressed, TriedKept, Try;
    LoadingShaped(env, s);
    EnterKeeps(env, s, x);
    EnterEffect(s, x);
    SlotRange(env, s.nKey, x.service);
    var slot := TriedSlot(env, s.nKey, x.service);
    if s.vvTried[slot.0][slot.1] == -1 {
      var t := Enter(s, x);
      InLimbo(s, s.nIdCount, t);
      TryLoads(env, t, slot.0, slot.1, s.nIdCount);
      EnterAddressed(s, t, x);
      TryKept(s, t, slot.0, slot.1);
    } else {
      TriedKeptSame(s);
    }
  }

  ghost predicate TriedKept(s: State, t: State) {
    && t.nKey == s.nKey && t.nNew == s.nNew && NewIds(t) == NewIds(s)
    && (Addressed(s) ==> Addressed(t))
    && s.nTried <= t.nTried <= s.nTried + 1
    && (forall id :: id in s.mapInfo ==> id in t.mapInfo && t.mapInfo[id].fInTried == s.mapInfo[id].fInTried)
  }

  lemma TriedKeptSame(s: State)
    ensures TriedKept(s, s)
  {}

  lemma TryKept(s: State, t: State, b: int, p: int)
    requires Shaped(t.vvTried, TRIED_BUCKET_COUNT) && 0 <= b < TRIED_BUCKET_COUNT && 0 <= p < BUCKET_SIZE
    requires t.nKey == s.nKey && t.nNew == s.nNew && t.nTried == s.nTried && s.nIdCount !in s.mapInfo
    requires t.mapInfo.Keys == s.mapInfo.Keys + {s.nIdCount} && (forall id :: id in s.mapInfo ==> t.mapInfo[id] == s.mapInfo[id])
    requires (Addressed(s) ==> Addressed(t)) && NewIds(Try(t, b, p, s.nIdCount)) == NewIds(s)
    ensures TriedKept(s, Try(t, b, p, s.nIdCount))
  {
    hide Addressed, NewIds;
    AddressedSame(t, Try(t, b, p, s.nIdCount));
  }

  lemma InLimbo(s: State, id: int, t: State)
    requires id !in s.mapInfo && Limbo(t) == Limbo(s) + {id} && NewIds(t) == NewIds(s) + {id}
    ensures id in Limbo(t) && NewIds(t) - {id} == NewIds(s)
  {
    assert id !in NewIds(s);
  }

  // ---------------------------------------------------------------- loading all entries

  /** The new entries of the stream get the next ids in order. */
  ghost predicate NewsLoaded(s: State, t: State, xs: seq<Stored>) {
    && t.nKey == s.nKey && t.nNew == s.nNew && t.nTried == s.nTried
    && t.nIdCount == s.nIdCount + |xs| && |NewIds(t)| == |NewIds(s)| + |xs|
    && (Addressed(s) ==> Addressed(t))
    && (forall id :: id in t.mapInfo <==> id in s.mapInfo || s.nIdCount <= id < t.nIdCount)
    && (forall id :: id in t.mapInfo ==> t.mapInfo[id].fInTried == if id in s.mapInfo then s.mapInfo[id].fInTried else false)
  }

  lemma NewsLoadedNone(s: State)
    ensures NewsLoaded(s, s, [])
  {}

  lemma NewsLoadedNext(env: Env, s: State, u: State, xs: seq<Stored>, direct: bool)
    requires xs != [] && Loading(env, u) && NewsLoaded(s, u, xs[..|xs| - 1])
    ensures var x := xs[|xs| - 1]; Loading(env, LoadNew(env, u, x, direct)) && NewsLoaded(s, LoadNew(env, u, x, direct), xs)
  {
    hide Core, Loading, LoadNew, NewIds, Addressed;
    LoadNewKeeps(env, u, xs[|xs| - 1], direct);
  }

  ghost function LoadNews(env: Env, s: State, xs: seq<Stored>, direct: bool): (t: State)
    requires Loading(env, s)
    ensures Loading(env, t) && NewsLoaded(s, t, xs)
  {
    hide Loading, NewsLoaded, LoadNew;
    if xs == [] then
      NewsLoadedNone(s);
      s
    else
      var u := LoadNews(env, s, xs[..|xs| - 1], direct);
      NewsLoadedNext(env, s, u, xs, direct);
      LoadNew(env, u, xs[|xs| - 1], direct)
  }

  ghost predicate TriedsLoaded(s: State, t: State, xs: seq<Stored>) {
    && t.nKey == s.nKey && t.nNew == s.nNew && NewIds(t) == NewIds(s)
    && s.nTried <= t.nTried <= s.nTried + |xs|
    && (Addressed(s) ==> Addressed(t))
    && (forall id :: id in s.mapInfo ==> id in t.mapInfo && t.mapInfo[id].fInTried == s.mapInfo[id].fInTried)
  }

  lemma TriedsLoadedNone(s: State)
    ensures TriedsLoaded(s, s, [])
  {}

  lemma TriedsLoadedNext(env: Env, s: State, u: State, xs: seq<Stored>)
    requires xs != [] && Loading(env, u) && TriedsLoaded(s, u, xs[..|xs| - 1])
    ensures var x := xs[|xs| - 1]; Loading(env, LoadTried(env, u, x)) && TriedsLoaded(s, LoadTried(env, u, x), xs)
  {
    hide Core, Loading, LoadTried, NewIds, Addressed;
    LoadTriedKeeps(env, u, xs[|xs| - 1]);
  }

  ghost function LoadTrieds(env: Env, s: State, xs: seq<Stored>): (t: State)
    requires Loading(env, s)
    ensures Loading(env, t) && TriedsLoaded(s, t, xs)
  {
    hide Loading, TriedsLoaded, LoadTried;
    if xs == [] then
      TriedsLoadedNone(s);
      s
    else
      var u := LoadTrieds(env, s, xs[..|xs| - 1]);
      TriedsLoadedNext(env, s, u, xs);
      LoadTried(env, u, xs[|xs| - 1])
  }

  // ---------------------------------------------------------------- the positions in the new table

  /** One index of a bucket: filed if it names a new entry, the slot is free and the entry has room. */
  ghost function FileIndex(env: Env, s: State, b: int, nIndex: int): State
    requires Loading(env, s) && 0 <= b < NEW_BUCKET_COUNT
    requires 0 <= nIndex < s.nNew ==> nIndex in s.mapInfo
  {
    LoadingShaped(env, s);
    if 0 <= nIndex < s.nNew && s.vvNew[b][NewPos(env, s, b, nIndex)] == -1 && s.mapInfo[nIndex].nRefCount < NEW_BUCKETS_PER_ADDRESS
    then Slot(s, b, NewPos(env, s, b, nIndex), nIndex) else s
  }

  /** The ids below nNew are the new entries. */
  ghost predicate NewsFirst(s: State) { forall id :: 0 <= id < s.nNew ==> id in s.mapInfo && !s.mapInfo[id].fInTried }

  lemma FileIndexKeeps(env: Env, s: State, b: int, nIndex: int)
    requires Loading(env, s) && NewsFirst(s) && 0 <= b < NEW_BUCKET_COUNT
    ensures Loading(env, FileIndex(env, s, b, nIndex)) && SameButReferences(s, FileIndex(env, s, b, nIndex)) && NewsFirst(FileIndex(env, s, b, nIndex))
  {
    hide Core, Loading, NewIds, SameButReferences, BucketPosition, Slot;
    LoadingShaped(env, s);
    SelfSame(s);
    if 0 <= nIndex < s.nNew {
      var p := NewPos(env, s, b, nIndex);
      PositionRange(env, s, b, nIndex);
      if s.vvNew[b][p] == -1 && s.mapInfo[nIndex].nRefCount < NEW_BUCKETS_PER_ADDRESS {
        SlotLoads(env, s, b, p, nIndex);
        SlotSame(s, b, p, nIndex);
        NewsFirstKept(s, Slot(s, b, p, nIndex));
      }
    }
  }

  lemma PositionRange(env: Env, s: State, b: int, id: int)
    requires id in s.mapInfo
    ensures 0 <= NewPos(env, s, b, id) < BUCKET_SIZE
  {}

  lemma NewsFirstKept(s: State, t: State)
    requires NewsFirst(s) && SameButReferences(s, t)
    ensures NewsFirst(t)
  {}

  lemma SameChain(s: State, t: State, u: State)
    requires SameButReferences(s, t) && SameButReferences(t, u)
    ensures SameButReferences(s, u)
  {
    hide NewIds;
  }

  ghost function FileRow(env: Env, s: State, b: int, row: seq<int>): (t: State)
    requires Loading(env, s) && NewsFirst(s) && 0 <= b < NEW_BUCKET_COUNT
    ensures Loading(env, t) && NewsFirst(t) && SameButReferences(s, t)
  {
    hide Loading, NewsFirst, SameButReferences;
    SelfSame(s);
    if row == [] then s
    else
      var u := FileRow(env, s, b, row[..|row| - 1]);
      FileIndexKeeps(env, u, b, row[|row| - 1]);
      NewsThere(u, row[|row| - 1]);
      SameChain(s, u, FileIndex(env, u, b, row[|row| - 1]));
      FileIndex(env, u, b, row[|row| - 1])
  }

  lemma NewsThere(s: State, nIndex: int)
    requires NewsFirst(s)
    ensures 0 <= nIndex < s.nNew ==> nIndex in s.mapInfo
  {}

  ghost function FileRows(env: Env, s: State, rows: seq<seq<int>>): (t: State)
    requires Loading(env, s) && NewsFirst(s) && |rows| <= NEW_BUCKET_COUNT
    ensures Loading(env, t) && NewsFirst(t) && SameButReferences(s, t)
  {
    hide Loading, NewsFirst, SameButReferences;
    SelfSame(s);
    if rows == [] then s
    else
      var n := |rows| - 1;
      var u := FileRows(env, s, rows[..n]);
      var t := FileRow(env, u, n, rows[n]);
      SameChain(s, u, t);
      t
  }

  // ---------------------------------------------------------------- pruning

  /** With some entries deleted: their addresses are gone from mapAddr, even if others have them too. */
  ghost predicate Forgot(s: State, t: State) {
    && (forall id :: id in t.mapInfo ==> id in s.mapInfo && t.mapInfo[id].service == s.mapInfo[id].service)
    && (forall a :: a in t.mapAddr ==> a in s.mapAddr && t.mapAddr[a] == s.mapAddr[a])
    && (forall id :: id in s.mapInfo && id !in t.mapInfo ==> s.mapInfo[id].service.net !in t.mapAddr)
    && (forall a :: a in s.mapAddr && a !in t.mapAddr ==> exists id :: id in s.mapInfo && id !in t.mapInfo && s.mapInfo[id].service.net == a)
  }

  lemma ForgotNone(s: State)
    ensures Forgot(s, s)
  {}

  lemma ForgotOne(s: State, u: State, t: State, k: int)
    requires Forgot(s, u) && k in u.mapInfo && t.mapInfo.Keys == u.mapInfo.Keys - {k}
    requires (forall id :: id in t.mapInfo ==> t.mapInfo[id].service == u.mapInfo[id].service)
    requires t.mapAddr == u.mapAddr - {u.mapInfo[k].service.net}
    ensures Forgot(s, t)
  {
    forall a | a in s.mapAddr && a !in t.mapAddr ensures exists id :: id in s.mapInfo && id !in t.mapInfo && s.mapInfo[id].service.net == a {
      if a in u.mapAddr { assert s.mapInfo[k].service.net == a; }
    }
  }

  /** New entries without a reference below `k` deleted, in the order of their ids. */
  ghost function Pruned(env: Env, s: State, k: nat): (t: State)
    requires Loading(env, s)
    ensures Loading(env, t) && s.nNew - t.nNew == |NewIds(s)| - |NewIds(t)| && Limbo(t) == (set id | id in Limbo(s) && id >= k)
    ensures t.nTried == s.nTried && t.nKey == s.nKey && t.vvNew == s.vvNew && t.vvTried == s.vvTried
    ensures t.mapInfo.Keys == s.mapInfo.Keys - (Limbo(s) - Limbo(t)) && Forgot(s, t)
  {
    hide Core, Loading, Limbo, NewIds, CanDelete, Delete, Forgot;
    if k == 0 then
      LimboFromZero(env, s);
      ForgotNone(s);
      s
    else
      var u := Pruned(env, s, k - 1);
      PruneStep(env, s, u, k - 1);
      if k - 1 in Limbo(u) then ForgotOne(s, u, Delete(u, k - 1), k - 1); Delete(u, k - 1) else u
  }

  lemma LimboFromZero(env: Env, s: State)
    requires Loading(env, s)
    ensures Limbo(s) == (set id | id in Limbo(s) && id >= 0)
    ensures s.mapInfo.Keys == s.mapInfo.Keys - (Limbo(s) - Limbo(s))
  {
    forall id ensures id in Limbo(s) ==> id >= 0 {}
  }

  lemma PruneStep(env: Env, s: State, u: State, k: nat)
    requires Loading(env, u) && Limbo(u) == (set id | id in Limbo(s) && id >= k) && u.mapInfo.Keys == s.mapInfo.Keys - (Limbo(s) - Limbo(u))
    ensures k !in Limbo(u) ==> Limbo(u) == (set id | id in Limbo(s) && id >= k + 1)
    ensures k in Limbo(u) ==>
              CanDelete(u, k) &&
              var t := Delete(u, k);
              && Loading(env, t) && t.nNew == u.nNew - 1 && |NewIds(t)| == |NewIds(u)| - 1
              && Limbo(t) == (set id | id in Limbo(s) && id >= k + 1) && t.mapInfo.Keys == s.mapInfo.Keys - (Limbo(s) - Limbo(t))
              && t.nTried == u.nTried && t.nKey == u.nKey && t.vvNew == u.vvNew && t.vvTried == u.vvTried
              && k in u.mapInfo && t.mapInfo.Keys == u.mapInfo.Keys - {k} && t.mapAddr == u.mapAddr - {u.mapInfo[k].service.net}
              && (forall id :: id in t.mapInfo ==> t.mapInfo[id].service == u.mapInfo[id].service)
  {
    hide Core, SwapRandom, CanSwap;
    if k in Limbo(u) {
      assert u.nNew == u.nNew;
      DeleteCore(env, u, Limbo(u), Excess(u), k);
      DeleteEffect(u, k);
      var t := Delete(u, k);
      IsLoading(env, t, Limbo(u) - {k}, Excess(u) - 1);
      hide Limbo, CanDelete, Delete, NewIds, Loading;
      LimboNext(s, u, t, k);
    } else {
      hide Limbo, CanDelete, Delete, NewIds, Loading;
      LimboSkip(s, u, k);
    }
  }

  lemma LimboNext(s: State, u: State, t: State, k: nat)
    requires Limbo(u) == (set id | id in Limbo(s) && id >= k) && Limbo(t) == Limbo(u) - {k} && k in Limbo(u)
    requires u.mapInfo.Keys == s.mapInfo.Keys - (Limbo(s) - Limbo(u)) && t.mapInfo.Keys == u.mapInfo.Keys - {k}
    ensures Limbo(t) == (set id | id in Limbo(s) && id >= k + 1) && t.mapInfo.Keys == s.mapInfo.Keys - (Limbo(s) - Limbo(t))
  {
    hide Limbo;
  }

  lemma LimboSkip(s: State, u: State, k: nat)
    requires Limbo(u) == (set id | id in Limbo(s) && id >= k) && k !in Limbo(u)
    ensures Limbo(u) == (set id | id in Limbo(s) && id >= k + 1)
  {
    hide Limbo;
  }

  lemma DeleteEffect(s: State, id: int)
    requires CanDelete(s, id)
    ensures var t := Delete(s, id);
            && t.nNew == s.nNew - 1 && |NewIds(t)| == |NewIds(s)| - 1 && t.mapInfo.Keys == s.mapInfo.Keys - {id}
            && t.nTried == s.nTried && t.nKey == s.nKey && t.vvNew == s.vvNew && t.vvTried == s.vvTried
            && t.mapAddr == s.mapAddr - {s.mapInfo[id].service.net} && (forall x :: x in t.mapInfo ==> t.mapInfo[x].service == s.mapInfo[x].service)
  {
    var t := Delete(s, id);
    var u := SwapRandom(s, s.mapInfo[id].nRandomPos, |s.vRandom| - 1);
    assert u.mapInfo.Keys == s.mapInfo.Keys;
    assert t.mapInfo.Keys == s.mapInfo.Keys - {id};
    forall x ensures x in NewIds(t) <==> x in NewIds(s) - {id} {}
    assert NewIds(t) == NewIds(s) - {id};
  }

  // ---------------------------------------------------------------- the whole stream

  /** The table of new entries in the stream can be used. */
  predicate Usable(x: Stream) { x.nVersion == 1 && x.nUBuckets == NEW_BUCKET_COUNT }

  /** The lists have the lengths that were announced: otherwise reading fails. */
  predicate Complete(x: Stream) { x.nKeySize == 32 && |x.buckets| == if x.nUBuckets < 0 then 0 else x.nUBuckets }

  ghost function Start(x: Stream): State { Empty(x.nKey).(nNew := |x.news|) }

  lemma StartLoads(env: Env, x: Stream)
    ensures Loading(env, Start(x)) && NewIds(Start(x)) == {} && Addressed(Start(x))
  {
    EmptyConsistent(env, x.nKey);
    var s := Start(x);
    assert Limbo(s) == {} && NewIds(s) == {} && TriedIds(s) == {};
  }

  /** Everything but the pruning: all entries of the stream are there, with the slots they got. */
  ghost function AllEntered(env: Env, x: Stream): (t: State)
    requires Complete(x)
    ensures Loading(env, t) && Addressed(t) && t.nNew == |NewIds(t)|
  {
    hide Loading, Start, NewsLoaded, TriedsLoaded, NewsFirst, NewIds, Addressed, SameButReferences;
    StartLoads(env, x);
    var s1 := LoadNews(env, Start(x), x.news, !Usable(x));
    var s2 := LoadTrieds(env, s1, x.trieds);
    NewsFirstThen(env, x, s1, s2);
    if Usable(x) then SameFacts(s2, FileRows(env, s2, x.buckets)); FileRows(env, s2, x.buckets) else s2
  }

  lemma SameFacts(s: State, t: State)
    requires SameButReferences(s, t) && Addressed(s) && s.nNew == |NewIds(s)|
    ensures Addressed(t) && t.nNew == |NewIds(t)|
  {
    hide NewIds, Addressed;
    AddressedSame(s, t);
  }

  /** Unserialize into a new manager. */
  ghost function Load(env: Env, x: Stream): (t: State)
    requires Complete(x)
    ensures Loading(env, t)
  {
    hide Loading;
    var s := AllEntered(env, x);
    Pruned(env, s, if s.nIdCount < 0 then 0 else s.nIdCount)
  }

  lemma NewsFirstThen(env: Env, x: Stream, s1: State, s2: State)
    requires NewsLoaded(Start(x), s1, x.news) && TriedsLoaded(s1, s2, x.trieds)
    ensures NewsFirst(s2) && s2.nNew == |x.news| == |NewIds(s2)| && Addressed(s2)
  {
    StartLoads(env, x);
    hide NewIds, Addressed, Core;
  }

  lemma IdsBelowCount(env: Env, s: State, id: int)
    requires Loading(env, s) && id in s.mapInfo
    ensures 0 <= id < s.nIdCount
  {}

  // ---------------------------------------------------------------- when what is loaded is consistent

  /** An entry that has a slot shares its address with another one. */
  ghost predicate Clash(s: State) {
    exists i, j :: i in s.mapInfo && j in s.mapInfo && i != j && s.mapInfo[i].service.net == s.mapInfo[j].service.net && i !in Limbo(s)
  }

  lemma ForgottenIndex(s: State, t: State)
    requires Numbered(s.mapInfo, s.nIdCount) && Numbered(t.mapInfo, t.nIdCount) && Addressed(s) && Forgot(s, t) && t.mapInfo.Keys == s.mapInfo.Keys - Limbo(s)
    ensures AddrIndexed(t.mapInfo, t.mapAddr, t.nIdCount) <==> !Clash(s)
  {
    hide Limbo;
    if i, j :| i in s.mapInfo && j in s.mapInfo && i != j && s.mapInfo[i].service.net == s.mapInfo[j].service.net && i !in Limbo(s) {
      assert i in t.mapInfo;
      assert j in t.mapInfo || s.mapInfo[j].service.net !in t.mapAddr;
    } else {
      forall id | id in t.mapInfo ensures t.mapInfo[id].service.net in t.mapAddr && t.mapAddr[t.mapInfo[id].service.net] == id {
        var a := s.mapInfo[id].service.net;
        assert s.mapAddr[a] == id;
        assert forall k :: k in s.mapInfo && s.mapInfo[k].service.net == a ==> k == id;
      }
    }
  }

  /** Whatever the stream lists, all indexes but mapAddr agree after loading. mapAddr does too if and only if
      no entry that has a slot in the end shares its address with another entry, be it one that has been
      pruned. */
  lemma LoadConsistentIff(env: Env, x: Stream)
    requires Complete(x)
    ensures Core(env, Load(env, x), {}, 0)
    ensures Consistent(env, Load(env, x)) <==> !Clash(AllEntered(env, x))
  {
    hide Core, Limbo, Loading, NewIds, Clash, AddrIndexed, Addressed, Forgot, AllEntered;
    var s, t := AllEntered(env, x), Load(env, x);
    LimboEmpty(env, s, t);
    CoreNumbers(env, s);
    CoreNumbers(env, t);
    LoadingDone(env, t);
    ForgottenIndex(s, t);
  }

  lemma CoreNumbers(env: Env, s: State)
    requires Loading(env, s)
    ensures Numbered(s.mapInfo, s.nIdCount)
  {}

  lemma LimboEmpty(env: Env, s: State, t: State)
    requires Loading(env, s) && Limbo(t) == (set id | id in Limbo(s) && id >= if s.nIdCount < 0 then 0 else s.nIdCount)
    ensures Limbo(t) == {}
  {
    hide Loading;
    forall id ensures id !in Limbo(t) { if id in Limbo(s) { IdsBelowCount(env, s, id); } }
    NothingIn(Limbo(t));
  }

  lemma LoadingDone(env: Env, t: State)
    requires Loading(env, t) && Limbo(t) == {} && t.nNew == |NewIds(t)|
    ensures Core(env, t, {}, 0)
  {
    hide Core;
    assert NewIds(t) - {} == NewIds(t);
  }

  // ---------------------------------------------------------------- streams that load consistently

  /** No two entries of the lists have the same address. */
  ghost predicate Distinct(xs: seq<Stored>) { forall i, j :: 0 <= i < j < |xs| ==> xs[i].service.net != xs[j].service.net }

  /** An address occurs twice at most among the tried entries, and then for the same slot. */
  ghost predicate Harmless(env: Env, x: Stream) {
    && Distinct(x.news)
    && (forall i, j :: 0 <= i < |x.news| && 0 <= j < |x.trieds| ==> x.news[i].service.net != x.trieds[j].service.net)
    && SameSlots(env, x.nKey, x.trieds)
  }

  ghost predicate SameSlots(env: Env, key: nat, ys: seq<Stored>) {
    forall i, j :: 0 <= i < j < |ys| && ys[i].service.net == ys[j].service.net ==> TriedSlot(env, key, ys[i].service) == TriedSlot(env, key, ys[j].service)
  }

  lemma DistinctHarmless(env: Env, x: Stream)
    requires Distinct(x.news + x.trieds)
    ensures Harmless(env, x)
  {
    var zs, n := x.news + x.trieds, |x.news|;
    forall i, j | 0 <= i < j < n ensures x.news[i].service.net != x.news[j].service.net { assert zs[i] == x.news[i] && zs[j] == x.news[j]; }
    forall i, j | 0 <= i < j < |x.trieds| ensures x.trieds[i].service.net != x.trieds[j].service.net { assert zs[n + i] == x.trieds[i] && zs[n + j] == x.trieds[j]; }
    forall i, j | 0 <= i < n && 0 <= j < |x.trieds| ensures x.news[i].service.net != x.trieds[j].service.net { assert zs[i] == x.news[i] && zs[n + j] == x.trieds[j]; }
  }

  /** No two entries have the same address. */
  ghost predicate Once(s: State) { forall i, j :: i in s.mapInfo && j in s.mapInfo && s.mapInfo[i].service.net == s.mapInfo[j].service.net ==> i == j }

  ghost function Nets(xs: seq<Stored>): set<NetAddr> { set i | 0 <= i < |xs| :: xs[i].service.net }

  lemma NetsLast(xs: seq<Stored>)
    requires xs != []
    ensures Nets(xs) == Nets(xs[..|xs| - 1]) + {xs[|xs| - 1].service.net}
  {
    var n := |xs| - 1;
    forall a ensures a in Nets(xs) <==> a in Nets(xs[..n]) + {xs[n].service.net} {
      if a in Nets(xs[..n]) { var i :| 0 <= i < n && xs[..n][i].service.net == a; assert xs[i].service.net == a; }
    }
  }

  lemma EnterOnce(s: State, t: State, x: Stored)
    requires Addressed(s) && Once(s) && x.service.net !in s.mapAddr && s.nIdCount !in s.mapInfo && t == Enter(s, x)
    ensures Once(t) && t.mapAddr.Keys == s.mapAddr.Keys + {x.service.net}
  {
    EnterEffect(s, x);
    hide Enter;
    assert t.mapInfo[s.nIdCount].service == x.service;
  }

  lemma OnceSame(s: State, t: State)
    requires Once(s) && t.mapInfo.Keys == s.mapInfo.Keys && forall id :: id in s.mapInfo ==> t.mapInfo[id].service == s.mapInfo[id].service
    ensures Once(t)
  {
    forall i, j | i in t.mapInfo && j in t.mapInfo && t.mapInfo[i].service.net == t.mapInfo[j].service.net ensures i == j {
      assert i in s.mapInfo && j in s.mapInfo;
    }
  }

  lemma {:induction false} NewsOnce(env: Env, s: State, xs: seq<Stored>, direct: bool)
    requires Loading(env, s) && Addressed(s) && Once(s) && s.mapAddr == map[] && Distinct(xs)
    ensures var t := LoadNews(env, s, xs, direct); Once(t) && t.mapAddr.Keys == Nets(xs)
    decreases |xs|
  {
    hide Core, Loading, Addressed, Once, NewsLoaded, Enter, FileDirectly, Limbo, NewIds;
    if xs != [] {
      var n := |xs| - 1;
      var x := xs[n];
      NewsOnce(env, s, xs[..n], direct);
      var u := LoadNews(env, s, xs[..n], direct);
      NewsAddressed(s, u, xs[..n]);
      NetsLast(xs);
      EnterKeeps(env, u, x);
      EnterOnce(u, Enter(u, x), x);
      FileDirectlyEffect(env, Enter(u, x), u.nIdCount) by { EnterEffect(u, x); }
      EnterEffect(u, x);
      OnceSame(Enter(u, x), LoadNew(env, u, x, direct));
    }
  }

  lemma NewsAddressed(s: State, u: State, xs: seq<Stored>)
    requires NewsLoaded(s, u, xs) && Addressed(s)
    ensures Addressed(u)
  {}

  lemma TriedsAddressed(s: State, u: State, xs: seq<Stored>)
    requires TriedsLoaded(s, u, xs) && Addressed(s)
    ensures Addressed(u) && u.nKey == s.nKey
  {}

  /** The slots of the entries in the list are taken. */
  ghost predicate Taken(env: Env, s: State, key: nat, ys: seq<Stored>)
    requires Shaped(s.vvTried, TRIED_BUCKET_COUNT)
  {
    forall i :: 0 <= i < |ys| ==> var slot := TriedSlot(env, key, ys[i].service); s.vvTried[slot.0][slot.1] != -1
  }

  lemma LoadTriedOnce(env: Env, s: State, y: Stored)
    requires Loading(env, s) && Addressed(s) && Once(s) && Shaped(s.vvTried, TRIED_BUCKET_COUNT)
    requires y.service.net in s.mapAddr ==> Taken(env, s, s.nKey, [y])
    ensures var t := LoadTried(env, s, y); Once(t) && t.mapAddr.Keys <= s.mapAddr.Keys + {y.service.net}
  {
    hide Core, Loading, Addressed, Once, Enter, Limbo, NewIds, TriedBucket, BucketPosition, Taken;
    var slot := TriedSlot(env, s.nKey, y.service);
    SlotRange(env, s.nKey, y.service);
    if s.vvTried[slot.0][slot.1] == -1 {
      NotTaken(env, s, s.nKey, y);
      EnterKeeps(env, s, y);
      var t := Enter(s, y);
      EnterEffect(s, y);
      EnterOnce(s, t, y);
      TryOnce(t, slot.0, slot.1, s.nIdCount);
    }
  }

  lemma NotTaken(env: Env, s: State, key: nat, y: Stored)
    requires Shaped(s.vvTried, TRIED_BUCKET_COUNT)
    requires var slot := TriedSlot(env, key, y.service); s.vvTried[slot.0][slot.1] == -1
    ensures !Taken(env, s, key, [y])
  {
    assert [y][0] == y;
  }

  lemma TryOnce(t: State, b: int, p: int, id: int)
    requires Shaped(t.vvTried, TRIED_BUCKET_COUNT) && 0 <= b < TRIED_BUCKET_COUNT && 0 <= p < BUCKET_SIZE
    requires id in t.mapInfo && Once(t)
    ensures Once(Try(t, b, p, id)) && Try(t, b, p, id).mapAddr == t.mapAddr
  {
    hide Once;
    OnceSame(t, Try(t, b, p, id));
  }

  lemma LoadTriedTaken(env: Env, s: State, y: Stored, ys: seq<Stored>)
    requires Loading(env, s) && Shaped(s.vvTried, TRIED_BUCKET_COUNT) && Taken(env, s, s.nKey, ys)
    ensures var t := LoadTried(env, s, y); Shaped(t.vvTried, TRIED_BUCKET_COUNT) && Taken(env, t, s.nKey, ys + [y])
  {
    hide Core, Loading, Enter, TriedBucket, BucketPosition;
    SlotRange(env, s.nKey, y.service);
    EnterKeeps(env, s, y);
    EnterEffect(s, y);
    CoreNumbers(env, s);
    var t, zs := LoadTried(env, s, y), ys + [y];
    forall i | 0 <= i < |zs| ensures var at := TriedSlot(env, s.nKey, zs[i].service);
      0 <= at.0 < TRIED_BUCKET_COUNT && 0 <= at.1 < BUCKET_SIZE && t.vvTried[at.0][at.1] != -1
    {
      SlotRange(env, s.nKey, zs[i].service);
      if i < |ys| { assert zs[i] == ys[i]; }
    }
  }

  lemma NoneTaken(env: Env, s: State, key: nat)
    requires Shaped(s.vvTried, TRIED_BUCKET_COUNT)
    ensures Taken(env, s, key, [])
  {}

  lemma SameSlotTaken(env: Env, s: State, key: nat, ys: seq<Stored>, i: nat, y: Stored)
    requires Shaped(s.vvTried, TRIED_BUCKET_COUNT) && Taken(env, s, key, ys) && i < |ys|
    requires TriedSlot(env, key, ys[i].service) == TriedSlot(env, key, y.service)
    ensures Taken(env, s, key, [y])
  {}

  lemma {:induction false} TriedsOnce(env: Env, s: State, known: set<NetAddr>, ys: seq<Stored>)
    requires Loading(env, s) && Addressed(s) && Once(s) && s.mapAddr.Keys == known && SameSlots(env, s.nKey, ys)
    requires forall j :: 0 <= j < |ys| ==> ys[j].service.net !in known
    ensures var t := LoadTrieds(env, s, ys);
            Once(t) && t.mapAddr.Keys <= known + Nets(ys) && Shaped(t.vvTried, TRIED_BUCKET_COUNT) && Taken(env, t, s.nKey, ys)
    decreases |ys|
  {
    hide Core, Loading, Addressed, Once, TriedsLoaded, LoadTried, Limbo, NewIds, TriedBucket, BucketPosition, Taken;
    LoadingShaped(env, s);
    NoneTaken(env, s, s.nKey);
    if ys != [] {
      var n := |ys| - 1;
      TriedsOnce(env, s, known, ys[..n]);
      var u := LoadTrieds(env, s, ys[..n]);
      TriedsAddressed(s, u, ys[..n]);
      NetsLast(ys);
      if ys[n].service.net in u.mapAddr {
        var i :| 0 <= i < n && ys[..n][i].service.net == ys[n].service.net;
        assert ys[i].service.net == ys[n].service.net;
        SameSlotTaken(env, u, s.nKey, ys[..n], i, ys[n]);
      }
      LoadTriedOnce(env, u, ys[n]);
      LoadTriedTaken(env, u, ys[n], ys[..n]);
      assert ys[..n] + [ys[n]] == ys;
    }
  }

  lemma StartOnce(x: Stream)
    ensures Once(Start(x)) && Start(x).mapAddr == map[] && Start(x).nKey == x.nKey
  {}

  lemma LoadedKey(s: State, t: State, xs: seq<Stored>)
    requires NewsLoaded(s, t, xs)
    ensures t.nKey == s.nKey
  {}

  /** Whatever its version and bucket count, a stream in which no address occurs twice, save for tried
      entries with the same slot, loads into a manager whose indexes all agree. */
  lemma LoadConsistent(env: Env, x: Stream)
    requires Complete(x) && Harmless(env, x)
    ensures Consistent(env, Load(env, x))
  {
    hide Core, Loading, Start, NewsLoaded, TriedsLoaded, NewsFirst, NewIds, Limbo, Addressed, Once, AddrIndexed, SameButReferences, Distinct, SameSlots, Load;
    StartLoads(env, x);
    StartOnce(x);
    NewsOnce(env, Start(x), x.news, !Usable(x));
    var s1 := LoadNews(env, Start(x), x.news, !Usable(x));
    NewsAddressed(Start(x), s1, x.news);
    LoadedKey(Start(x), s1, x.news);
    TriedsOnce(env, s1, Nets(x.news), x.trieds);
    var s2 := LoadTrieds(env, s1, x.trieds);
    NewsFirstThen(env, x, s1, s2);
    assert Once(AllEntered(env, x)) by { if Usable(x) { SameOnce(s2, FileRows(env, s2, x.buckets)); } }
    OnceNoClash(AllEntered(env, x));
    LoadConsistentIff(env, x);
  }

  lemma SameOnce(s: State, t: State)
    requires SameButReferences(s, t) && Once(s)
    ensures Once(t)
  {
    hide NewIds, Once;
    OnceSame(s, t);
  }

  lemma OnceNoClash(s: State)
    requires Once(s)
    ensures !Clash(s)
  {
    hide Limbo;
  }

  lemma OneNew(env: Env, x: Stored, y: Stream)
    requires Loading(env, Start(y)) && y.news == [x] && !Usable(y)
    ensures var s := LoadNews(env, Start(y), y.news, true);
            && 0 in s.mapInfo && s.mapInfo[0].service == x.service && s.nIdCount == 1 && s.nKey == y.nKey && s.vvTried == Start(y).vvTried
  {
    hide Core, Loading, NewsLoaded, NewIds, SameButReferences, Enter, NewBucket, BucketPosition;
    var s := Start(y);
    assert y.news[..0] == [] && LoadNews(env, s, [], true) == s;
    EnterKeeps(env, s, x);
    EnterEffect(s, x);
    FileDirectlyEffect(env, Enter(s, x), s.nIdCount);
    SameTried(Enter(s, x), LoadNew(env, s, x, true));
  }

  lemma OneTried(env: Env, s: State, x: Stored)
    requires Loading(env, s) && Shaped(s.vvTried, TRIED_BUCKET_COUNT)
    requires var slot := TriedSlot(env, s.nKey, x.service); s.vvTried[slot.0][slot.1] == -1
    ensures var t := LoadTrieds(env, s, [x]);
            && s.nIdCount !in s.mapInfo && s.nIdCount in t.mapInfo && t.mapInfo[s.nIdCount].service == x.service && t.mapInfo[s.nIdCount].fInTried
            && forall id :: id in s.mapInfo ==> id in t.mapInfo && t.mapInfo[id] == s.mapInfo[id]
  {
    hide Core, Loading, TriedsLoaded, NewIds, Enter, TriedBucket, BucketPosition;
    assert [x][..0] == [] && LoadTrieds(env, s, []) == s;
    EnterKeeps(env, s, x);
    EnterEffect(s, x);
    SlotRange(env, s.nKey, x.service);
  }

  lemma StartFree(x: Stream)
    ensures var s := Start(x);
            Shaped(s.vvTried, TRIED_BUCKET_COUNT) && forall b, p :: 0 <= b < TRIED_BUCKET_COUNT && 0 <= p < BUCKET_SIZE ==> s.vvTried[b][p] == -1
  {}

  /** Other streams may not: the same entry in both lists, with no buckets, ends up in mapInfo twice. */
  lemma LoadCanClash(env: Env, key: nat, x: Stored)
    ensures var y := Stream(1, 32, key, 0, [x], [x], []);
            Complete(y) && !Consistent(env, Load(env, y))
  {
    hide Core, Loading, Start, NewsLoaded, TriedsLoaded, NewsFirst, NewIds, Addressed, AddrIndexed, SameButReferences, Load, LoadNews, LoadTrieds, TriedBucket, BucketPosition;
    var y := Stream(1, 32, key, 0, [x], [x], []);
    StartLoads(env, y);
    StartFree(y);
    OneNew(env, x, y);
    var s1 := LoadNews(env, Start(y), y.news, true);
    SlotRange(env, key, x.service);
    OneTried(env, s1, x);
    var s2 := LoadTrieds(env, s1, y.trieds);
    assert s2 == AllEntered(env, y);
    assert Clash(s2) by { assert 1 in s2.mapInfo && 0 in s2.mapInfo && 1 !in Limbo(s2); }
    LoadConsistentIff(env, y);
  }

  lemma SameTried(s: State, t: State)
    requires SameButReferences(s, t)
    ensures t.vvTried == s.vvTried && t.nKey == s.nKey && t.nIdCount == s.nIdCount && t.mapInfo.Keys == s.mapInfo.Keys
    ensures forall id :: id in s.mapInfo ==> t.mapInfo[id].service == s.mapInfo[id].service
  {
    hide NewIds;
  }
}
