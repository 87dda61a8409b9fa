/** Serialize and Unserialize as the loops over tables that they are. */
module AddrManStoreRun {
  import opened AddrMan
  import opened AddrManOps
  import opened AddrManRuns
  import opened AddrManClass
  import opened AddrManStore
  import opened AddrManRoundTrip
  import opened Options

  // ---------------------------------------------------------------- saving

  /** The indices given to the entries visited so far. */
  ghost predicate Indexes(m: map<int, AddrInfo>, unk: map<int, int>, k: nat) {
    forall id :: id in m && 0 <= id < k ==> id in unk && unk[id] == Rank(m, id, false)
  }

  /** The entries written so far. */
  ghost predicate Infos(m: map<int, AddrInfo>, k: nat, tried: bool, infos: seq<Stored>) {
    && |infos| == |Ids(m, k, tried)|
    && forall i :: 0 <= i < |infos| ==> Ids(m, k, tried)[i] in m && infos[i] == ToStored(m[Ids(m, k, tried)[i]])
  }

  lemma InfosNext(m: map<int, AddrInfo>, k: nat, n: nat, tried: bool, infos: seq<Stored>)
    requires Infos(m, k, tried, infos) && k < n
    ensures Infos(m, k + 1, tried, infos + if k in m && Selected(m[k], tried) then [ToStored(m[k])] else [])
    ensures k in m && Selected(m[k], tried) ==> |infos| < |Ids(m, n, tried)|
    ensures |infos| == Rank(m, k, tried)
  {
    if k in m && Selected(m[k], tried) { IdsAll(m, n, tried, k); }
  }

  lemma InfosEnd(s: State, tried: bool, infos: seq<Stored>)
    requires Infos(s.mapInfo, Count(s), tried, infos)
    ensures infos == if tried then Trieds(s) else News(s)
  {
    hide Ids;
  }

  lemma InfosStart(m: map<int, AddrInfo>, tried: bool)
    ensures Infos(m, 0, tried, []) && Indexes(m, map[], 0)
  {}

  lemma IndexesNext(m: map<int, AddrInfo>, unk: map<int, int>, k: nat)
    requires Indexes(m, unk, k)
    ensures Indexes(m, if k in m then unk[k := Rank(m, k, false)] else unk, k + 1)
  {
    hide Rank;
  }

  /** The loop over mapInfo for one of the two kinds. The assert on the counter is the one of the source. */
  method SaveEntries(m: Manager, tried: bool, announced: int) returns (infos: seq<Stored>, mapUnkIds: map<int, int>)
    requires m.Shape() && Consistent(m.env, m.Model())
    requires announced == if tried then m.nTried else m.nNew
    ensures infos == (if tried then Trieds(m.Model()) else News(m.Model()))
    ensures !tried ==> Indexes(m.mapInfo, mapUnkIds, Count(m.Model()))
  {
    infos, mapUnkIds := [], map[];
    ghost var s := m.Model();
    SavedCounts(m.env, s);
    AnnouncedIs(s, tried);
    InfosStart(s.mapInfo, tried);
    hide Inv, ToTable, Ids, Infos, Indexes, Rank, News, Trieds;
    var nIds, it := 0, 0;
    while it < m.nIdCount
      invariant 0 <= it <= Count(s) && nIds == |infos| && Infos(s.mapInfo, it, tried, infos)
      invariant !tried ==> Indexes(s.mapInfo, mapUnkIds, it)
    {
      InfosNext(s.mapInfo, it, Count(s), tried, infos);
      if !tried { IndexesNext(s.mapInfo, mapUnkIds, it); }
      if it in m.mapInfo {
        mapUnkIds := mapUnkIds[it := nIds];
        var info := m.mapInfo[it];
        if Selected(info, tried) {
          assert nIds != announced;  // otherwise the counter was wrong
          infos := infos + [ToStored(info)];
          nIds := nIds + 1;
        }
      }
      it := it + 1;
    }
    InfosEnd(s, tried, infos);
  }

  lemma AnnouncedIs(s: State, tried: bool)
    ensures |Ids(s.mapInfo, Count(s), tried)| == if tried then |Trieds(s)| else |News(s)|
  {}

  method SaveBucket(m: Manager, bucket: int, mapUnkIds: map<int, int>) returns (row: seq<int>)
    requires m.Shape() && Consistent(m.env, m.Model()) && 0 <= bucket < NEW_BUCKET_COUNT
    requires Indexes(m.mapInfo, mapUnkIds, Count(m.Model()))
    ensures Shaped(ToTable(m.vvNew), NEW_BUCKET_COUNT) && row == Row(m.Model(), bucket, BUCKET_SIZE)
  {
    hide Core, Rank;
    row := [];
    ghost var s := m.Model();
    ShapedTables(m.env, s);
    for i := 0 to BUCKET_SIZE
      invariant row == Row(s, bucket, i)
    {
      var v := m.vvNew[bucket, i];
      assert s.vvNew[bucket][i] == v;
      if v != -1 {
        NewAt(m.env, s, bucket, i);
        SelectedMeans(m.env, s, v);
        row := row + [mapUnkIds[v]];
      }
    }
  }

  method Serialize(m: Manager) returns (x: Stream)
    requires m.Shape() && Consistent(m.env, m.Model())
    ensures Shaped(ToTable(m.vvNew), NEW_BUCKET_COUNT) && x == Saved(m.Model())
  {
    hide Core, Row, News, Trieds, Indexes, ToTable;
    ghost var s := m.Model();
    ShapedTables(m.env, s);
    var news, mapUnkIds := SaveEntries(m, false, m.nNew);
    var trieds, unused := SaveEntries(m, true, m.nTried);
    var buckets := [];
    for bucket := 0 to NEW_BUCKET_COUNT
      invariant |buckets| == bucket && forall b :: 0 <= b < bucket ==> buckets[b] == Row(s, b, BUCKET_SIZE)
    {
      var row := SaveBucket(m, bucket, mapUnkIds);
      buckets := buckets + [row];
    }
    x := Stream(1, 32, m.nKey, NEW_BUCKET_COUNT, news, trieds, buckets);
    assert x.buckets == Saved(s).buckets;
  }

  // ---------------------------------------------------------------- loading

  method EnterInto(m: Manager, x: Stored) returns (n: int)
    modifies m`nIdCount, m`mapInfo, m`mapAddr, m`vRandom
    ensures n == old(m.nIdCount) && m.Model() == Enter(old(m.Model()), x)
  {
    hide ToTable;
    n := m.nIdCount;
    var info := AddrInfo(x.service, x.nServices, x.nTime, 0, x.source, x.nLastSuccess, x.nAttempts, 0, false, |m.vRandom|);
    m.mapInfo := m.mapInfo[n := info];
    m.mapAddr := m.mapAddr[x.service.net := n];
    m.vRandom := m.vRandom + [n];
    m.nIdCount := n + 1;
  }

  method SlotInto(m: Manager, b: int, p: int, id: int)
    requires m.Shape() && 0 <= b < NEW_BUCKET_COUNT && 0 <= p < BUCKET_SIZE && id in m.mapInfo
    modifies m`mapInfo, m.vvNew
    ensures m.Shape() && Shaped(old(ToTable(m.vvNew)), NEW_BUCKET_COUNT) && m.Model() == Slot(old(m.Model()), b, p, id)
  {
    ghost var s := m.Model();
    assert Shaped(ToTable(m.vvNew), NEW_BUCKET_COUNT);
    hide ToTable;
    m.mapInfo := m.mapInfo[id := m.mapInfo[id].(nRefCount := m.mapInfo[id].nRefCount + 1)];
    SetSlot(m.vvNew, b, p, id);
  }

  method LoadNewInto(m: Manager, x: Stored, direct: bool)
    requires m.Shape() && Loading(m.env, m.Model())
    modifies m`nIdCount, m`mapInfo, m`mapAddr, m`vRandom, m.vvNew
    ensures m.Shape() && m.Model() == LoadNew(m.env, old(m.Model()), x, direct)
  {
    hide Core, Loading, Enter, Slot;
    ghost var s := m.Model();
    EnterKeeps(m.env, s, x);
    EnterEffect(s, x);
    var n := EnterInto(m, x);
    if direct {
      ghost var t := m.Model();
      LoadingShaped(m.env, t);
      var info := m.mapInfo[n];
      var nUBucket := NewBucket(m.env, m.nKey, info.service, info.source);
      var nUBucketPos := BucketPosition(m.env, m.nKey, true, nUBucket, info.service);
      assert t.vvNew[nUBucket][nUBucketPos] == m.vvNew[nUBucket, nUBucketPos];
      if m.vvNew[nUBucket, nUBucketPos] == -1 { SlotInto(m, nUBucket, nUBucketPos, n); }
    }
  }

  method LoadTriedInto(m: Manager, x: Stored) returns (lost: bool)
    requires m.Shape() && Loading(m.env, m.Model())
    modifies m`nIdCount, m`mapInfo, m`mapAddr, m`vRandom, m`nTried, m.vvTried
    ensures m.Shape() && m.Model() == LoadTried(m.env, old(m.Model()), x).(nTried := m.nTried)
    ensures m.nTried == old(m.nTried)
    ensures LoadTried(m.env, old(m.Model()), x).nTried == old(m.nTried) + if lost then 0 else 1
  {
    hide Core, Loading, Enter;
    ghost var s := m.Model();
    LoadingShaped(m.env, s);
    EnterKeeps(m.env, s, x);
    EnterEffect(s, x);
    SlotRange(m.env, m.nKey, x.service);
    var slot := TriedSlot(m.env, m.nKey, x.service);
    assert s.vvTried[slot.0][slot.1] == m.vvTried[slot.0, slot.1];
    if m.vvTried[slot.0, slot.1] != -1 { return true; }
    hide ToTable;
    var n := EnterInto(m, x);
    m.mapInfo := m.mapInfo[n := m.mapInfo[n].(fInTried := true)];
    SetSlot(m.vvTried, slot.0, slot.1, n);
    return false;
  }

  method FileInto(m: Manager, bucket: int, nIndex: int)
    requires m.Shape() && Loading(m.env, m.Model()) && NewsFirst(m.Model()) && 0 <= bucket < NEW_BUCKET_COUNT
    modifies m`mapInfo, m.vvNew
    ensures m.Shape() && NewsFirst(old(m.Model())) && m.Model() == FileIndex(m.env, old(m.Model()), bucket, nIndex)
  {
    hide Core, Loading, Slot;
    ghost var s := m.Model();
    LoadingShaped(m.env, s);
    if 0 <= nIndex < m.nNew {
      var info := m.mapInfo[nIndex];
      var nUBucketPos := BucketPosition(m.env, m.nKey, true, bucket, info.service);
      assert s.vvNew[bucket][nUBucketPos] == m.vvNew[bucket, nUBucketPos];
      if m.vvNew[bucket, nUBucketPos] == -1 && info.nRefCount < NEW_BUCKETS_PER_ADDRESS {
        SlotInto(m, bucket, nUBucketPos, nIndex);
      }
    }
  }

  method FileRowInto(m: Manager, bucket: int, row: seq<int>)
    requires m.Shape() && Loading(m.env, m.Model()) && NewsFirst(m.Model()) && 0 <= bucket < NEW_BUCKET_COUNT
    modifies m`mapInfo, m.vvNew
    ensures m.Shape() && m.Model() == FileRow(m.env, old(m.Model()), bucket, row)
  {
    hide Core, Loading, NewsFirst, FileIndex, ToTable, SameButReferences;
    ghost var s := m.Model();
    for n := 0 to |row|
      invariant m.Shape() && m.Model() == FileRow(m.env, s, bucket, row[..n])
    {
      assert row[..n + 1][..n] == row[..n];
      FileInto(m, bucket, row[n]);
    }
    assert row[..|row|] == row;
  }

  /** The last loop: new entries without a reference are deleted, in the order of their ids. */
  method PruneAll(m: Manager)
    requires m.Shape() && Loading(m.env, m.Model())
    modifies m`mapInfo, m`vRandom, m`mapAddr, m`nNew
    ensures m.Model() == Pruned(m.env, old(m.Model()), Count(old(m.Model())))
  {
    hide Core, Loading, CanDelete, Delete, ToTable, NewIds;
    ghost var s := m.Model();
    var it: nat := 0;
    while it < m.nIdCount
      invariant m.nIdCount == s.nIdCount && (it <= s.nIdCount || it == 0) && m.Model() == Pruned(m.env, s, it)
      decreases m.nIdCount - it
    {
      PruneStep(m.env, s, m.Model(), it);
      if it in m.mapInfo && !m.mapInfo[it].fInTried && m.mapInfo[it].nRefCount == 0 {
        m.Delete_(it);
      }
      it := it + 1;
    }
  }

  /** The manager is a new one, as with every caller; `key` is the random key of Clear, and stays if the key
      size is wrong, which throws. */
  method Unserialize(m: Manager, x: Stream, key: nat) returns (ok: bool)
    requires m.Shape() && m.mapInfo == map[] && m.mapAddr == map[]
    requires |x.buckets| == if x.nUBuckets < 0 then 0 else x.nUBuckets
    modifies m, m.vvNew, m.vvTried
    ensures m.Shape() && (ok <==> x.nKeySize == 32)
    ensures m.Model() == if ok then Load(m.env, x) else Empty(key)
    ensures ok ==> (Consistent(m.env, m.Model()) <==> !Clash(AllEntered(m.env, x)))
    ensures ok && Harmless(m.env, x) ==> Consistent(m.env, m.Model())
  {
    hide Core, AddrIndexed, Loading, ToTable, Clash, Harmless, AllEntered, Load;
    m.Clear_(key);
    if x.nKeySize != 32 { return false; }
    m.nKey := x.nKey;
    m.nNew := |x.news|;
    LoadInto(m, x);
    LoadConsistentIff(m.env, x);
    if Harmless(m.env, x) { LoadConsistent(m.env, x); }
    return true;
  }

  method LoadInto(m: Manager, x: Stream)
    requires m.Shape() && m.Model() == Start(x) && Complete(x)
    modifies m`nIdCount, m`mapInfo, m`mapAddr, m`vRandom, m`nTried, m`nNew, m.vvNew, m.vvTried
    ensures m.Shape() && m.Model() == Load(m.env, x)
  {
    hide Core, Loading, NewsFirst, NewsLoaded, TriedsLoaded, Pruned, ToTable, SameButReferences, Start, NewIds, Addressed;
    var env := m.env;
    StartLoads(env, x);
    LoadAllNews(m, x);
    ghost var s1 := LoadNews(env, Start(x), x.news, !Usable(x));
    StartTried(x, s1);
    LoadAllTrieds(m, x.trieds);
    ghost var s2 := LoadTrieds(env, s1, x.trieds);
    NewsFirstThen(env, x, s1, s2);
    if Usable(x) { FileAll(m, x.buckets); }
    assert m.Model() == AllEntered(env, x);
    PruneAll(m);
  }

  lemma StartTried(x: Stream, s1: State)
    requires NewsLoaded(Start(x), s1, x.news)
    ensures s1.nTried == 0
  {}

  method LoadAllNews(m: Manager, x: Stream)
    requires m.Shape() && m.Model() == Start(x) && Loading(m.env, Start(x))
    modifies m`nIdCount, m`mapInfo, m`mapAddr, m`vRandom, m.vvNew
    ensures m.Shape() && m.Model() == LoadNews(m.env, Start(x), x.news, !Usable(x))
  {
    hide Core, Loading, NewsLoaded, LoadNew, ToTable, Start;
    ghost var s := m.Model();
    for n := 0 to |x.news|
      invariant m.Shape() && m.Model() == LoadNews(m.env, s, x.news[..n], !Usable(x))
    {
      assert x.news[..n + 1][..n] == x.news[..n];
      NewsLoadedNext(m.env, s, m.Model(), x.news[..n + 1], !Usable(x));
      LoadNewInto(m, x.news[n], !Usable(x));
    }
    assert x.news[..|x.news|] == x.news;
  }

  /** nTried is what the stream announced, less the entries lost. */
  method LoadAllTrieds(m: Manager, xs: seq<Stored>)
    requires m.Shape() && Loading(m.env, m.Model()) && m.nTried == 0
    modifies m`nIdCount, m`mapInfo, m`mapAddr, m`vRandom, m`nTried, m.vvTried
    ensures m.Shape() && m.Model() == LoadTrieds(m.env, old(m.Model()), xs)
  {
    hide Core, Loading, TriedsLoaded, LoadTried, ToTable;
    ghost var s := m.Model();
    var nLost := 0;
    for n := 0 to |xs|
      invariant m.Shape() && m.Model() == LoadTrieds(m.env, s, xs[..n]) && m.nTried == n - nLost
    {
      assert xs[..n + 1][..n] == xs[..n];
      TriedsLoadedNext(m.env, s, m.Model(), xs[..n + 1]);
      var lost := LoadTriedInto(m, xs[n]);
      if lost { nLost := nLost + 1; } else { m.nTried := m.nTried + 1; }
    }
    assert xs[..|xs|] == xs;
  }

  method FileAll(m: Manager, rows: seq<seq<int>>)
    requires m.Shape() && Loading(m.env, m.Model()) && NewsFirst(m.Model()) && |rows| <= NEW_BUCKET_COUNT
    modifies m`mapInfo, m.vvNew
    ensures m.Shape() && m.Model() == FileRows(m.env, old(m.Model()), rows)
  {
    hide Core, Loading, NewsFirst, FileRow, ToTable, SameButReferences;
    ghost var s := m.Model();
    for bucket := 0 to |rows|
      invariant m.Shape() && m.Model() == FileRows(m.env, s, rows[..bucket])
    {
      assert rows[..bucket + 1][..bucket] == rows[..bucket];
      FileRowInto(m, bucket, rows[bucket]);
    }
    assert rows[..|rows|] == rows;
  }
}
