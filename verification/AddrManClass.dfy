/** The address manager run in place: each method does to the fields what the function of the same
    operation does to the state. */
module AddrManClass {
  import opened Basics
  import opened AddrMan
  import opened Options
  import opened AddrManOps
  import opened AddrManRuns

  ghost function ToTable(a: array2<int>): Table
    reads a
  {
    seq(a.Length0, b requires 0 <= b < a.Length0 reads a =>
      seq(a.Length1, p requires 0 <= p < a.Length1 reads a => a[b, p]))
  }

  method SetSlot(a: array2<int>, b: int, p: int, id: int)
    requires 0 <= b < a.Length0 && 0 <= p < a.Length1
    modifies a
    ensures ToTable(a) == Put(old(ToTable(a)), b, p, id)
  {
    a[b, p] := id;
    ghost var t, u := ToTable(a), Put(old(ToTable(a)), b, p, id);
    forall i | 0 <= i < a.Length0 ensures t[i] == u[i] {
      assert forall j :: 0 <= j < a.Length1 ==> t[i][j] == u[i][j];
    }
  }

  function DropRows(env: Env, key: nat, t: Table, service: Service, id: int, k: int): Table
    requires Shaped(t, NEW_BUCKET_COUNT)
  {
    seq(NEW_BUCKET_COUNT, b requires 0 <= b < NEW_BUCKET_COUNT =>
      if b < k then DropRow(t[b], BucketPosition(env, key, true, b, service), id) else t[b])
  }

  ghost function CountBelow(listed: set<int>, k: int): int { |set b | b in listed && b < k| }

  /** The state of the first loop of MakeTried after `k` buckets. */
  ghost function DropBelow(env: Env, s: State, id: int, k: int): State
    requires id in s.mapInfo && Shaped(s.vvNew, NEW_BUCKET_COUNT)
  {
    s.(mapInfo := s.mapInfo[id := s.mapInfo[id].(nRefCount := s.mapInfo[id].nRefCount - CountBelow(Buckets(env, s, id), k))],
       vvNew := DropRows(env, s.nKey, s.vvNew, s.mapInfo[id].service, id, k))
  }

  lemma DropStart(env: Env, s: State, id: int)
    requires id in s.mapInfo && Shaped(s.vvNew, NEW_BUCKET_COUNT)
    ensures DropBelow(env, s, id, 0) == s
  {
    assert (set b | b in Buckets(env, s, id) && b < 0) == {};
  }

  lemma CountNext(listed: set<int>, k: int)
    ensures CountBelow(listed, k + 1) == CountBelow(listed, k) + if k in listed then 1 else 0
  {
    var before, after := set b | b in listed && b < k, set b | b in listed && b < k + 1;
    assert after == if k in listed then before + {k} else before;
  }

  lemma RowsNext(env: Env, key: nat, t: Table, service: Service, id: int, k: int)
    requires Shaped(t, NEW_BUCKET_COUNT) && 0 <= k < NEW_BUCKET_COUNT
    ensures var u := DropRows(env, key, t, service, id, k);
            var pos := BucketPosition(env, key, true, k, service);
            && Shaped(u, NEW_BUCKET_COUNT) && u[k] == t[k]
            && DropRows(env, key, t, service, id, k + 1) == if t[k][pos] == id then Put(u, k, pos, -1) else u
  {}

  lemma DropNext(env: Env, s: State, id: int, k: int)
    requires id in s.mapInfo && Shaped(s.vvNew, NEW_BUCKET_COUNT) && 0 <= k < NEW_BUCKET_COUNT
    ensures var t, u := DropBelow(env, s, id, k), DropBelow(env, s, id, k + 1);
            var pos := NewPos(env, s, k, id);
            && id in t.mapInfo && t.nKey == s.nKey && t.mapInfo[id].service == s.mapInfo[id].service && Shaped(t.vvNew, NEW_BUCKET_COUNT)
            && u == if t.vvNew[k][pos] == id
                    then t.(mapInfo := t.mapInfo[id := t.mapInfo[id].(nRefCount := t.mapInfo[id].nRefCount - 1)],
                            vvNew := Put(t.vvNew, k, pos, -1))
                    else t
  {
    hide DropRows, CountBelow;
    CountNext(Buckets(env, s, id), k);
    RowsNext(env, s.nKey, s.vvNew, s.mapInfo[id].service, id, k);
  }

  lemma DropEnd(env: Env, s: State, id: int)
    requires id in s.mapInfo && Shaped(s.vvNew, NEW_BUCKET_COUNT)
    ensures DropBelow(env, s, id, NEW_BUCKET_COUNT) == DropFromNew(env, s, id)
  {
    assert (set b | b in Buckets(env, s, id) && b < NEW_BUCKET_COUNT) == Buckets(env, s, id);
  }

  lemma EmptyTable(a: array2<int>)
    requires forall b, p :: 0 <= b < a.Length0 && 0 <= p < a.Length1 ==> a[b, p] == -1
    ensures ToTable(a) == seq(a.Length0, _ => seq(a.Length1, _ => -1))
  {
    var t, u := ToTable(a), seq(a.Length0, _ => seq(a.Length1, _ => -1));
    forall i | 0 <= i < a.Length0 ensures t[i] == u[i] {}
  }

  method ClearTable(a: array2<int>)
    modifies a
    ensures ToTable(a) == seq(a.Length0, _ => seq(a.Length1, _ => -1))
  {
    for bucket := 0 to a.Length0
      invariant forall b, p :: 0 <= b < bucket && 0 <= p < a.Length1 ==> a[b, p] == -1
    {
      for entry := 0 to a.Length1
        invariant forall b, p :: 0 <= b < bucket && 0 <= p < a.Length1 ==> a[b, p] == -1
        invariant forall p :: 0 <= p < entry ==> a[bucket, p] == -1
      {
        a[bucket, entry] := -1;
      }
    }
    EmptyTable(a);
  }

  lemma TablesAre(a: array2<int>, b: int, p: int)
    ensures 0 <= b < a.Length0 && 0 <= p < a.Length1 ==> b < |ToTable(a)| && p < |ToTable(a)[b]| && ToTable(a)[b][p] == a[b, p]
  {}

  class Manager {
    const env: Env
    var nKey: nat
    var nIdCount: int
    var mapInfo: map<int, AddrInfo>
    var mapAddr: map<NetAddr, int>
    var vRandom: seq<int>
    var nTried: int
    const vvTried: array2<int>
    var nNew: int
    const vvNew: array2<int>

    ghost predicate Shape()
      reads this
    {
      && vvTried.Length0 == TRIED_BUCKET_COUNT && vvTried.Length1 == BUCKET_SIZE
      && vvNew.Length0 == NEW_BUCKET_COUNT && vvNew.Length1 == BUCKET_SIZE
      && vvTried != vvNew
    }

    ghost function Model(): State
      reads this, vvTried, vvNew
    {
      State(nKey, nIdCount, mapInfo, mapAddr, vRandom, nTried, ToTable(vvTried), nNew, ToTable(vvNew))
    }

    constructor (env: Env, key: nat)
      ensures Shape() && fresh(vvTried) && fresh(vvNew)
      ensures this.env == env && Model() == Empty(key)
      ensures Consistent(env, Model()) && Timed(Model())
    {
      this.env, nKey := env, key;
      nIdCount, mapInfo, mapAddr, vRandom, nTried, nNew := 0, map[], map[], [], 0, 0;
      vvTried := new int[TRIED_BUCKET_COUNT, BUCKET_SIZE];
      vvNew := new int[NEW_BUCKET_COUNT, BUCKET_SIZE];
      new;
      Clear_(key);
      EmptyConsistent(env, key);
    }

    /** What the source leaves as it is, mapInfo and mapAddr, stays. */
    method Clear_(key: nat)
      requires Shape()
      modifies this`nKey, this`nIdCount, this`vRandom, this`nTried, this`nNew, vvTried, vvNew
      ensures Model() == Cleared(old(Model()), key)
    {
      vRandom, nKey := [], key;
      ClearTable(vvNew);
      ClearTable(vvTried);
      nIdCount, nTried, nNew := 0, 0, 0;
    }

    method Find_(a: NetAddr) returns (id: Option<int>)
      ensures id == Find(Model(), a)
    {
      if a !in mapAddr { return None; }
      if mapAddr[a] in mapInfo { return Some(mapAddr[a]); }
      return None;
    }

    method Create_(addr: Address, source: NetAddr) returns (nId: int)
      modifies this`nIdCount, this`mapInfo, this`mapAddr, this`vRandom
      ensures nId == old(nIdCount) && Model() == Create(old(Model()), addr, source)
    {
      nId := nIdCount;
      nIdCount := nIdCount + 1;
      mapInfo := mapInfo[nId := FreshInfo(addr, source)];
      mapAddr := mapAddr[addr.service.net := nId];
      mapInfo := mapInfo[nId := mapInfo[nId].(nRandomPos := |vRandom|)];
      vRandom := vRandom + [nId];
    }

    method SwapRandom_(nRndPos1: int, nRndPos2: int)
      requires CanSwap(Model(), nRndPos1, nRndPos2)
      modifies this`mapInfo, this`vRandom
      ensures Model() == SwapRandom(old(Model()), nRndPos1, nRndPos2)
    {
      if nRndPos1 == nRndPos2 { return; }
      var nId1 := vRandom[nRndPos1];
      var nId2 := vRandom[nRndPos2];
      assert nId1 in mapInfo;
      assert nId2 in mapInfo;
      mapInfo := mapInfo[nId1 := mapInfo[nId1].(nRandomPos := nRndPos2)];
      mapInfo := mapInfo[nId2 := mapInfo[nId2].(nRandomPos := nRndPos1)];
      vRandom := vRandom[nRndPos1 := nId2];
      vRandom := vRandom[nRndPos2 := nId1];
    }

    method Delete_(nId: int)
      requires CanDelete(Model(), nId)
      modifies this`mapInfo, this`vRandom, this`mapAddr, this`nNew
      ensures Model() == Delete(old(Model()), nId)
    {
      assert nId in mapInfo && !mapInfo[nId].fInTried && mapInfo[nId].nRefCount == 0;
      SwapRandom_(mapInfo[nId].nRandomPos, |vRandom| - 1);
      vRandom := vRandom[..|vRandom| - 1];
      mapAddr := mapAddr - {mapInfo[nId].service.net};
      mapInfo := mapInfo - {nId};
      nNew := nNew - 1;
    }

    method ClearNew_(nUBucket: int, nUBucketPos: int)
      requires Shape() && CanClear(Model(), nUBucket, nUBucketPos)
      modifies this`mapInfo, this`vRandom, this`mapAddr, this`nNew, vvNew
      ensures Model() == ClearNew(old(Model()), nUBucket, nUBucketPos)
    {
      if vvNew[nUBucket, nUBucketPos] != -1 {
        var nIdDelete := vvNew[nUBucket, nUBucketPos];
        assert mapInfo[nIdDelete].nRefCount > 0;
        mapInfo := mapInfo[nIdDelete := mapInfo[nIdDelete].(nRefCount := mapInfo[nIdDelete].nRefCount - 1)];
        SetSlot(vvNew, nUBucket, nUBucketPos, -1);
        if mapInfo[nIdDelete].nRefCount == 0 {
          Delete_(nIdDelete);
        }
      }
    }

    /** The first loop of MakeTried. */
    method DropFromNew_(nId: int)
      requires Shape() && nId in mapInfo
      modifies this`mapInfo, vvNew
      ensures Model() == DropFromNew(env, old(Model()), nId)
    {
      hide Buckets, DropFromNew;
      ghost var s := Model();
      DropStart(env, s, nId);
      for bucket := 0 to NEW_BUCKET_COUNT
        invariant Model() == DropBelow(env, s, nId, bucket)
      {
        hide DropBelow;
        DropNext(env, s, nId, bucket);
        var pos := BucketPosition(env, nKey, true, bucket, mapInfo[nId].service);
        if vvNew[bucket, pos] == nId {
          SetSlot(vvNew, bucket, pos, -1);
          mapInfo := mapInfo[nId := mapInfo[nId].(nRefCount := mapInfo[nId].nRefCount - 1)];
        }
      }
      DropEnd(env, s, nId);
    }

    /** The eviction in MakeTried. */
    method Evict_(ghost nId: int, nKBucket: int, nKBucketPos: int)
      requires Shape() && Inv(env, Model(), {nId}, 0)
      requires 0 <= nKBucket < TRIED_BUCKET_COUNT && 0 <= nKBucketPos < BUCKET_SIZE && vvTried[nKBucket, nKBucketPos] != -1
      modifies this`mapInfo, this`vRandom, this`mapAddr, this`nNew, this`nTried, vvNew, vvTried
      ensures Model() == Evict(env, old(Model()), nId, nKBucket, nKBucketPos)
    {
      hide Inv, ClearNew, CanClear, Preserves, LosesAtMostOneNew;
      ghost var t := Model();
      EvictIsSafe(env, t, nId, nKBucket, nKBucketPos);
      var nIdEvict := vvTried[nKBucket, nKBucketPos];
      assert nIdEvict in mapInfo;
      mapInfo := mapInfo[nIdEvict := mapInfo[nIdEvict].(fInTried := false)];
      SetSlot(vvTried, nKBucket, nKBucketPos, -1);
      nTried := nTried - 1;
      assert Model() == Untry(t, nKBucket, nKBucketPos);
      var nUBucket := NewBucket(env, nKey, mapInfo[nIdEvict].service, mapInfo[nIdEvict].source);
      var nUBucketPos := BucketPosition(env, nKey, true, nUBucket, mapInfo[nIdEvict].service);
      ClearNew_(nUBucket, nUBucketPos);
      assert ToTable(vvNew)[nUBucket][nUBucketPos] == -1;
      assert vvNew[nUBucket, nUBucketPos] == -1;
      LimboFacts(env, Model(), {nId, nIdEvict}, 0, nIdEvict);
      mapInfo := mapInfo[nIdEvict := mapInfo[nIdEvict].(nRefCount := 1)];
      SetSlot(vvNew, nUBucket, nUBucketPos, nIdEvict);
      nNew := nNew + 1;
    }

    /** MakeTried up to the assertion that the tried slot is empty. */
    method MakeRoom_(nId: int, nKBucket: int, nKBucketPos: int)
      requires Shape() && Consistent(env, Model()) && nId in mapInfo && !mapInfo[nId].fInTried
      requires (nKBucket, nKBucketPos) == TriedSlot(env, nKey, mapInfo[nId].service)
      modifies this`mapInfo, this`vRandom, this`mapAddr, this`nNew, this`nTried, vvNew, vvTried
      ensures Model() == Room(env, old(Model()), nId)
    {
      ghost var s := Model();
      hide Inv, Slotted, DropFromNew, Evict, TriedBucket, BucketPosition, ToTable;
      InvSlotted(env, s, {}, 0);
      SlotRange(env, nKey, mapInfo[nId].service);
      TablesAre(vvTried, nKBucket, nKBucketPos);
      UnfiledKeeps(env, s, nId);
      DropFromNew_(nId);
      nNew := nNew - 1;
      assert Model() == Unfiled(env, s, nId);
      LimboFacts(env, Model(), {nId}, 0, nId);
      assert mapInfo[nId].nRefCount == 0;
      TablesAre(vvTried, nKBucket, nKBucketPos);
      if vvTried[nKBucket, nKBucketPos] != -1 {
        Evict_(nId, nKBucket, nKBucketPos);
      }
    }

    method MakeTried_(nId: int)
      requires Shape() && Consistent(env, Model()) && nId in mapInfo && !mapInfo[nId].fInTried
      modifies this`mapInfo, this`vRandom, this`mapAddr, this`nNew, this`nTried, vvNew, vvTried
      ensures Model() == MakeTried(env, old(Model()), nId)
    {
      hide Inv, Room, Preserves, LosesAtMostOneNew;
      RoomKeeps(env, Model(), nId);
      var nKBucket := TriedBucket(env, nKey, mapInfo[nId].service);
      var nKBucketPos := BucketPosition(env, nKey, false, nKBucket, mapInfo[nId].service);
      MakeRoom_(nId, nKBucket, nKBucketPos);
      assert ToTable(vvTried)[nKBucket][nKBucketPos] == -1;
      assert vvTried[nKBucket, nKBucketPos] == -1;
      SetSlot(vvTried, nKBucket, nKBucketPos, nId);
      nTried := nTried + 1;
      mapInfo := mapInfo[nId := mapInfo[nId].(fInTried := true)];
    }

    /** `nRnd` is the bucket the search starts from. */
    method Good_(addr: Service, nTime: int, nRnd: nat)
      requires Shape() && Consistent(env, Model())
      modifies this`mapInfo, this`vRandom, this`mapAddr, this`nNew, this`nTried, vvNew, vvTried
      ensures Model() == Good(env, old(Model()), addr, nTime)
      ensures Consistent(env, Model())
    {
      hide Inv, MakeTried, LosesAtMostOneNew, ToTable, Buckets, Preserves;
      ghost var s := Model();
      GoodConsistent(env, s, addr, nTime);
      var found := Find_(addr.net);
      if found.None? { return; }
      var nId := found.value;
      if mapInfo[nId].service != addr { return; }
      UpdateKeeps(env, s, nId, Praised(s.mapInfo[nId], nTime), {}, 0);
      mapInfo := mapInfo[nId := mapInfo[nId].(nLastSuccess := nTime)];
      mapInfo := mapInfo[nId := mapInfo[nId].(nLastTry := nTime)];
      mapInfo := mapInfo[nId := mapInfo[nId].(nAttempts := 0)];
      assert Model() == Update(s, nId, Praised(s.mapInfo[nId], nTime));
      if mapInfo[nId].fInTried { return; }
      var nUBucket := FindBucket_(nId, nRnd);
      if nUBucket == -1 { return; }
      MakeTried_(nId);
    }

    /** The bucket search of Good_. */
    method FindBucket_(nId: int, nRnd: nat) returns (nUBucket: int)
      requires Shape() && Consistent(env, Model()) && nId in mapInfo
      ensures nUBucket == -1 <==> Buckets(env, Model(), nId) == {}
      ensures nUBucket != -1 ==> nUBucket in Buckets(env, Model(), nId)
    {
      hide Inv;
      NewSlotIsLive(env, Model(), {}, 0, 0, 0);
      for n := 0 to NEW_BUCKET_COUNT
        invariant forall k :: 0 <= k < n ==> Rotated(k, nRnd) !in Buckets(env, Model(), nId)
      {
        var nB := (n + nRnd) % NEW_BUCKET_COUNT;
        var nBpos := BucketPosition(env, nKey, true, nB, mapInfo[nId].service);
        assert nB == Rotated(n, nRnd) && vvNew[nB, nBpos] == ToTable(vvNew)[nB][nBpos];
        if vvNew[nB, nBpos] == nId {
          assert nB in Buckets(env, Model(), nId);
          return nB;
        }
      }
      forall b | 0 <= b < NEW_BUCKET_COUNT ensures b !in Buckets(env, Model(), nId) {
        var k := (b - nRnd) % NEW_BUCKET_COUNT;
        RotationCovers(b, nRnd, k);
        assert Rotated(k, nRnd) == b;
      }
      nUBucket := -1;
    }

    /** `now` is the adjusted time, and `draw % n` the outcome of GetRandInt(n). */
    method Add_(addr: Address, source: NetAddr, nTimePenalty: int, now: int, draw: nat) returns (fNew: bool)
      requires Shape() && Consistent(env, Model())
      modifies this`nIdCount, this`mapInfo, this`vRandom, this`mapAddr, this`nNew, vvNew
      ensures (Model(), fNew) == Add(env, old(Model()), addr, source, nTimePenalty, now, draw)
      ensures Consistent(env, Model())
      ensures env.routable(addr.service.net) ==> Filed(env, old(Model()), Model(), addr, source, now, draw)
    {
      hide Inv, Place, AddEffect, ToTable, Placeable, Filed;
      ghost var s := Model();
      AddKeeps(env, s, addr, source, nTimePenalty, now, draw);
      AddConsistent(env, s, Add(env, s, addr, source, nTimePenalty, now, draw).0, Add(env, s, addr, source, nTimePenalty, now, draw).1, addr, source, nTimePenalty);
      if !env.routable(addr.service.net) { return false; }
      AddFiles(env, s, addr, source, nTimePenalty, now, draw);
      fNew := false;
      var found := Find_(addr.service.net);
      var nId: int;
      if found.Some? {
        nId := found.value;
        Refresh_(nId, addr, nTimePenalty, now);
        UpdateKeeps(env, s, nId, Refreshed(s.mapInfo[nId], addr, nTimePenalty, now), {}, 0);
        RefCountRange(env, Model(), nId);
        if addr.nTime == 0 || (mapInfo[nId].nTime != 0 && addr.nTime <= mapInfo[nId].nTime) { return; }
        if mapInfo[nId].fInTried { return; }
        if mapInfo[nId].nRefCount == NEW_BUCKETS_PER_ADDRESS { return; }
        var nFactor := 1;
        for n := 0 to mapInfo[nId].nRefCount
          invariant nFactor == Pow2(n)
        {
          nFactor := nFactor * 2;
        }
        if nFactor > 1 && draw % nFactor != 0 { return; }
        KnownPlaceable(env, Model(), nId);
        Place_(nId, false, source, now);
      } else {
        NotFound(env, s, addr.service.net);
        CreatedKeeps(env, s, addr, source, nTimePenalty);
        nId := Create_(addr, source);
        mapInfo := mapInfo[nId := mapInfo[nId].(nTime := Max0(mapInfo[nId].nTime - nTimePenalty))];
        nNew := nNew + 1;
        fNew := true;
        assert Model() == Created(s, addr, source, nTimePenalty);
        Place_(nId, true, source, now);
      }
    }

    /** What Add_ takes over from an announcement of a known address. */
    method Refresh_(nId: int, addr: Address, nTimePenalty: int, now: int)
      requires nId in mapInfo
      modifies this`mapInfo
      ensures Model() == Update(old(Model()), nId, Refreshed(old(mapInfo)[nId], addr, nTimePenalty, now))
    {
      hide ToTable;
      var info := mapInfo[nId];
      var fCurrentlyOnline := now - addr.nTime < 24 * 60 * 60;
      var nUpdateInterval := if fCurrentlyOnline then 60 * 60 else 24 * 60 * 60;
      if addr.nTime != 0 && (info.nTime == 0 || info.nTime < addr.nTime - nUpdateInterval - nTimePenalty) {
        info := info.(nTime := Max0(addr.nTime - nTimePenalty));
      }
      info := info.(nServices := info.nServices + addr.nServices);
      mapInfo := mapInfo[nId := info];
    }

    /** The second half of Add_. */
    method Place_(nId: int, ghost created: bool, source: NetAddr, now: int)
      requires Shape() && Placeable(env, Model(), nId, created)
      modifies this`mapInfo, this`vRandom, this`mapAddr, this`nNew, vvNew
      ensures Model() == Place(env, old(Model()), nId, created, source, now)
    {
      var nUBucket := NewBucket(env, nKey, mapInfo[nId].service, source);
      var nUBucketPos := BucketPosition(env, nKey, true, nUBucket, mapInfo[nId].service);
      hide Inv, ClearNew, CanClear, CanDelete, Delete, Slot, Place, IsTerrible, NewBucket, BucketPosition;
      ghost var s := Model();
      BucketRanges(env, nKey, mapInfo[nId].service, source);
      PlaceIsSafe(env, s, nId, created, nUBucket, nUBucketPos);
      PlaceUnfold(env, s, nId, created, source, now, nUBucket, nUBucketPos);
      if vvNew[nUBucket, nUBucketPos] != nId {
        var fInsert := vvNew[nUBucket, nUBucketPos] == -1;
        if !fInsert {
          var infoExisting := mapInfo[vvNew[nUBucket, nUBucketPos]];
          if IsTerrible(infoExisting, now) || (infoExisting.nRefCount > 1 && mapInfo[nId].nRefCount == 0) {
            fInsert := true;
          }
        }
        if fInsert {
          Insert_(nId, nUBucket, nUBucketPos);
        } else {
          if mapInfo[nId].nRefCount == 0 {
            Delete_(nId);
          }
        }
      }
    }

    method Insert_(nId: int, nUBucket: int, nUBucketPos: int)
      requires Shape() && CanClear(Model(), nUBucket, nUBucketPos)
      requires nId in ClearNew(Model(), nUBucket, nUBucketPos).mapInfo
      requires Shaped(ClearNew(Model(), nUBucket, nUBucketPos).vvNew, NEW_BUCKET_COUNT)
      modifies this`mapInfo, this`vRandom, this`mapAddr, this`nNew, vvNew
      ensures Model() == Slot(ClearNew(old(Model()), nUBucket, nUBucketPos), nUBucket, nUBucketPos, nId)
    {
      hide ClearNew, CanClear;
      assert 0 <= nUBucket < NEW_BUCKET_COUNT && 0 <= nUBucketPos < BUCKET_SIZE by { ClearRange(Model(), nUBucket, nUBucketPos); }
      ClearNew_(nUBucket, nUBucketPos);
      mapInfo := mapInfo[nId := mapInfo[nId].(nRefCount := mapInfo[nId].nRefCount + 1)];
      SetSlot(vvNew, nUBucket, nUBucketPos, nId);
    }

    method Attempt_(addr: Service, nTime: int)
      requires Shape() && Consistent(env, Model())
      modifies this`mapInfo
      ensures Model() == Attempt(old(Model()), addr, nTime)
      ensures Consistent(env, Model())
    {
      hide Consistent, ToTable;
      AttemptKeeps(env, Model(), addr, nTime);
      var found := Find_(addr.net);
      if found.None? { return; }
      var nId := found.value;
      if mapInfo[nId].service != addr { return; }
      mapInfo := mapInfo[nId := mapInfo[nId].(nLastTry := nTime)];
      mapInfo := mapInfo[nId := mapInfo[nId].(nAttempts := mapInfo[nId].nAttempts + 1)];
    }

    method Connected_(addr: Service, nTime: int)
      requires Shape() && Consistent(env, Model())
      modifies this`mapInfo
      ensures Model() == Connected(old(Model()), addr, nTime)
      ensures Consistent(env, Model())
    {
      hide Consistent, ToTable;
      ConnectedKeeps(env, Model(), addr, nTime);
      var found := Find_(addr.net);
      if found.None? { return; }
      var nId := found.value;
      if mapInfo[nId].service != addr { return; }
      if nTime - mapInfo[nId].nTime > 20 * 60 {
        mapInfo := mapInfo[nId := mapInfo[nId].(nTime := nTime)];
      }
    }

    /** `draws(n) % k` is the outcome of GetRandInt(k) in round n. */
    method GetAddr_(now: int, draws: nat -> nat) returns (vAddr: seq<Address>)
      requires Shape() && Consistent(env, Model())
      modifies this`mapInfo, this`vRandom
      ensures (Model(), vAddr) == GetAddr(old(Model()), now, draws)
      ensures Consistent(env, Model())
    {
      hide Consistent, GetAddrResult, IsTerrible, ToTable, RandIndexed, SwapRandom, CanSwap, GetAddrFrom;
      ghost var s := Model();
      GetAddrKeeps(env, s, now, draws);
      ConsistentRandom(env, s);
      var nNodes := GETADDR_MAX_PCT * |vRandom| / 100;
      if nNodes > GETADDR_MAX {
        nNodes := GETADDR_MAX;
      }
      vAddr := [];
      var n := 0;
      while n < |vRandom|
        invariant n <= |vRandom| && RandIndexed(mapInfo, vRandom)
        invariant ToTable(vvNew) == s.vvNew && ToTable(vvTried) == s.vvTried
        invariant GetAddr(s, now, draws) == GetAddrFrom(Model(), n, nNodes, now, draws, vAddr)
      {
        if |vAddr| >= nNodes { break; }
        GetAddrUnfold(Model(), n, nNodes, now, draws, vAddr);
        var nRndPos := draws(n) % (|vRandom| - n) + n;
        SwapRandom_(n, nRndPos);
        assert vRandom[n] in mapInfo;
        var ai := mapInfo[vRandom[n]];
        if !IsTerrible(ai, now) {
          vAddr := vAddr + [ToAddress(ai)];
        }
        n := n + 1;
      }
      GetAddrStop(Model(), n, nNodes, now, draws, vAddr);
    }
  }

  lemma GetAddrStop(s: State, n: nat, limit: nat, now: int, draws: nat -> nat, found: seq<Address>)
    requires RandIndexed(s.mapInfo, s.vRandom) && n <= |s.vRandom| && (n == |s.vRandom| || |found| >= limit)
    ensures GetAddrFrom(s, n, limit, now, draws, found) == (s, found)
  {}

  lemma BucketRanges(env: Env, key: nat, service: Service, source: NetAddr)
    ensures 0 <= NewBucket(env, key, service, source) < NEW_BUCKET_COUNT
    ensures forall b :: 0 <= BucketPosition(env, key, true, b, service) < BUCKET_SIZE
  {}

  lemma PlaceUnfold(env: Env, s: State, id: int, created: bool, source: NetAddr, now: int, b: int, p: int)
    requires Placeable(env, s, id, created)
    requires b == NewBucket(env, s.nKey, s.mapInfo[id].service, source)
    requires p == BucketPosition(env, s.nKey, true, b, s.mapInfo[id].service)
    requires 0 <= b < |s.vvNew| && 0 <= p < |s.vvNew[b]| && (s.vvNew[b][p] != -1 ==> s.vvNew[b][p] in s.mapInfo)
    ensures var occupant := s.vvNew[b][p];
            Place(env, s, id, created, source, now) ==
            if occupant == id then s
            else if occupant == -1 || Overwrites(s, occupant, id, now) then
              (PlaceIsSafe(env, s, id, created, b, p); Slot(ClearNew(s, b, p), b, p, id))
            else if s.mapInfo[id].nRefCount == 0 then (PlaceIsSafe(env, s, id, created, b, p); Delete(s, id))
            else s
  {
    hide Inv, ClearNew, CanClear, CanDelete, Delete, Slot, IsTerrible;
    PlaceIsSafe(env, s, id, created, b, p);
    assert (b, p) == PlaceSlot(env, s, id, source);
  }

  lemma ClearRange(s: State, b: int, p: int)
    requires CanClear(s, b, p)
    ensures 0 <= b < NEW_BUCKET_COUNT && 0 <= p < BUCKET_SIZE
  {}

  lemma KnownPlaceable(env: Env, s: State, id: int)
    requires Consistent(env, s) && id in s.mapInfo && !s.mapInfo[id].fInTried && s.mapInfo[id].nRefCount != NEW_BUCKETS_PER_ADDRESS
    ensures Placeable(env, s, id, false)
  {
    RefCountRange(env, s, id);
    hide Inv;
  }

  lemma GetAddrUnfold(s: State, n: nat, limit: nat, now: int, draws: nat -> nat, found: seq<Address>)
    requires RandIndexed(s.mapInfo, s.vRandom) && n < |s.vRandom| && |found| < limit
    ensures var r := draws(n) % (|s.vRandom| - n) + n;
            CanSwap(s, n, r) &&
            var t := SwapRandom(s, n, r);
            && RandIndexed(t.mapInfo, t.vRandom) && |t.vRandom| == |s.vRandom| && t.vRandom[n] in t.mapInfo
            && GetAddrFrom(s, n, limit, now, draws, found)
               == GetAddrFrom(t, n + 1, limit, now, draws, Gathered(t.mapInfo[t.vRandom[n]], now, found))
  {
    hide SwapRandom, CanSwap, RandIndexed, SameFiling, Reordered, Gathered;
    var r := draws(n) % (|s.vRandom| - n) + n;
    SwapEffect(s, n, r);
    SwapReorders(s, n, r);
    RandomIsLive(SwapRandom(s, n, r).mapInfo, SwapRandom(s, n, r).vRandom);
  }

  lemma ConsistentRandom(env: Env, s: State)
    requires Consistent(env, s)
    ensures RandIndexed(s.mapInfo, s.vRandom)
  {}

  function Rotated(k: int, r: nat): int { (k + r) % NEW_BUCKET_COUNT }

  lemma RotationCovers(b: int, r: nat, k: int)
    requires 0 <= b < NEW_BUCKET_COUNT && k == (b - r) % NEW_BUCKET_COUNT
    ensures 0 <= k < NEW_BUCKET_COUNT && (k + r) % NEW_BUCKET_COUNT == b
  {}
}
