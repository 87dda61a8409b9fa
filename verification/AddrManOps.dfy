/** The public operations of the address manager, and what they keep over every run. */
module AddrManOps {
  import opened AddrMan
  import opened Basics
  import opened Options

  /** The part of an entry that filing, moving and evicting never touch. */
  function Facts(i: AddrInfo): AddrInfo { i.(nRefCount := 0, fInTried := false, nRandomPos := 0) }

  /** `t` has no entry that `s` did not have, and agrees with `s` on the facts about those it has. */
  ghost predicate Preserves(s: State, t: State) {
    && t.nKey == s.nKey && t.nIdCount == s.nIdCount
    && forall id :: id in t.mapInfo ==> id in s.mapInfo && Facts(t.mapInfo[id]) == Facts(s.mapInfo[id])
  }

  /** Every entry of the tried table survives, and at most one entry is lost. */
  ghost predicate LosesAtMostOneNew(s: State, t: State) {
    && (forall x :: x in s.mapInfo && s.mapInfo[x].fInTried ==> x in t.mapInfo)
    && |t.mapInfo| >= |s.mapInfo| - 1
  }

  lemma DeletePreserves(s: State, id: int)
    requires CanDelete(s, id)
    ensures Preserves(s, Delete(s, id)) && Delete(s, id).mapInfo.Keys == s.mapInfo.Keys - {id}
    ensures Delete(s, id).mapAddr == s.mapAddr - {s.mapInfo[id].service.net}
  {}

  lemma ClearNewPreserves(s: State, b: int, p: int)
    requires CanClear(s, b, p)
    ensures Preserves(s, ClearNew(s, b, p)) && ClearNew(s, b, p).vvTried == s.vvTried
    ensures var id, t := s.vvNew[b][p], ClearNew(s, b, p);
            t.mapInfo.Keys == if id != -1 && s.mapInfo[id].nRefCount == 1 then s.mapInfo.Keys - {id} else s.mapInfo.Keys
  {
    hide CanDelete, Delete;
    var id := s.vvNew[b][p];
    if id != -1 {
      var t := Unslot(s, b, p);
      assert Preserves(s, t) && t.mapInfo.Keys == s.mapInfo.Keys && t.vvTried == s.vvTried;
      if s.mapInfo[id].nRefCount == 1 {
        DeletePreserves(t, id);
        DeleteLeavesTables(t, id);
      }
    }
  }

  lemma ClearNewLoses(env: Env, s: State, limbo: set<int>, excess: int, b: int, p: int)
    requires Inv(env, s, limbo, excess) && 0 <= b < NEW_BUCKET_COUNT && 0 <= p < BUCKET_SIZE
    ensures CanClear(s, b, p) && LosesAtMostOneNew(s, ClearNew(s, b, p))
  {
    hide Inv, ClearNew, CanClear, Preserves;
    NewSlotNotTried(env, s, limbo, excess, b, p);
    ClearNewKeeps(env, s, limbo, excess, b, p);
    ClearNewPreserves(s, b, p);
    var t := ClearNew(s, b, p);
    assert |t.mapInfo| == |t.mapInfo.Keys| && |s.mapInfo| == |s.mapInfo.Keys|;
  }

  lemma NewSlotNotTried(env: Env, s: State, limbo: set<int>, excess: int, b: int, p: int)
    requires Inv(env, s, limbo, excess) && 0 <= b < NEW_BUCKET_COUNT && 0 <= p < BUCKET_SIZE
    ensures Shaped(s.vvNew, NEW_BUCKET_COUNT)
    ensures s.vvNew[b][p] != -1 ==> s.vvNew[b][p] in s.mapInfo && !s.mapInfo[s.vvNew[b][p]].fInTried
  {}

  /** Where an entry goes when it falls out of the tried table. */
  function HomeSlot(env: Env, key: nat, i: AddrInfo): (int, int) {
    var b := NewBucket(env, key, i.service, i.source);
    (b, BucketPosition(env, key, true, b, i.service))
  }

  /** Move the entry of an occupied tried slot back to the new table; `id` waits to take its place. */
  ghost function Evict(env: Env, s: State, id: int, b: int, p: int): State
    requires Inv(env, s, {id}, 0)
    requires 0 <= b < TRIED_BUCKET_COUNT && 0 <= p < BUCKET_SIZE && s.vvTried[b][p] != -1
  {
    var old_ := s.vvTried[b][p];
    var home := HomeSlot(env, s.nKey, s.mapInfo[old_]);
    EvictIsSafe(env, s, id, b, p);
    var t := ClearNew(Untry(s, b, p), home.0, home.1);
    t.(mapInfo := t.mapInfo[old_ := t.mapInfo[old_].(nRefCount := 1)],
       vvNew := Put(t.vvNew, home.0, home.1, old_), nNew := t.nNew + 1)
  }

  lemma EvictIsSafe(env: Env, s: State, id: int, b: int, p: int)
    requires Inv(env, s, {id}, 0)
    requires 0 <= b < TRIED_BUCKET_COUNT && 0 <= p < BUCKET_SIZE && s.vvTried[b][p] != -1
    ensures s.vvTried[b][p] in s.mapInfo
    ensures var old_ := s.vvTried[b][p];
            var home := HomeSlot(env, s.nKey, s.mapInfo[old_]);
            var u := Untry(s, b, p);
            && CanClear(u, home.0, home.1)
            && var t := ClearNew(u, home.0, home.1);
               && Inv(env, t, {id, old_}, 0) && Preserves(u, t) && LosesAtMostOneNew(u, t) && t.vvTried == u.vvTried
               && t.vvNew == Put(u.vvNew, home.0, home.1, -1)
  {
    var old_ := s.vvTried[b][p];
    var home := HomeSlot(env, s.nKey, s.mapInfo[old_]);
    UntryKeeps(env, s, {id}, 0, b, p);
    var u := Untry(s, b, p);
    assert {id} + {old_} == {id, old_};
    hide Inv, Untry, ClearNew, CanClear, Preserves, LosesAtMostOneNew;
    ClearNewKeeps(env, u, {id, old_}, 0, home.0, home.1);
    ClearNewLoses(env, u, {id, old_}, 0, home.0, home.1);
    ClearNewPreserves(u, home.0, home.1);
  }

  lemma LimboFacts(env: Env, s: State, limbo: set<int>, excess: int, id: int)
    requires Inv(env, s, limbo, excess) && id in limbo
    ensures id in s.mapInfo && !s.mapInfo[id].fInTried && s.mapInfo[id].nRefCount == 0
  {}

  lemma TriedOccupant(env: Env, s: State, limbo: set<int>, excess: int, b: int, p: int)
    requires Inv(env, s, limbo, excess) && 0 <= b < TRIED_BUCKET_COUNT && 0 <= p < BUCKET_SIZE
    ensures Shaped(s.vvTried, TRIED_BUCKET_COUNT) && Shaped(s.vvNew, NEW_BUCKET_COUNT)
    ensures s.vvTried[b][p] != -1 ==> s.vvTried[b][p] in s.mapInfo && s.mapInfo[s.vvTried[b][p]].fInTried
  {}

  /** After the clearing, the evicted entry fits its home slot. */
  lemma EvictFits(env: Env, s: State, id: int, b: int, p: int)
    requires Inv(env, s, {id}, 0)
    requires 0 <= b < TRIED_BUCKET_COUNT && 0 <= p < BUCKET_SIZE && s.vvTried[b][p] != -1
    ensures s.vvTried[b][p] in s.mapInfo && id != s.vvTried[b][p]
    ensures var old_ := s.vvTried[b][p];
            var home := HomeSlot(env, s.nKey, s.mapInfo[old_]);
            var u := Untry(s, b, p);
            CanClear(u, home.0, home.1) &&
            var t := ClearNew(u, home.0, home.1);
            && Inv(env, t, {id, old_}, 0) && Preserves(s, t) && LosesAtMostOneNew(s, t)
            && t.vvTried == Put(s.vvTried, b, p, -1)
            && t.vvNew[home.0][home.1] == -1
            && t.mapInfo[old_].nRefCount == 0 && !t.mapInfo[old_].fInTried && NewPos(env, t, home.0, old_) == home.1
            && Evict(env, s, id, b, p) == Slot(t, home.0, home.1, old_).(nNew := t.nNew + 1)
  {
    hide Inv, ClearNew, CanClear;
    TriedOccupant(env, s, {id}, 0, b, p);
    var old_ := s.vvTried[b][p];
    var home := HomeSlot(env, s.nKey, s.mapInfo[old_]);
    LimboFacts(env, s, {id}, 0, id);
    EvictIsSafe(env, s, id, b, p);
    var u := Untry(s, b, p);
    assert Preserves(s, u) && u.mapInfo.Keys == s.mapInfo.Keys && |u.mapInfo| == |u.mapInfo.Keys| && |s.mapInfo| == |s.mapInfo.Keys|;
    LimboFacts(env, ClearNew(u, home.0, home.1), {id, old_}, 0, old_);
  }

  /** Only the count of new entries depends on `nNew`. */
  lemma InvNew(env: Env, s: State, limbo: set<int>, excess: int, n: int)
    requires Inv(env, s, limbo, excess)
    ensures Inv(env, s.(nNew := n), limbo, excess + n - s.nNew)
  {
    var t := s.(nNew := n);
    IndexedFrame(s, t);
    SlottedFrame(env, s, t);
    ReferencedFrame(env, s, t, limbo);
    IdsFrame(s, t);
  }

  lemma SlotPreserves(s: State, b: int, p: int, id: int)
    requires Shaped(s.vvNew, NEW_BUCKET_COUNT) && 0 <= b < NEW_BUCKET_COUNT && 0 <= p < BUCKET_SIZE && id in s.mapInfo
    ensures var t := Slot(s, b, p, id);
            Preserves(s, t) && t.mapInfo.Keys == s.mapInfo.Keys && |t.mapInfo| == |s.mapInfo| && t.vvTried == s.vvTried && t.nNew == s.nNew
  {
    var t := Slot(s, b, p, id);
    assert |t.mapInfo| == |t.mapInfo.Keys| && |s.mapInfo| == |s.mapInfo.Keys|;
  }

  lemma EvictKeeps(env: Env, s: State, id: int, b: int, p: int)
    requires Inv(env, s, {id}, 0)
    requires 0 <= b < TRIED_BUCKET_COUNT && 0 <= p < BUCKET_SIZE && s.vvTried[b][p] != -1
    ensures var e := Evict(env, s, id, b, p);
            Inv(env, e, {id}, 0) && Preserves(s, e) && LosesAtMostOneNew(s, e) && e.vvTried == Put(s.vvTried, b, p, -1)
  {
    hide Inv, ClearNew, Untry, Evict, CanClear, Slot, Preserves;
    TriedOccupant(env, s, {id}, 0, b, p);
    EvictFits(env, s, id, b, p);
    var old_ := s.vvTried[b][p];
    var home := HomeSlot(env, s.nKey, s.mapInfo[old_]);
    var t := ClearNew(Untry(s, b, p), home.0, home.1);
    NewSlotIsLive(env, t, {id, old_}, 0, home.0, home.1);
    LimboFacts(env, t, {id, old_}, 0, old_);
    SlotKeeps(env, t, {id, old_}, 0, home.0, home.1, old_);
    SlotPreserves(t, home.0, home.1, old_);
    assert {id, old_} - {old_} == {id};
    var e := Slot(t, home.0, home.1, old_);
    InvNew(env, e, {id}, -1, t.nNew + 1);
    PreservesChain(s, t, e);
    PreservesChain(s, e, e.(nNew := t.nNew + 1));
  }

  lemma PreservesChain(s: State, t: State, u: State)
    requires Preserves(s, t) && (Preserves(t, u) || (t.nKey == u.nKey && t.nIdCount == u.nIdCount && t.mapInfo == u.mapInfo))
    ensures Preserves(s, u)
  {}

  // ---------------------------------------------------------------- moving to the tried table

  /** The entry out of all new buckets, before room is made for it in the tried table. */
  ghost function Unfiled(env: Env, s: State, id: int): State
    requires Slotted(env, s) && id in s.mapInfo
  {
    DropFromNew(env, s, id).(nNew := s.nNew - 1)
  }

  lemma DropPreserves(env: Env, s: State, id: int)
    requires Slotted(env, s) && id in s.mapInfo
    ensures var t := Unfiled(env, s, id);
            && Preserves(s, t) && t.vvTried == s.vvTried && t.mapInfo.Keys == s.mapInfo.Keys && |t.mapInfo| == |s.mapInfo|
            && forall x :: x in s.mapInfo && s.mapInfo[x].fInTried ==> t.mapInfo[x].fInTried
  {
    var t := Unfiled(env, s, id);
    assert |t.mapInfo| == |t.mapInfo.Keys| && |s.mapInfo| == |s.mapInfo.Keys|;
  }

  lemma UnfiledKeeps(env: Env, s: State, id: int)
    requires Consistent(env, s) && id in s.mapInfo && !s.mapInfo[id].fInTried
    ensures var t := Unfiled(env, s, id); Inv(env, t, {id}, 0)
  {
    hide Inv, DropFromNew;
    NewSlotIsLive(env, s, {}, 0, 0, 0);
    var t := DropFromNew(env, s, id);
    DropKeeps(env, s, {}, 0, id);
    assert {} + {id} == {id};
    DropCount(env, s, id);
    InvNew(env, t, {id}, 1, s.nNew - 1);
  }

  lemma DropCount(env: Env, s: State, id: int)
    requires id in s.mapInfo && Shaped(s.vvNew, NEW_BUCKET_COUNT)
    ensures DropFromNew(env, s, id).nNew == s.nNew
  {}

  /** Room made for `id`: it is out of all new buckets and its tried slot is empty. */
  ghost function Room(env: Env, s: State, id: int): State
    requires Consistent(env, s) && id in s.mapInfo && !s.mapInfo[id].fInTried
  {
    UnfiledKeeps(env, s, id);
    var t := Unfiled(env, s, id);
    var slot := TriedSlot(env, s.nKey, s.mapInfo[id].service);
    TriedOccupant(env, t, {id}, 0, slot.0, slot.1);
    if t.vvTried[slot.0][slot.1] == -1 then t else Evict(env, t, id, slot.0, slot.1)
  }

  lemma RoomKeeps(env: Env, s: State, id: int)
    requires Consistent(env, s) && id in s.mapInfo && !s.mapInfo[id].fInTried
    ensures var t := Room(env, s, id);
            var slot := TriedSlot(env, s.nKey, s.mapInfo[id].service);
            && Inv(env, t, {id}, 0) && Preserves(s, t) && LosesAtMostOneNew(s, t)
            && id in t.mapInfo && t.mapInfo[id].service == s.mapInfo[id].service
            && Shaped(s.vvTried, TRIED_BUCKET_COUNT) && t.vvTried == Put(s.vvTried, slot.0, slot.1, -1)
            && Shaped(t.vvTried, TRIED_BUCKET_COUNT) && t.vvTried[slot.0][slot.1] == -1
  {
    hide Inv, Slotted, Unfiled, Evict, Preserves, LosesAtMostOneNew, TriedBucket, BucketPosition;
    InvSlotted(env, s, {}, 0);
    SlotRange(env, s.nKey, s.mapInfo[id].service);
    UnfiledKeeps(env, s, id);
    DropPreserves(env, s, id);
    var t := Unfiled(env, s, id);
    var slot := TriedSlot(env, s.nKey, s.mapInfo[id].service);
    TriedOccupant(env, t, {id}, 0, slot.0, slot.1);
    LimboFacts(env, t, {id}, 0, id);
    if t.vvTried[slot.0][slot.1] != -1 {
      EvictKeeps(env, t, id, slot.0, slot.1);
      var u := Evict(env, t, id, slot.0, slot.1);
      LimboFacts(env, u, {id}, 0, id);
      PreservesChain(s, t, u);
      LosesChain(s, t, u);
      PreservesFacts(s, u, id);
      EvictedSlotEmpty(t.vvTried, u.vvTried, slot.0, slot.1);
    } else {
      PreservesFacts(s, t, id);
      LosesChain(s, s, t);
      assert s.vvTried[slot.0][slot.1 := -1] == s.vvTried[slot.0];
    }
  }

  lemma EvictedSlotEmpty(t: Table, u: Table, b: int, p: int)
    requires Shaped(t, TRIED_BUCKET_COUNT) && 0 <= b < TRIED_BUCKET_COUNT && 0 <= p < BUCKET_SIZE && u == Put(t, b, p, -1)
    ensures Shaped(u, TRIED_BUCKET_COUNT) && u[b][p] == -1
  {}

  lemma PreservesFacts(s: State, t: State, id: int)
    requires Preserves(s, t) && id in t.mapInfo
    ensures id in s.mapInfo && t.mapInfo[id].service == s.mapInfo[id].service && t.nKey == s.nKey
    ensures Facts(t.mapInfo[id]) == Facts(s.mapInfo[id])
  {}

  /** A step that keeps all entries, and their places in the tried table, does not add to the loss. */
  lemma LosesChain(s: State, t: State, u: State)
    requires t.mapInfo.Keys == s.mapInfo.Keys && |t.mapInfo| == |s.mapInfo|
    requires forall x :: x in s.mapInfo && s.mapInfo[x].fInTried ==> t.mapInfo[x].fInTried
    requires LosesAtMostOneNew(t, u) || (u.mapInfo.Keys == t.mapInfo.Keys && |u.mapInfo| == |t.mapInfo|)
    ensures LosesAtMostOneNew(s, u)
  {}

  ghost function MakeTried(env: Env, s: State, id: int): State
    requires Consistent(env, s) && id in s.mapInfo && !s.mapInfo[id].fInTried
  {
    RoomKeeps(env, s, id);
    var slot := TriedSlot(env, s.nKey, s.mapInfo[id].service);
    Try(Room(env, s, id), slot.0, slot.1, id)
  }

  lemma TryPreserves(s: State, b: int, p: int, id: int)
    requires Shaped(s.vvTried, TRIED_BUCKET_COUNT) && 0 <= b < TRIED_BUCKET_COUNT && 0 <= p < BUCKET_SIZE && id in s.mapInfo
    ensures var t := Try(s, b, p, id);
            && Preserves(s, t) && id in t.mapInfo && t.mapInfo[id].fInTried
            && t.mapInfo.Keys == s.mapInfo.Keys && |t.mapInfo| == |s.mapInfo| && t.vvTried == Put(s.vvTried, b, p, id)
  {
    var t := Try(s, b, p, id);
    assert |t.mapInfo| == |t.mapInfo.Keys| && |s.mapInfo| == |s.mapInfo.Keys|;
  }

  /** The entry ends in its own tried slot, and everything else stays consistent. */
  lemma MakeTriedKeeps(env: Env, s: State, id: int)
    requires Consistent(env, s) && id in s.mapInfo && !s.mapInfo[id].fInTried
    ensures var t := MakeTried(env, s, id);
            && Consistent(env, t) && Preserves(s, t) && LosesAtMostOneNew(s, t)
            && id in t.mapInfo && t.mapInfo[id].fInTried
            && Shaped(s.vvTried, TRIED_BUCKET_COUNT)
            && var slot := TriedSlot(env, s.nKey, s.mapInfo[id].service);
               t.vvTried == Put(s.vvTried, slot.0, slot.1, id)
  {
    hide Inv, Room, Try, Preserves;
    RoomKeeps(env, s, id);
    var t := Room(env, s, id);
    RoomKey(env, s, id);
    var slot := TriedSlot(env, s.nKey, s.mapInfo[id].service);
    TryKeeps(env, t, {id}, 0, slot.0, slot.1, id);
    assert {id} - {id} == {};
    PutTwice(s.vvTried, slot.0, slot.1, id);
    TryPreserves(t, slot.0, slot.1, id);
    PreservesChain(s, t, Try(t, slot.0, slot.1, id));
  }

  lemma PutTwice(t: Table, b: int, p: int, id: int)
    requires Shaped(t, TRIED_BUCKET_COUNT) && 0 <= b < TRIED_BUCKET_COUNT && 0 <= p < BUCKET_SIZE
    ensures Put(Put(t, b, p, -1), b, p, id) == Put(t, b, p, id)
  {
    assert t[b][p := -1][p := id] == t[b][p := id];
  }

  lemma RoomKey(env: Env, s: State, id: int)
    requires Consistent(env, s) && id in s.mapInfo && !s.mapInfo[id].fInTried
    ensures Room(env, s, id).nKey == s.nKey
  {
    hide Inv, Room;
    RoomKeeps(env, s, id);
  }

  // ---------------------------------------------------------------- operations of the interface

  function Update(s: State, id: int, i: AddrInfo): State { s.(mapInfo := s.mapInfo[id := i]) }

  /** A change to the statistics of one entry is invisible to every index. */
  lemma UpdateKeeps(env: Env, s: State, id: int, i: AddrInfo, limbo: set<int>, excess: int)
    requires Inv(env, s, limbo, excess) && id in s.mapInfo
    requires var o := s.mapInfo[id];
             i.service == o.service && i.nRefCount == o.nRefCount && i.fInTried == o.fInTried && i.nRandomPos == o.nRandomPos
    ensures Inv(env, Update(s, id, i), limbo, excess)
  {
    IndexedFrame(s, Update(s, id, i));
    UpdateCore(env, s, id, i, limbo, excess);
  }

  lemma UpdateCore(env: Env, s: State, id: int, i: AddrInfo, limbo: set<int>, excess: int)
    requires Core(env, s, limbo, excess) && id in s.mapInfo
    requires var o := s.mapInfo[id];
             i.service == o.service && i.nRefCount == o.nRefCount && i.fInTried == o.fInTried && i.nRandomPos == o.nRandomPos
    ensures Core(env, Update(s, id, i), limbo, excess)
  {
    var t := Update(s, id, i);
    NumbersFrame(s, t);
    hide RandIndexed, Numbered;
    SlottedFrame(env, s, t);
    ReferencedFrame(env, s, t, limbo);
    IdsFrame(s, t);
  }

  /** The id of the entry for exactly this service, port included. */
  function FindExact(s: State, addr: Service): Option<int> {
    match Find(s, addr.net)
    case None => None
    case Some(id) => if id in s.mapInfo && s.mapInfo[id].service == addr then Some(id) else None
  }

  /** The index finds exactly the entry of an address. */
  lemma FindIff(env: Env, s: State, a: NetAddr, id: int)
    requires Consistent(env, s)
    ensures Find(s, a) == Some(id) <==> id in s.mapInfo && s.mapInfo[id].service.net == a
  {}

  lemma FindExactIff(env: Env, s: State, addr: Service, id: int)
    requires Consistent(env, s)
    ensures FindExact(s, addr) == Some(id) <==> id in s.mapInfo && s.mapInfo[id].service == addr
  {}

  function Praised(i: AddrInfo, nTime: int): AddrInfo { i.(nLastSuccess := nTime, nLastTry := nTime, nAttempts := 0) }

  ghost function Good(env: Env, s: State, addr: Service, nTime: int): State
    requires Consistent(env, s)
  {
    match FindExact(s, addr)
    case None => s
    case Some(id) =>
      UpdateKeeps(env, s, id, Praised(s.mapInfo[id], nTime), {}, 0);
      var t := Update(s, id, Praised(s.mapInfo[id], nTime));
      // no slot of the new table lists the entry, which consistency rules out
      if t.mapInfo[id].fInTried || Buckets(env, t, id) == {} then t else MakeTried(env, t, id)
  }

  lemma NewEntryHasBucket(env: Env, s: State, id: int)
    requires Consistent(env, s) && id in s.mapInfo && !s.mapInfo[id].fInTried
    ensures Buckets(env, s, id) != {}
  {}

  lemma UpdateLoses(s: State, id: int, i: AddrInfo, u: State)
    requires id in s.mapInfo && i.fInTried == s.mapInfo[id].fInTried
    requires u == Update(s, id, i) || LosesAtMostOneNew(Update(s, id, i), u)
    ensures LosesAtMostOneNew(s, u)
  {
    var t := Update(s, id, i);
    assert t.mapInfo.Keys == s.mapInfo.Keys && |t.mapInfo| == |t.mapInfo.Keys| && |s.mapInfo| == |s.mapInfo.Keys|;
  }

  /** A reported success leaves the entry in the tried table, newly dated, whatever had to move. */
  lemma GoodKeeps(env: Env, s: State, addr: Service, nTime: int)
    requires Consistent(env, s)
    ensures var t := Good(env, s, addr, nTime);
            && Consistent(env, t) && LosesAtMostOneNew(s, t)
            && ((forall x :: x in s.mapInfo ==> s.mapInfo[x].service != addr) ==> t == s)
            && (forall x :: x in s.mapInfo && s.mapInfo[x].service == addr ==> x in t.mapInfo && t.mapInfo[x].fInTried)
            && (forall x :: x in t.mapInfo ==>
                  && x in s.mapInfo
                  && Facts(t.mapInfo[x]) == Facts(if s.mapInfo[x].service == addr then Praised(s.mapInfo[x], nTime) else s.mapInfo[x]))
  {
    hide Inv, MakeTried, Preserves, LosesAtMostOneNew;
    forall x ensures FindExact(s, addr) == Some(x) <==> x in s.mapInfo && s.mapInfo[x].service == addr { FindExactIff(env, s, addr, x); }
    match FindExact(s, addr)
    case None =>
      LosesNothing(s);
    case Some(id) =>
      var i := Praised(s.mapInfo[id], nTime);
      UpdateKeeps(env, s, id, i, {}, 0);
      var t := Update(s, id, i);
      if !t.mapInfo[id].fInTried {
        NewEntryHasBucket(env, t, id);
        MakeTriedKeeps(env, t, id);
        forall x | x in MakeTried(env, t, id).mapInfo { PreservesFacts(t, MakeTried(env, t, id), x); }
      }
      UpdateLoses(s, id, i, Good(env, s, addr, nTime));
  }

  lemma GoodConsistent(env: Env, s: State, addr: Service, nTime: int)
    requires Consistent(env, s)
    ensures Consistent(env, Good(env, s, addr, nTime))
  {
    hide Good, Consistent;
    GoodKeeps(env, s, addr, nTime);
  }

  lemma LosesNothing(s: State)
    ensures LosesAtMostOneNew(s, s)
  {}

  /** What an announcement tells about a known entry: a newer time, and services. */
  function Refreshed(i: AddrInfo, addr: Address, penalty: int, now: int): AddrInfo {
    var interval := if now - addr.nTime < 24 * 60 * 60 then 60 * 60 else 24 * 60 * 60;
    var j := if addr.nTime != 0 && (i.nTime == 0 || i.nTime < addr.nTime - interval - penalty)
             then i.(nTime := Max0(addr.nTime - penalty)) else i;
    j.(nServices := j.nServices + addr.nServices)
  }

  /** A known entry gets one more reference only if the announcement is news, the entry is not in the
      tried table and below its maximum, and a draw succeeds that is twice as hard per reference. */
  predicate MayAddReference(i: AddrInfo, addr: Address, draw: nat)
    requires i.nRefCount >= 0
  {
    && addr.nTime != 0 && (i.nTime == 0 || addr.nTime > i.nTime)
    && !i.fInTried
    && i.nRefCount != NEW_BUCKETS_PER_ADDRESS
    && (Pow2(i.nRefCount) > 1 ==> draw % Pow2(i.nRefCount) == 0)
  }

  /** Before placing: either a known new entry with room for a reference, or one just created. */
  ghost predicate Placeable(env: Env, s: State, id: int, created: bool) {
    && Inv(env, s, if created then {id} else {}, if created then 1 else 0)
    && id in s.mapInfo && !s.mapInfo[id].fInTried && s.mapInfo[id].nRefCount < NEW_BUCKETS_PER_ADDRESS
  }

  function PlaceSlot(env: Env, s: State, id: int, source: NetAddr): (int, int)
    requires id in s.mapInfo
  {
    HomeSlot(env, s.nKey, s.mapInfo[id].(source := source))
  }

  /** Whether the occupant of the slot gives way. */
  predicate Overwrites(s: State, occupant: int, id: int, now: int)
    requires occupant in s.mapInfo && id in s.mapInfo
  {
    IsTerrible(s.mapInfo[occupant], now) || (s.mapInfo[occupant].nRefCount > 1 && s.mapInfo[id].nRefCount == 0)
  }

  lemma PlaceIsSafe(env: Env, s: State, id: int, created: bool, b: int, p: int)
    requires Placeable(env, s, id, created) && 0 <= b < NEW_BUCKET_COUNT && 0 <= p < BUCKET_SIZE
    ensures Shaped(s.vvNew, NEW_BUCKET_COUNT) && (s.vvNew[b][p] != -1 ==> s.vvNew[b][p] in s.mapInfo)
    ensures CanClear(s, b, p) && (s.mapInfo[id].nRefCount == 0 <==> created)
    ensures created ==> s.vvNew[b][p] != id && CanDelete(s, id)
    ensures s.vvNew[b][p] != id ==> id in ClearNew(s, b, p).mapInfo
    ensures Shaped(ClearNew(s, b, p).vvNew, NEW_BUCKET_COUNT)
  {
    var limbo, excess := if created then {id} else {}, if created then 1 else 0;
    NewSlotIsLive(env, s, limbo, excess, b, p);
    if created { LimboCanBeDeleted(env, s, limbo, excess, id); FreshHasNoSlot(env, s, limbo, excess, id, b, p); }
    NotFreshHasReference(env, s, id, created);
    hide Inv, ClearNew, CanClear, CanDelete;
    ClearNewKeeps(env, s, limbo, excess, b, p);
    ClearNewPreserves(s, b, p);
  }

  lemma NotFreshHasReference(env: Env, s: State, id: int, created: bool)
    requires Placeable(env, s, id, created)
    ensures s.mapInfo[id].nRefCount == 0 <==> created
  {}

  lemma FreshHasNoSlot(env: Env, s: State, limbo: set<int>, excess: int, id: int, b: int, p: int)
    requires Inv(env, s, limbo, excess) && id in limbo && 0 <= b < NEW_BUCKET_COUNT && 0 <= p < BUCKET_SIZE
    ensures s.vvNew[b][p] != id
  {
    assert Buckets(env, s, id) == {};
    assert b !in Buckets(env, s, id);
  }

  /** The second half of Add_: enter `id` in the new bucket that `source` leads to, or give up. */
  ghost function Place(env: Env, s: State, id: int, created: bool, source: NetAddr, now: int): State
    requires Placeable(env, s, id, created)
  {
    var slot := PlaceSlot(env, s, id, source);
    var b, p := slot.0, slot.1;
    PlaceIsSafe(env, s, id, created, b, p);
    var occupant := s.vvNew[b][p];
    if occupant == id then s
    else if occupant == -1 || Overwrites(s, occupant, id, now) then Slot(ClearNew(s, b, p), b, p, id)
    else if s.mapInfo[id].nRefCount == 0 then Delete(s, id)
    else s
  }

  /** Clearing the slot and entering `id` there. */
  lemma OverwriteKeeps(env: Env, s: State, id: int, created: bool, b: int, p: int)
    requires Placeable(env, s, id, created) && 0 <= b < NEW_BUCKET_COUNT && p == NewPos(env, s, b, id)
    requires Shaped(s.vvNew, NEW_BUCKET_COUNT) && s.vvNew[b][p] != id
    ensures CanClear(s, b, p)
    ensures var c := ClearNew(s, b, p);
            && Shaped(c.vvNew, NEW_BUCKET_COUNT) && id in c.mapInfo
            && var t := Slot(c, b, p, id);
               Consistent(env, t) && Preserves(s, t) && t.vvTried == s.vvTried && id in t.mapInfo && LosesAtMostOneNew(s, t)
  {
    var limbo, excess := if created then {id} else {}, if created then 1 else 0;
    hide Inv, CanClear, CanDelete, ClearNew, Delete, Slot, Preserves, LosesAtMostOneNew;
    ClearNewKeeps(env, s, limbo, excess, b, p);
    ClearNewPreserves(s, b, p);
    ClearNewLoses(env, s, limbo, excess, b, p);
    var c := ClearNew(s, b, p);
    ClearedRefCount(s, b, p, id);
    PreservesFacts(s, c, id);
    SlotKeeps(env, c, limbo, excess, b, p, id);
    assert limbo - {id} == {};
    SlotPreserves(c, b, p, id);
    PreservesChain(s, c, Slot(c, b, p, id));
    LosesThen(s, c, Slot(c, b, p, id));
  }

  lemma PlaceKeeps(env: Env, s: State, id: int, created: bool, source: NetAddr, now: int)
    requires Placeable(env, s, id, created)
    ensures var t := Place(env, s, id, created, source, now);
            && Consistent(env, t) && Preserves(s, t) && t.vvTried == s.vvTried
            && (id in t.mapInfo ==> LosesAtMostOneNew(s, t))
            && (id !in t.mapInfo ==> created && t.mapInfo.Keys == s.mapInfo.Keys - {id})
  {
    var limbo, excess := if created then {id} else {}, if created then 1 else 0;
    var slot := PlaceSlot(env, s, id, source);
    var b, p := slot.0, slot.1;
    hide Inv, CanClear, CanDelete, ClearNew, Delete, Slot, Preserves, LosesAtMostOneNew;
    PlaceIsSafe(env, s, id, created, b, p);
    var occupant := s.vvNew[b][p];
    PreservesSelf(s);
    LosesNothing(s);
    if occupant == id {
    } else if occupant == -1 || Overwrites(s, occupant, id, now) {
      OverwriteKeeps(env, s, id, created, b, p);
    } else if s.mapInfo[id].nRefCount == 0 {
      DeleteKeeps(env, s, limbo, excess, id);
      assert limbo - {id} == {};
      DeletePreserves(s, id);
      DeleteLeavesTables(s, id);
    }
  }

  lemma PreservesSelf(s: State)
    ensures Preserves(s, s)
  {}

  lemma LosesThen(s: State, t: State, u: State)
    requires LosesAtMostOneNew(s, t) && u.mapInfo.Keys == t.mapInfo.Keys && |u.mapInfo| == |t.mapInfo|
    ensures LosesAtMostOneNew(s, u)
  {}

  lemma ClearedRefCount(s: State, b: int, p: int, id: int)
    requires CanClear(s, b, p) && id in s.mapInfo && id != s.vvNew[b][p]
    ensures var t := ClearNew(s, b, p);
            id in t.mapInfo && t.mapInfo[id].nRefCount == s.mapInfo[id].nRefCount && t.mapInfo[id].fInTried == s.mapInfo[id].fInTried
  {
    var occupant := s.vvNew[b][p];
    if occupant != -1 && s.mapInfo[occupant].nRefCount == 1 {
      DeleteRefCount(Unslot(s, b, p), occupant, id);
    }
  }

  lemma DeleteRefCount(s: State, gone: int, id: int)
    requires CanDelete(s, gone) && id in s.mapInfo && id != gone
    ensures var t := Delete(s, gone);
            id in t.mapInfo && t.mapInfo[id].nRefCount == s.mapInfo[id].nRefCount && t.mapInfo[id].fInTried == s.mapInfo[id].fInTried
  {}

  /** The first half of Add_ for an address that is not known yet. */
  function Created(s: State, addr: Address, source: NetAddr, penalty: int): State {
    var t := Create(s, addr, source);
    var i := t.mapInfo[s.nIdCount];
    t.(mapInfo := t.mapInfo[s.nIdCount := i.(nTime := Max0(i.nTime - penalty))], nNew := t.nNew + 1)
  }

  lemma CreatedKeeps(env: Env, s: State, addr: Address, source: NetAddr, penalty: int)
    requires Consistent(env, s) && addr.service.net !in s.mapAddr
    ensures Placeable(env, Created(s, addr, source, penalty), s.nIdCount, true)
  {
    hide Inv, Create;
    var id := s.nIdCount;
    CreateKeeps(env, s, {}, 0, addr, source);
    assert {} + {id} == {id};
    var t := Create(s, addr, source);
    LimboFacts(env, t, {id}, 0, id);
    var i := t.mapInfo[id].(nTime := Max0(t.mapInfo[id].nTime - penalty));
    UpdateKeeps(env, t, id, i, {id}, 0);
    InvNew(env, Update(t, id, i), {id}, 0, t.nNew + 1);
    assert Created(s, addr, source, penalty) == Update(t, id, i).(nNew := t.nNew + 1);
  }

  ghost function Add(env: Env, s: State, addr: Address, source: NetAddr, penalty: int, now: int, draw: nat): (State, bool)
    requires Consistent(env, s)
  {
    if !env.routable(addr.service.net) then (s, false)
    else
      match Find(s, addr.service.net)
      case Some(id) =>
        var i := Refreshed(s.mapInfo[id], addr, penalty, now);
        UpdateKeeps(env, s, id, i, {}, 0);
        var t := Update(s, id, i);
        RefCountRange(env, t, id);
        if MayAddReference(i, addr, draw) then (Place(env, t, id, false, source, now), false) else (t, false)
      case None =>
        NotFound(env, s, addr.service.net);
        CreatedKeeps(env, s, addr, source, penalty);
        (Place(env, Created(s, addr, source, penalty), s.nIdCount, true, source, now), true)
  }

  lemma RefCountRange(env: Env, s: State, id: int)
    requires Consistent(env, s) && id in s.mapInfo
    ensures 0 <= s.mapInfo[id].nRefCount <= NEW_BUCKETS_PER_ADDRESS
  {}

  lemma NotFound(env: Env, s: State, a: NetAddr)
    requires Consistent(env, s) && Find(s, a) == None
    ensures a !in s.mapAddr && forall x :: x in s.mapInfo ==> s.mapInfo[x].service.net != a
  {}

  /** An entry with what was announced and no history. */
  predicate Announced(i: AddrInfo, addr: Address, source: NetAddr, penalty: int) {
    && i.service == addr.service && i.nServices == addr.nServices && i.source == source && i.nTime == Max0(addr.nTime - penalty)
    && i.nLastTry == 0 && i.nLastSuccess == 0 && i.nAttempts == 0
  }

  lemma CreatedEffect(s: State, addr: Address, source: NetAddr, penalty: int)
    requires s.nIdCount !in s.mapInfo
    ensures var t := Created(s, addr, source, penalty);
            && t.mapInfo.Keys == s.mapInfo.Keys + {s.nIdCount} && |t.mapInfo| == |s.mapInfo| + 1
            && t.vvTried == s.vvTried && Announced(t.mapInfo[s.nIdCount], addr, source, penalty)
            && forall x :: x in s.mapInfo ==> t.mapInfo[x] == s.mapInfo[x]
  {
    var t := Created(s, addr, source, penalty);
    assert t.mapInfo.Keys == s.mapInfo.Keys + {s.nIdCount};
    assert |t.mapInfo| == |t.mapInfo.Keys| && |s.mapInfo| == |s.mapInfo.Keys|;
  }

  lemma CreatedLoses(s: State, t: State, u: State)
    requires s.nIdCount !in s.mapInfo && t.mapInfo.Keys == s.mapInfo.Keys + {s.nIdCount} && |t.mapInfo| == |s.mapInfo| + 1
    requires forall x :: x in s.mapInfo ==> t.mapInfo[x] == s.mapInfo[x]
    requires LosesAtMostOneNew(t, u) || u.mapInfo.Keys == t.mapInfo.Keys - {s.nIdCount}
    ensures LosesAtMostOneNew(s, u)
  {
    assert |u.mapInfo| == |u.mapInfo.Keys| && |t.mapInfo| == |t.mapInfo.Keys|;
  }

  lemma NextIdIsNew(env: Env, s: State)
    requires Consistent(env, s)
    ensures s.nIdCount !in s.mapInfo
  {}

  /** What an announcement may change in an entry that stays: where it is filed, and for the announced address
      the services, which are merged, and the time. That never goes back, is taken over if it is more than a
      day newer, and not if it is less than an hour newer, the penalty aside. */
  ghost predicate EntryUpdated(env: Env, before: AddrInfo, after: AddrInfo, addr: Address, penalty: int) {
    && Facts(after).(nTime := 0, nServices := {}) == Facts(before).(nTime := 0, nServices := {})
    && if before.service.net != addr.service.net || !env.routable(addr.service.net) then Facts(after) == Facts(before)
       else
         && after.nServices == before.nServices + addr.nServices
         && (after.nTime == before.nTime || after.nTime == Max0(addr.nTime - penalty))
         && after.nTime >= before.nTime
         && (addr.nTime != 0 && before.nTime < addr.nTime - penalty - 24 * 60 * 60 ==> after.nTime == Max0(addr.nTime - penalty))
         && (before.nTime != 0 && before.nTime >= addr.nTime - penalty - 60 * 60 ==> after.nTime == before.nTime)
  }

  ghost predicate AddEffect(env: Env, s: State, t: State, added: bool, addr: Address, source: NetAddr, penalty: int) {
    && Consistent(env, t) && LosesAtMostOneNew(s, t) && t.vvTried == s.vvTried && t.nKey == s.nKey
    && (forall x :: x in t.mapInfo ==>
          if x in s.mapInfo then EntryUpdated(env, s.mapInfo[x], t.mapInfo[x], addr, penalty)
          else added && x == s.nIdCount && Announced(t.mapInfo[x], addr, source, penalty))
  }

  lemma AddKnownKeeps(env: Env, s: State, id: int, addr: Address, source: NetAddr, penalty: int, now: int, draw: nat)
    requires Consistent(env, s) && Find(s, addr.service.net) == Some(id) && env.routable(addr.service.net)
    ensures var (t, added) := Add(env, s, addr, source, penalty, now, draw);
            !added && AddEffect(env, s, t, added, addr, source, penalty)
  {
    hide Inv, Place, LosesAtMostOneNew;
    LosesNothing(s);
    forall x ensures Find(s, addr.service.net) == Some(x) <==> x in s.mapInfo && s.mapInfo[x].service.net == addr.service.net {
      FindIff(env, s, addr.service.net, x);
    }
    var i := Refreshed(s.mapInfo[id], addr, penalty, now);
    UpdateKeeps(env, s, id, i, {}, 0);
    var t := Update(s, id, i);
    UpdateLoses(s, id, i, t);
    RefCountRange(env, t, id);
    if MayAddReference(i, addr, draw) {
      PlaceKeeps(env, t, id, false, source, now);
      UpdateLoses(s, id, i, Place(env, t, id, false, source, now));
    }
  }

  lemma AddUnknownKeeps(env: Env, s: State, addr: Address, source: NetAddr, penalty: int, now: int, draw: nat)
    requires Consistent(env, s) && Find(s, addr.service.net) == None && env.routable(addr.service.net)
    ensures var (t, added) := Add(env, s, addr, source, penalty, now, draw);
            added && AddEffect(env, s, t, added, addr, source, penalty)
  {
    hide Consistent, Inv, Placeable, Place, LosesAtMostOneNew;
    NotFound(env, s, addr.service.net);
    NextIdIsNew(env, s);
    CreatedKeeps(env, s, addr, source, penalty);
    CreatedEffect(s, addr, source, penalty);
    var t := Created(s, addr, source, penalty);
    PlaceKeeps(env, t, s.nIdCount, true, source, now);
    CreatedLoses(s, t, Place(env, t, s.nIdCount, true, source, now));
  }

  // ---------------------------------------------------------------- where an announced entry is filed

  /** The entry that an announcement is about, as far as its place in the new table goes. */
  function ServiceOf(s: State, addr: Address): Service {
    match Find(s, addr.service.net)
    case Some(id) => if id in s.mapInfo then s.mapInfo[id].service else addr.service
    case None => addr.service
  }

  /** Where the source of the announcement leads. */
  function SourceSlot(env: Env, s: State, addr: Address, source: NetAddr): (int, int) {
    var b := NewBucket(env, s.nKey, ServiceOf(s, addr), source);
    (b, BucketPosition(env, s.nKey, true, b, ServiceOf(s, addr)))
  }

  /** A new entry takes a slot that is free, or whose entry is terrible or has another one as well. */
  predicate YieldsToNew(s: State, occupant: int, now: int) {
    occupant == -1 || (occupant in s.mapInfo && (IsTerrible(s.mapInfo[occupant], now) || s.mapInfo[occupant].nRefCount > 1))
  }

  /** A known entry takes one more slot only if that is free or its entry terrible, the announcement is newer
      than what is known, and the entry is not tried and has room. */
  ghost predicate GainsReference(s: State, t: State, id: int, occupant: int, addr: Address, now: int, draw: nat)
    requires id in s.mapInfo && id in t.mapInfo && s.mapInfo[id].nRefCount >= 0
  {
    && addr.nTime != 0 && (t.mapInfo[id].nTime == 0 || addr.nTime > t.mapInfo[id].nTime)
    && !s.mapInfo[id].fInTried && s.mapInfo[id].nRefCount < NEW_BUCKETS_PER_ADDRESS && draw % Pow2(s.mapInfo[id].nRefCount) == 0
    && occupant != id && (occupant == -1 || (occupant in s.mapInfo && IsTerrible(s.mapInfo[occupant], now)))
  }

  /** What Add_ does to the new table. */
  ghost predicate Filed(env: Env, s: State, t: State, addr: Address, source: NetAddr, now: int, draw: nat)
    requires Consistent(env, s)
  {
    var slot := SourceSlot(env, s, addr, source);
    SourceSlotRange(env, s, addr, source);
    var occupant := s.vvNew[slot.0][slot.1];
    match Find(s, addr.service.net)
    case None =>
      var id := s.nIdCount;
      if YieldsToNew(s, occupant, now) then
        id in t.mapInfo && !t.mapInfo[id].fInTried && t.mapInfo[id].nRefCount == 1 && t.vvNew == Put(s.vvNew, slot.0, slot.1, id)
      else t.mapInfo.Keys == s.mapInfo.Keys && t.vvNew == s.vvNew
    case Some(id) =>
      RefCountRange(env, s, id);
      && id in t.mapInfo
      && var gains := GainsReference(s, t, id, occupant, addr, now, draw);
         && t.mapInfo[id].nRefCount == s.mapInfo[id].nRefCount + (if gains then 1 else 0)
         && t.vvNew == if gains then Put(s.vvNew, slot.0, slot.1, id) else s.vvNew
  }

  lemma SourceSlotRange(env: Env, s: State, addr: Address, source: NetAddr)
    requires Consistent(env, s)
    ensures var slot := SourceSlot(env, s, addr, source);
            && 0 <= slot.0 < NEW_BUCKET_COUNT && 0 <= slot.1 < BUCKET_SIZE && Shaped(s.vvNew, NEW_BUCKET_COUNT)
            && (s.vvNew[slot.0][slot.1] != -1 ==> s.vvNew[slot.0][slot.1] in s.mapInfo)
  {
    var slot := SourceSlot(env, s, addr, source);
    NewSlotIsLive(env, s, {}, 0, slot.0, slot.1);
  }

  /** Place as a choice between three outcomes. */
  lemma PlaceFiles(env: Env, s: State, id: int, created: bool, source: NetAddr, now: int)
    requires Placeable(env, s, id, created)
    ensures var t := Place(env, s, id, created, source, now);
            var slot := PlaceSlot(env, s, id, source);
            && Shaped(s.vvNew, NEW_BUCKET_COUNT) && 0 <= slot.0 < NEW_BUCKET_COUNT && 0 <= slot.1 < BUCKET_SIZE
            && var occupant := s.vvNew[slot.0][slot.1];
            && (occupant != -1 ==> occupant in s.mapInfo) && (created ==> occupant != id)
            && var enters := occupant != id && (occupant == -1 || Overwrites(s, occupant, id, now));
            && t.vvNew == (if enters then Put(s.vvNew, slot.0, slot.1, id) else s.vvNew)
            && (enters || !created ==> id in t.mapInfo && t.mapInfo[id].fInTried == s.mapInfo[id].fInTried
                                       && t.mapInfo[id].nRefCount == s.mapInfo[id].nRefCount + if enters then 1 else 0)
            && (!enters && created ==> t.mapInfo.Keys == s.mapInfo.Keys - {id})
  {
    var limbo, excess := if created then {id} else {}, if created then 1 else 0;
    hide Inv, CanClear, CanDelete, ClearNew, Delete, IsTerrible, NewBucket, BucketPosition, Preserves, LosesAtMostOneNew;
    var slot := PlaceSlot(env, s, id, source);
    var b, p := slot.0, slot.1;
    PlaceSlotRange(env, s, id, source);
    PlaceIsSafe(env, s, id, created, b, p);
    PlaceKeeps(env, s, id, created, source, now);
    var occupant := s.vvNew[b][p];
    if occupant != id && (occupant == -1 || Overwrites(s, occupant, id, now)) {
      ClearNewKeeps(env, s, limbo, excess, b, p);
      ClearedRefCount(s, b, p, id);
      assert s.vvNew[b][p := -1][p := id] == s.vvNew[b][p := id];
    } else if created {
      DeleteLeavesTables(s, id);
      DeleteDrops(s, id);
    }
  }

  lemma DeleteDrops(s: State, id: int)
    requires CanDelete(s, id)
    ensures Delete(s, id).mapInfo.Keys == s.mapInfo.Keys - {id}
  {
    DeletePreserves(s, id);
  }

  lemma PlaceSlotRange(env: Env, s: State, id: int, source: NetAddr)
    requires id in s.mapInfo
    ensures var slot := PlaceSlot(env, s, id, source); 0 <= slot.0 < NEW_BUCKET_COUNT && 0 <= slot.1 < BUCKET_SIZE
  {}

  lemma AddFiles(env: Env, s: State, addr: Address, source: NetAddr, penalty: int, now: int, draw: nat)
    requires Consistent(env, s) && env.routable(addr.service.net)
    ensures Filed(env, s, Add(env, s, addr, source, penalty, now, draw).0, addr, source, now, draw)
  {
    match Find(s, addr.service.net)
    case None => UnknownFiled(env, s, addr, source, penalty, now, draw);
    case Some(id) => KnownFiled(env, s, id, addr, source, penalty, now, draw);
  }

  lemma UnknownFiled(env: Env, s: State, addr: Address, source: NetAddr, penalty: int, now: int, draw: nat)
    requires Consistent(env, s) && env.routable(addr.service.net) && Find(s, addr.service.net) == None
    ensures Filed(env, s, Add(env, s, addr, source, penalty, now, draw).0, addr, source, now, draw)
  {
    hide Inv, Place, IsTerrible, NewBucket, BucketPosition, Placeable;
    NotFound(env, s, addr.service.net);
    NextIdIsNew(env, s);
    SourceSlotRange(env, s, addr, source);
    CreatedKeeps(env, s, addr, source, penalty);
    CreatedEffect(s, addr, source, penalty);
    CreatedUnfiled(s, addr, source, penalty);
    var c := Created(s, addr, source, penalty);
    PlaceFiles(env, c, s.nIdCount, true, source, now);
  }

  lemma CreatedUnfiled(s: State, addr: Address, source: NetAddr, penalty: int)
    ensures var t := Created(s, addr, source, penalty);
            && t.nKey == s.nKey && t.vvNew == s.vvNew && s.nIdCount in t.mapInfo
            && t.mapInfo[s.nIdCount].nRefCount == 0 && !t.mapInfo[s.nIdCount].fInTried && t.mapInfo[s.nIdCount].service == addr.service
  {}

  lemma KnownFiled(env: Env, s: State, id: int, addr: Address, source: NetAddr, penalty: int, now: int, draw: nat)
    requires Consistent(env, s) && env.routable(addr.service.net) && Find(s, addr.service.net) == Some(id)
    ensures Filed(env, s, Add(env, s, addr, source, penalty, now, draw).0, addr, source, now, draw)
  {
    hide Inv, Place, IsTerrible, NewBucket, BucketPosition, LosesAtMostOneNew;
    SourceSlotRange(env, s, addr, source);
    RefCountRange(env, s, id);
    var i := Refreshed(s.mapInfo[id], addr, penalty, now);
    UpdateKeeps(env, s, id, i, {}, 0);
    var u := Update(s, id, i);
    RefCountRange(env, u, id);
    assert PlaceSlot(env, u, id, source) == SourceSlot(env, s, addr, source);
    if MayAddReference(i, addr, draw) {
      NotFreshHasReference(env, u, id, false);
      PlaceFiles(env, u, id, false, source, now);
      PlaceKeeps(env, u, id, false, source, now);
      var t := Place(env, u, id, false, source, now);
      PreservesFacts(u, t, id);
      assert t.mapInfo[id].nTime == i.nTime;
    } else {
      assert Add(env, s, addr, source, penalty, now, draw).0 == u;
    }
  }

  /** A healthy entry with one reference is never put out of its slot by an announcement. */
  lemma HealthyStay(env: Env, s: State, addr: Address, source: NetAddr, penalty: int, now: int, draw: nat, b: int, p: int)
    requires Consistent(env, s) && 0 <= b < NEW_BUCKET_COUNT && 0 <= p < BUCKET_SIZE
    requires var t := Add(env, s, addr, source, penalty, now, draw).0;
             && Shaped(s.vvNew, NEW_BUCKET_COUNT) && Shaped(t.vvNew, NEW_BUCKET_COUNT)
             && s.vvNew[b][p] != -1 && s.vvNew[b][p] in s.mapInfo && !IsTerrible(s.mapInfo[s.vvNew[b][p]], now) && s.mapInfo[s.vvNew[b][p]].nRefCount <= 1
    ensures Add(env, s, addr, source, penalty, now, draw).0.vvNew[b][p] == s.vvNew[b][p]
  {
    hide Inv, Add, IsTerrible, NewBucket, BucketPosition;
    if env.routable(addr.service.net) {
      AddFiles(env, s, addr, source, penalty, now, draw);
      SourceSlotRange(env, s, addr, source);
    } else {
      NotRoutable(env, s, addr, source, penalty, now, draw);
    }
  }

  lemma NotRoutable(env: Env, s: State, addr: Address, source: NetAddr, penalty: int, now: int, draw: nat)
    requires Consistent(env, s) && !env.routable(addr.service.net)
    ensures Add(env, s, addr, source, penalty, now, draw) == (s, false)
  {}

  /** An announcement keeps the manager consistent, never loses a tried entry and at most one other, and
      changes nothing but times and services of known entries and the entry of the announced address. */
  lemma AddKeeps(env: Env, s: State, addr: Address, source: NetAddr, penalty: int, now: int, draw: nat)
    requires Consistent(env, s)
    ensures var (t, added) := Add(env, s, addr, source, penalty, now, draw);
            && AddEffect(env, s, t, added, addr, source, penalty)
            && (added <==> env.routable(addr.service.net) && Find(s, addr.service.net) == None)
  {
    hide Inv, Place, LosesAtMostOneNew, Created, Refreshed;
    LosesNothing(s);
    if env.routable(addr.service.net) {
      match Find(s, addr.service.net)
      case Some(id) => AddKnownKeeps(env, s, id, addr, source, penalty, now, draw);
      case None => AddUnknownKeeps(env, s, addr, source, penalty, now, draw);
    }
  }
}
