/** What moving an entry to the tried table does to every slot of both tables. */
module AddrManMoves {
  import opened AddrMan
  import opened AddrManOps

  /** Where the source of an entry leads. */
  function OwnSlot(env: Env, key: nat, i: AddrInfo): (int, int) {
    var b := NewBucket(env, key, i.service, i.source);
    (b, BucketPosition(env, key, true, b, i.service))
  }

  /** One slot of the new table after the move: the entry put out of the tried table, if there was one, in the
      slot its own source leads to; free where the moved entry was; otherwise as before. */
  function AfterMove(env: Env, s: State, id: int, out: int, b: int, p: int): int
    requires Shaped(s.vvNew, NEW_BUCKET_COUNT) && 0 <= b < NEW_BUCKET_COUNT && 0 <= p < BUCKET_SIZE
  {
    if out in s.mapInfo && OwnSlot(env, s.nKey, s.mapInfo[out]) == (b, p) then out
    else if s.vvNew[b][p] == id then -1
    else s.vvNew[b][p]
  }

  /** `t` is `s` after the move. With the consistency of `t` this fixes every reference count, and which entry,
      if any, was lost: one in the way of the returning entry that had no other slot. */
  ghost predicate Moved(env: Env, s: State, t: State, id: int)
    requires Consistent(env, s) && id in s.mapInfo
  {
    var slot := TriedSlot(env, s.nKey, s.mapInfo[id].service);
    SlotRange(env, s.nKey, s.mapInfo[id].service);
    InvSlotted(env, s, {}, 0);
    && Shaped(t.vvNew, NEW_BUCKET_COUNT)
    && t.vvTried == Put(s.vvTried, slot.0, slot.1, id)
    && forall b, p :: 0 <= b < NEW_BUCKET_COUNT && 0 <= p < BUCKET_SIZE ==>
         t.vvNew[b][p] == AfterMove(env, s, id, s.vvTried[slot.0][slot.1], b, p)
  }

  lemma UnfiledSlots(env: Env, s: State, id: int, b: int, p: int)
    requires Slotted(env, s) && id in s.mapInfo && 0 <= b < NEW_BUCKET_COUNT && 0 <= p < BUCKET_SIZE
    ensures var t := Unfiled(env, s, id);
            && Shaped(t.vvNew, NEW_BUCKET_COUNT) && t.vvTried == s.vvTried && t.nKey == s.nKey
            && t.vvNew[b][p] == if s.vvNew[b][p] == id then -1 else s.vvNew[b][p]
  {}

  lemma EvictSlots(env: Env, s: State, id: int, b: int, p: int)
    requires Inv(env, s, {id}, 0)
    requires 0 <= b < TRIED_BUCKET_COUNT && 0 <= p < BUCKET_SIZE && s.vvTried[b][p] != -1
    ensures s.vvTried[b][p] in s.mapInfo && Shaped(s.vvNew, NEW_BUCKET_COUNT)
    ensures var home := OwnSlot(env, s.nKey, s.mapInfo[s.vvTried[b][p]]);
            && 0 <= home.0 < NEW_BUCKET_COUNT && 0 <= home.1 < BUCKET_SIZE
            && Evict(env, s, id, b, p).vvNew == Put(s.vvNew, home.0, home.1, s.vvTried[b][p])
  {
    hide Inv, ClearNew, CanClear;
    InvSlotted(env, s, {id}, 0);
    EvictIsSafe(env, s, id, b, p);
    var home := OwnSlot(env, s.nKey, s.mapInfo[s.vvTried[b][p]]);
    assert s.vvNew[home.0][home.1 := -1][home.1 := s.vvTried[b][p]] == s.vvNew[home.0][home.1 := s.vvTried[b][p]];
  }

  lemma NoEntryAtNone(env: Env, s: State)
    requires Consistent(env, s)
    ensures -1 !in s.mapInfo
  {}

  lemma MakeTriedMoves(env: Env, s: State, id: int)
    requires Consistent(env, s) && id in s.mapInfo && !s.mapInfo[id].fInTried
    ensures Moved(env, s, MakeTried(env, s, id), id)
  {
    hide Inv, Unfiled, Evict, NewBucket, BucketPosition, TriedSlot;
    InvSlotted(env, s, {}, 0);
    SlotRange(env, s.nKey, s.mapInfo[id].service);
    MakeTriedKeeps(env, s, id);
    UnfiledKeeps(env, s, id);
    DropPreserves(env, s, id);
    var slot := TriedSlot(env, s.nKey, s.mapInfo[id].service);
    var u, out := Unfiled(env, s, id), s.vvTried[slot.0][slot.1];
    TriedOccupant(env, u, {id}, 0, slot.0, slot.1);
    forall b, p | 0 <= b < NEW_BUCKET_COUNT && 0 <= p < BUCKET_SIZE ensures Shaped(u.vvNew, NEW_BUCKET_COUNT) && u.vvNew[b][p] == if s.vvNew[b][p] == id then -1 else s.vvNew[b][p] {
      UnfiledSlots(env, s, id, b, p);
    }
    if out == -1 {
      NoEntryAtNone(env, s);
    } else {
      EvictSlots(env, u, id, slot.0, slot.1);
      PreservesFacts(s, u, out);
    }
  }

  /** A reported success of a new entry moves it just so; of a tried one, it moves nothing. */
  lemma GoodMoves(env: Env, s: State, addr: Service, nTime: int, id: int)
    requires Consistent(env, s) && id in s.mapInfo && s.mapInfo[id].service == addr
    ensures var t := Good(env, s, addr, nTime);
            if s.mapInfo[id].fInTried then t.vvNew == s.vvNew && t.vvTried == s.vvTried && t.mapInfo.Keys == s.mapInfo.Keys
            else Moved(env, s, t, id)
  {
    hide Inv, MakeTried, NewBucket, BucketPosition, TriedSlot;
    FindExactIff(env, s, addr, id);
    var i := Praised(s.mapInfo[id], nTime);
    UpdateKeeps(env, s, id, i, {}, 0);
    var u := Update(s, id, i);
    if !s.mapInfo[id].fInTried {
      NewEntryHasBucket(env, u, id);
      MakeTriedMoves(env, u, id);
    }
  }
}
