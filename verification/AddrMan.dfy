/** The address manager: five redundant indexes over one set of addresses.

    `State` is the value of all fields of the manager, and each operation of the source is a
    function on it; the class `Manager` (AddrManClass.dfy) runs the operations in place and is
    proved equal to these functions. `Inv` is the consistency the source checks in `Check_`,
    weakened so that it also holds half way through an operation. */
module AddrMan {
  import opened Options

  const TRIED_BUCKET_COUNT := 256
  const NEW_BUCKET_COUNT := 1024
  const BUCKET_SIZE := 64
  const TRIED_BUCKETS_PER_GROUP := 8
  const NEW_BUCKETS_PER_SOURCE_GROUP := 64
  const NEW_BUCKETS_PER_ADDRESS := 8
  const HORIZON_DAYS := 30
  const RETRIES := 3
  const MAX_FAILURES := 10
  const MIN_FAIL_DAYS := 7
  const GETADDR_MAX_PCT := 23
  const GETADDR_MAX := 2500

  /** A network address without its port. */
  datatype NetAddr = NetAddr(ip: seq<int>)
  datatype Service = Service(net: NetAddr, port: int)

  /** `nServices` is the set of the service bits that are on. */
  datatype Address = Address(service: Service, nServices: set<nat>, nTime: int)

  datatype AddrInfo = AddrInfo(
    service: Service, nServices: set<nat>, nTime: int, nLastTry: int,
    source: NetAddr, nLastSuccess: int, nAttempts: int,
    nRefCount: int, fInTried: bool, nRandomPos: int)

  /** What is fed to the hash: the bucket key comes first in every case. */
  datatype Preimage =
    | OfKey(key: nat, service: Service)
    | OfTriedGroup(key: nat, group: seq<int>, choice: int)
    | OfGroups(key: nat, group: seq<int>, sourceGroup: seq<int>)
    | OfSourceGroup(key: nat, sourceGroup: seq<int>, choice: int)
    | OfPosition(key: nat, fNew: bool, bucket: int, service: Service)

  /** Everything the manager calls but does not define. */
  datatype Env = Env(hash: Preimage -> nat, group: NetAddr -> seq<int>, routable: NetAddr -> bool)

  function TriedBucket(env: Env, key: nat, service: Service): int {
    var hash1 := env.hash(OfKey(key, service));
    env.hash(OfTriedGroup(key, env.group(service.net), hash1 % TRIED_BUCKETS_PER_GROUP)) % TRIED_BUCKET_COUNT
  }

  function NewBucket(env: Env, key: nat, service: Service, source: NetAddr): int {
    var hash1 := env.hash(OfGroups(key, env.group(service.net), env.group(source)));
    env.hash(OfSourceGroup(key, env.group(source), hash1 % NEW_BUCKETS_PER_SOURCE_GROUP)) % NEW_BUCKET_COUNT
  }

  function BucketPosition(env: Env, key: nat, fNew: bool, bucket: int, service: Service): int {
    env.hash(OfPosition(key, fNew, bucket, service)) % BUCKET_SIZE
  }

  predicate IsTerrible(info: AddrInfo, nNow: int) {
    if info.nLastTry != 0 && info.nLastTry >= nNow - 60 then false
    else
      || info.nTime > nNow + 10 * 60
      || info.nTime == 0
      || nNow - info.nTime > HORIZON_DAYS * 24 * 60 * 60
      || (info.nLastSuccess == 0 && info.nAttempts >= RETRIES)
      || (nNow - info.nLastSuccess > MIN_FAIL_DAYS * 24 * 60 * 60 && info.nAttempts >= MAX_FAILURES)
  }

  /** A table of buckets; -1 marks an empty slot. */
  type Table = seq<seq<int>>

  predicate Shaped(t: Table, buckets: int) {
    |t| == buckets && forall b :: 0 <= b < |t| ==> |t[b]| == BUCKET_SIZE
  }

  function Put(t: Table, b: int, p: int, id: int): Table
    requires 0 <= b < |t| && 0 <= p < |t[b]|
  {
    t[b := t[b][p := id]]
  }

  datatype State = State(
    nKey: nat, nIdCount: int, mapInfo: map<int, AddrInfo>, mapAddr: map<NetAddr, int>, vRandom: seq<int>,
    nTried: int, vvTried: Table, nNew: int, vvNew: Table)

  // ---------------------------------------------------------------- invariant

  /** `mapAddr` is the inverse of the address field, and ids are below the counter. */
  ghost predicate AddrIndexed(info: map<int, AddrInfo>, addr: map<NetAddr, int>, count: int) {
    && 0 <= count
    && (forall id :: id in info ==>
          0 <= id < count && info[id].service.net in addr && addr[info[id].service.net] == id)
    && (forall a :: a in addr ==> addr[a] in info && info[addr[a]].service.net == a)
  }

  /** `vRandom` lists every id once, at the position its entry records. */
  ghost predicate RandIndexed(info: map<int, AddrInfo>, random: seq<int>) {
    && (forall id :: id in info ==> 0 <= info[id].nRandomPos < |random| && random[info[id].nRandomPos] == id)
    && (forall i :: 0 <= i < |random| ==> random[i] in info && info[random[i]].nRandomPos == i)
  }

  ghost predicate Indexed(s: State) {
    AddrIndexed(s.mapInfo, s.mapAddr, s.nIdCount) && RandIndexed(s.mapInfo, s.vRandom)
  }

  function NewPos(env: Env, s: State, b: int, id: int): int
    requires id in s.mapInfo
  {
    BucketPosition(env, s.nKey, true, b, s.mapInfo[id].service)
  }

  function TriedSlot(env: Env, key: nat, service: Service): (int, int) {
    var b := TriedBucket(env, key, service);
    (b, BucketPosition(env, key, false, b, service))
  }

  /** Each occupied slot holds a live entry of the right kind, in the slot its hash assigns. */
  ghost predicate Slotted(env: Env, s: State) {
    && Shaped(s.vvNew, NEW_BUCKET_COUNT)
    && Shaped(s.vvTried, TRIED_BUCKET_COUNT)
    && (forall b, p :: 0 <= b < NEW_BUCKET_COUNT && 0 <= p < BUCKET_SIZE && s.vvNew[b][p] != -1 ==>
          && s.vvNew[b][p] in s.mapInfo
          && !s.mapInfo[s.vvNew[b][p]].fInTried
          && NewPos(env, s, b, s.vvNew[b][p]) == p)
    && (forall b, p :: 0 <= b < TRIED_BUCKET_COUNT && 0 <= p < BUCKET_SIZE && s.vvTried[b][p] != -1 ==>
          && s.vvTried[b][p] in s.mapInfo
          && s.mapInfo[s.vvTried[b][p]].fInTried
          && TriedSlot(env, s.nKey, s.mapInfo[s.vvTried[b][p]].service) == (b, p))
  }

  /** The buckets of the new table that list `id`. */
  ghost function Buckets(env: Env, s: State, id: int): set<int>
    requires id in s.mapInfo && Shaped(s.vvNew, NEW_BUCKET_COUNT)
  {
    set b | 0 <= b < NEW_BUCKET_COUNT && s.vvNew[b][NewPos(env, s, b, id)] == id
  }

  ghost predicate TriedsFiled(env: Env, s: State)
    requires Shaped(s.vvTried, TRIED_BUCKET_COUNT)
  {
    forall id :: id in s.mapInfo && s.mapInfo[id].fInTried ==>
      && s.mapInfo[id].nRefCount == 0
      && var slot := TriedSlot(env, s.nKey, s.mapInfo[id].service); s.vvTried[slot.0][slot.1] == id
  }

  /** Reference counts count slots; entries in `limbo` have none and are in no table. */
  ghost predicate Referenced(env: Env, s: State, limbo: set<int>)
    requires Slotted(env, s)
  {
    && (forall id :: id in limbo ==> id in s.mapInfo && !s.mapInfo[id].fInTried)
    && TriedsFiled(env, s)
    && (forall id :: id in s.mapInfo && !s.mapInfo[id].fInTried ==>
          && s.mapInfo[id].nRefCount == |Buckets(env, s, id)|
          && s.mapInfo[id].nRefCount <= NEW_BUCKETS_PER_ADDRESS
          && (id in limbo <==> s.mapInfo[id].nRefCount == 0))
  }

  ghost function TriedIds(s: State): set<int> { set id | id in s.mapInfo && s.mapInfo[id].fInTried }
  ghost function NewIds(s: State): set<int> { set id | id in s.mapInfo && !s.mapInfo[id].fInTried }

  ghost predicate Numbered(info: map<int, AddrInfo>, count: int) { 0 <= count && forall id :: id in info ==> 0 <= id < count }

  /** Consistency of everything but `mapAddr`, with the entries of `limbo` still to be filed or deleted, and
      `nNew` `excess` above the number of filed entries. */
  ghost predicate Core(env: Env, s: State, limbo: set<int>, excess: int) {
    && Numbered(s.mapInfo, s.nIdCount)
    && RandIndexed(s.mapInfo, s.vRandom)
    && Slotted(env, s)
    && Referenced(env, s, limbo)
    && s.nTried == |TriedIds(s)|
    && s.nNew == |NewIds(s) - limbo| + excess
  }

  /** `Inv(env, s, {}, 0)` is full consistency. */
  ghost predicate Inv(env: Env, s: State, limbo: set<int>, excess: int) {
    AddrIndexed(s.mapInfo, s.mapAddr, s.nIdCount) && Core(env, s, limbo, excess)
  }

  ghost predicate Consistent(env: Env, s: State) { Inv(env, s, {}, 0) }

  lemma SlotRange(env: Env, key: nat, service: Service)
    ensures var slot := TriedSlot(env, key, service); 0 <= slot.0 < TRIED_BUCKET_COUNT && 0 <= slot.1 < BUCKET_SIZE
  {}

  lemma InvSlotted(env: Env, s: State, limbo: set<int>, excess: int)
    requires Inv(env, s, limbo, excess)
    ensures Slotted(env, s) && Shaped(s.vvNew, NEW_BUCKET_COUNT) && Shaped(s.vvTried, TRIED_BUCKET_COUNT)
  {}

  // ---------------------------------------------------------------- operations

  function Find(s: State, a: NetAddr): Option<int> {
    if a in s.mapAddr && s.mapAddr[a] in s.mapInfo then Some(s.mapAddr[a]) else None
  }

  function FreshInfo(addr: Address, source: NetAddr): AddrInfo {
    AddrInfo(addr.service, addr.nServices, addr.nTime, 0, source, 0, 0, 0, false, -1)
  }

  /** The new entry gets the id `s.nIdCount`. */
  function Create(s: State, addr: Address, source: NetAddr): State {
    s.(nIdCount := s.nIdCount + 1,
       mapInfo := s.mapInfo[s.nIdCount := FreshInfo(addr, source).(nRandomPos := |s.vRandom|)],
       mapAddr := s.mapAddr[addr.service.net := s.nIdCount],
       vRandom := s.vRandom + [s.nIdCount])
  }

  /** The assertions of SwapRandom. */
  predicate CanSwap(s: State, i: int, j: int) {
    i == j || (0 <= i < |s.vRandom| && 0 <= j < |s.vRandom| && s.vRandom[i] in s.mapInfo && s.vRandom[j] in s.mapInfo)
  }

  function SwapRandom(s: State, i: int, j: int): State
    requires CanSwap(s, i, j)
  {
    if i == j then s
    else
      var id1, id2 := s.vRandom[i], s.vRandom[j];
      var m := s.mapInfo[id1 := s.mapInfo[id1].(nRandomPos := j)];
      s.(mapInfo := m[id2 := m[id2].(nRandomPos := i)], vRandom := s.vRandom[i := id2][j := id1])
  }

  /** The assertions of Delete. */
  predicate CanDelete(s: State, id: int) {
    && id in s.mapInfo && !s.mapInfo[id].fInTried && s.mapInfo[id].nRefCount == 0
    && |s.vRandom| > 0 && CanSwap(s, s.mapInfo[id].nRandomPos, |s.vRandom| - 1)
  }

  /** Drop the entry `id`, which stands last in `vRandom`. */
  function DropLast(s: State, id: int): State
    requires id in s.mapInfo && |s.vRandom| > 0
  {
    s.(vRandom := s.vRandom[..|s.vRandom| - 1],
       mapAddr := s.mapAddr - {s.mapInfo[id].service.net},
       mapInfo := s.mapInfo - {id},
       nNew := s.nNew - 1)
  }

  function Delete(s: State, id: int): State
    requires CanDelete(s, id)
  {
    DropLast(SwapRandom(s, s.mapInfo[id].nRandomPos, |s.vRandom| - 1), id)
  }

  /** Give up one reference of the entry in the slot. */
  function Unslot(s: State, b: int, p: int): State
    requires Shaped(s.vvNew, NEW_BUCKET_COUNT) && 0 <= b < NEW_BUCKET_COUNT && 0 <= p < BUCKET_SIZE
    requires s.vvNew[b][p] in s.mapInfo
  {
    var id := s.vvNew[b][p];
    s.(mapInfo := s.mapInfo[id := s.mapInfo[id].(nRefCount := s.mapInfo[id].nRefCount - 1)],
       vvNew := Put(s.vvNew, b, p, -1))
  }

  /** The assertions of ClearNew and of the deletion it may make. */
  predicate CanClear(s: State, b: int, p: int) {
    && Shaped(s.vvNew, NEW_BUCKET_COUNT) && 0 <= b < NEW_BUCKET_COUNT && 0 <= p < BUCKET_SIZE
    && (s.vvNew[b][p] != -1 ==>
          && s.vvNew[b][p] in s.mapInfo && s.mapInfo[s.vvNew[b][p]].nRefCount > 0
          && (s.mapInfo[s.vvNew[b][p]].nRefCount == 1 ==> CanDelete(Unslot(s, b, p), s.vvNew[b][p])))
  }

  function ClearNew(s: State, b: int, p: int): State
    requires CanClear(s, b, p)
  {
    var id := s.vvNew[b][p];
    if id == -1 then s
    else
      var t := Unslot(s, b, p);
      if t.mapInfo[id].nRefCount == 0 then Delete(t, id) else t
  }

  /** Enter `id` into a slot of the new table. */
  function Slot(s: State, b: int, p: int, id: int): State
    requires Shaped(s.vvNew, NEW_BUCKET_COUNT) && 0 <= b < NEW_BUCKET_COUNT && 0 <= p < BUCKET_SIZE
    requires id in s.mapInfo
  {
    s.(mapInfo := s.mapInfo[id := s.mapInfo[id].(nRefCount := s.mapInfo[id].nRefCount + 1)],
       vvNew := Put(s.vvNew, b, p, id))
  }

  function DropRow(row: seq<int>, p: int, id: int): seq<int>
    requires 0 <= p < |row|
  {
    if row[p] == id then row[p := -1] else row
  }

  /** Take `id` out of every new bucket, as the first loop of MakeTried does. */
  ghost function DropFromNew(env: Env, s: State, id: int): State
    requires id in s.mapInfo && Shaped(s.vvNew, NEW_BUCKET_COUNT)
  {
    s.(mapInfo := s.mapInfo[id := s.mapInfo[id].(nRefCount := s.mapInfo[id].nRefCount - |Buckets(env, s, id)|)],
       vvNew := seq(NEW_BUCKET_COUNT, b requires 0 <= b < NEW_BUCKET_COUNT => DropRow(s.vvNew[b], NewPos(env, s, b, id), id)))
  }

  /** Take the entry in a tried slot out of the tried table. */
  function Untry(s: State, b: int, p: int): State
    requires Shaped(s.vvTried, TRIED_BUCKET_COUNT) && 0 <= b < TRIED_BUCKET_COUNT && 0 <= p < BUCKET_SIZE
    requires s.vvTried[b][p] in s.mapInfo
  {
    var id := s.vvTried[b][p];
    s.(mapInfo := s.mapInfo[id := s.mapInfo[id].(fInTried := false)],
       vvTried := Put(s.vvTried, b, p, -1), nTried := s.nTried - 1)
  }

  /** Enter `id` into a slot of the tried table. */
  function Try(s: State, b: int, p: int, id: int): State
    requires Shaped(s.vvTried, TRIED_BUCKET_COUNT) && 0 <= b < TRIED_BUCKET_COUNT && 0 <= p < BUCKET_SIZE
    requires id in s.mapInfo
  {
    s.(mapInfo := s.mapInfo[id := s.mapInfo[id].(fInTried := true)],
       vvTried := Put(s.vvTried, b, p, id), nTried := s.nTried + 1)
  }

  // ---------------------------------------------------------------- steps keep the invariant

  /** What the two tables can see of the entries. */
  ghost predicate SameFiling(s: State, t: State) {
    && t.nKey == s.nKey && t.vvNew == s.vvNew && t.vvTried == s.vvTried
    && t.mapInfo.Keys == s.mapInfo.Keys
    && forall id :: id in s.mapInfo ==>
          && t.mapInfo[id].service == s.mapInfo[id].service
          && t.mapInfo[id].fInTried == s.mapInfo[id].fInTried
          && t.mapInfo[id].nRefCount == s.mapInfo[id].nRefCount
  }

  lemma SlottedFrame(env: Env, s: State, t: State)
    requires Slotted(env, s) && SameFiling(s, t)
    ensures Slotted(env, t)
  {}

  lemma ReferencedFrame(env: Env, s: State, t: State, limbo: set<int>)
    requires Slotted(env, s) && Slotted(env, t) && Referenced(env, s, limbo) && SameFiling(s, t)
    ensures Referenced(env, t, limbo)
  {
    forall id | id in s.mapInfo ensures Buckets(env, t, id) == Buckets(env, s, id) {}
  }

  lemma IdsFrame(s: State, t: State)
    requires SameFiling(s, t)
    ensures TriedIds(t) == TriedIds(s) && NewIds(t) == NewIds(s)
  {
    forall id ensures id in TriedIds(t) <==> id in TriedIds(s) {}
    forall id ensures id in NewIds(t) <==> id in NewIds(s) {}
  }

  lemma SwapEffect(s: State, i: int, j: int)
    requires RandIndexed(s.mapInfo, s.vRandom) && 0 <= i < |s.vRandom| && 0 <= j < |s.vRandom|
    ensures CanSwap(s, i, j)
    ensures SameFiling(s, SwapRandom(s, i, j))
    ensures RandIndexed(SwapRandom(s, i, j).mapInfo, SwapRandom(s, i, j).vRandom)
  {
  }

  lemma AddrIndexedFrame(s: State, t: State)
    requires AddrIndexed(s.mapInfo, s.mapAddr, s.nIdCount) && SameFiling(s, t)
    requires t.mapAddr == s.mapAddr && t.nIdCount == s.nIdCount
    ensures AddrIndexed(t.mapInfo, t.mapAddr, t.nIdCount)
  {}

  lemma SwapRandomKeeps(env: Env, s: State, limbo: set<int>, excess: int, i: int, j: int)
    requires Inv(env, s, limbo, excess)
    requires 0 <= i < |s.vRandom| && 0 <= j < |s.vRandom|
    ensures CanSwap(s, i, j)
    ensures Inv(env, SwapRandom(s, i, j), limbo, excess)
    ensures SameFiling(s, SwapRandom(s, i, j))
    ensures |SwapRandom(s, i, j).vRandom| == |s.vRandom| && SwapRandom(s, i, j).vRandom[j] == s.vRandom[i]
  {
    hide Core;
    SwapRandomCore(env, s, limbo, excess, i, j);
    AddrIndexedFrame(s, SwapRandom(s, i, j));
  }

  lemma SwapRandomCore(env: Env, s: State, limbo: set<int>, excess: int, i: int, j: int)
    requires Core(env, s, limbo, excess)
    requires 0 <= i < |s.vRandom| && 0 <= j < |s.vRandom|
    ensures CanSwap(s, i, j)
    ensures Core(env, SwapRandom(s, i, j), limbo, excess)
    ensures SameFiling(s, SwapRandom(s, i, j))
    ensures |SwapRandom(s, i, j).vRandom| == |s.vRandom| && SwapRandom(s, i, j).vRandom[j] == s.vRandom[i]
  {
    SwapEffect(s, i, j);
    var t := SwapRandom(s, i, j);
    SlottedFrame(env, s, t);
    ReferencedFrame(env, s, t, limbo);
    IdsFrame(s, t);
  }

  lemma DropLastAddresses(s: State, id: int)
    requires AddrIndexed(s.mapInfo, s.mapAddr, s.nIdCount) && id in s.mapInfo && |s.vRandom| > 0
    ensures AddrIndexed(DropLast(s, id).mapInfo, DropLast(s, id).mapAddr, s.nIdCount)
  {}

  lemma DropLastSlots(env: Env, s: State, limbo: set<int>, id: int)
    requires Slotted(env, s) && Referenced(env, s, limbo) && id in limbo && id != -1 && |s.vRandom| > 0
    ensures Slotted(env, DropLast(s, id))
  {
    var t := DropLast(s, id);
    assert Buckets(env, s, id) == {};
    forall b | 0 <= b < NEW_BUCKET_COUNT ensures s.vvNew[b][NewPos(env, s, b, id)] != id {
      assert b !in Buckets(env, s, id);
    }
  }

  lemma DropLastReferences(env: Env, s: State, limbo: set<int>, id: int)
    requires Slotted(env, s) && Referenced(env, s, limbo) && id in limbo && |s.vRandom| > 0
    requires Slotted(env, DropLast(s, id))
    ensures Referenced(env, DropLast(s, id), limbo - {id})
  {
    var t := DropLast(s, id);
    forall x | x in t.mapInfo ensures Buckets(env, t, x) == Buckets(env, s, x) {}
  }

  lemma DropLastIds(s: State, limbo: set<int>, id: int)
    requires id in s.mapInfo && !s.mapInfo[id].fInTried && id in limbo && |s.vRandom| > 0
    ensures var t := DropLast(s, id);
            TriedIds(t) == TriedIds(s) && NewIds(t) - (limbo - {id}) == NewIds(s) - limbo
  {}

  lemma DropLastRandom(s: State, id: int)
    requires RandIndexed(s.mapInfo, s.vRandom) && |s.vRandom| > 0 && s.vRandom[|s.vRandom| - 1] == id
    ensures RandIndexed(DropLast(s, id).mapInfo, DropLast(s, id).vRandom)
  {}

  lemma DropLastCore(env: Env, s: State, limbo: set<int>, excess: int, id: int)
    requires Core(env, s, limbo, excess) && id in limbo
    requires |s.vRandom| > 0 && s.vRandom[|s.vRandom| - 1] == id
    ensures Core(env, DropLast(s, id), limbo - {id}, excess - 1)
  {
    DropLastRandom(s, id);
    DropLastSlots(env, s, limbo, id);
    DropLastReferences(env, s, limbo, id);
    DropLastIds(s, limbo, id);
  }

  lemma LimboCanBeDeleted(env: Env, s: State, limbo: set<int>, excess: int, id: int)
    requires Core(env, s, limbo, excess) && id in limbo
    ensures CanDelete(s, id) && 0 <= s.mapInfo[id].nRandomPos < |s.vRandom| && s.vRandom[s.mapInfo[id].nRandomPos] == id
  {}

  lemma DeleteCore(env: Env, s: State, limbo: set<int>, excess: int, id: int)
    requires Core(env, s, limbo, excess) && id in limbo
    ensures CanDelete(s, id)
    ensures Core(env, Delete(s, id), limbo - {id}, excess - 1)
  {
    hide Core, SwapRandom, DropLast;
    LimboCanBeDeleted(env, s, limbo, excess, id);
    var pos, last := s.mapInfo[id].nRandomPos, |s.vRandom| - 1;
    SwapRandomCore(env, s, limbo, excess, pos, last);
    DropLastCore(env, SwapRandom(s, pos, last), limbo, excess, id);
  }

  lemma DeleteKeeps(env: Env, s: State, limbo: set<int>, excess: int, id: int)
    requires Inv(env, s, limbo, excess) && id in limbo
    ensures CanDelete(s, id)
    ensures Inv(env, Delete(s, id), limbo - {id}, excess - 1)
  {
    hide Core, SwapRandom, DropLast, AddrIndexed;
    DeleteCore(env, s, limbo, excess, id);
    LimboCanBeDeleted(env, s, limbo, excess, id);
    var pos, last := s.mapInfo[id].nRandomPos, |s.vRandom| - 1;
    SwapRandomKeeps(env, s, limbo, excess, pos, last);
    DropLastAddresses(SwapRandom(s, pos, last), id);
    DropLastCount(SwapRandom(s, pos, last), id);
  }

  lemma DropLastCount(s: State, id: int)
    requires id in s.mapInfo && |s.vRandom| > 0
    ensures DropLast(s, id).nIdCount == s.nIdCount
  {}

  lemma IndexedFrame(s: State, t: State)
    requires Indexed(s)
    requires t.mapAddr == s.mapAddr && t.nIdCount == s.nIdCount && t.vRandom == s.vRandom
    requires t.mapInfo.Keys == s.mapInfo.Keys
    requires forall id :: id in s.mapInfo ==>
               t.mapInfo[id].service == s.mapInfo[id].service && t.mapInfo[id].nRandomPos == s.mapInfo[id].nRandomPos
    ensures Indexed(t)
  {}

  lemma NumbersFrame(s: State, t: State)
    requires Numbered(s.mapInfo, s.nIdCount) && RandIndexed(s.mapInfo, s.vRandom)
    requires t.nIdCount == s.nIdCount && t.vRandom == s.vRandom && t.mapInfo.Keys == s.mapInfo.Keys
    requires forall id :: id in s.mapInfo ==> t.mapInfo[id].nRandomPos == s.mapInfo[id].nRandomPos
    ensures Numbered(t.mapInfo, t.nIdCount) && RandIndexed(t.mapInfo, t.vRandom) && -1 !in s.mapInfo
  {}

  /** What one write to the new table may change: slot (b, p) becomes `v`, and reference counts. */
  ghost predicate PutsNew(env: Env, s: State, t: State, b: int, p: int, v: int) {
    && Slotted(env, s) && 0 <= b < NEW_BUCKET_COUNT && 0 <= p < BUCKET_SIZE
    && t.nKey == s.nKey && t.vvTried == s.vvTried && t.vvNew == Put(s.vvNew, b, p, v)
    && t.mapInfo.Keys == s.mapInfo.Keys
    && (forall id :: id in s.mapInfo ==>
          t.mapInfo[id].service == s.mapInfo[id].service && t.mapInfo[id].fInTried == s.mapInfo[id].fInTried)
    && (v == -1 || (v in s.mapInfo && !s.mapInfo[v].fInTried && NewPos(env, s, b, v) == p))
  }

  lemma PutSlots(env: Env, s: State, t: State, b: int, p: int, v: int)
    requires PutsNew(env, s, t, b, p, v)
    ensures Slotted(env, t)
  {}

  /** A write to slot (b, p) takes bucket b from the entry that was there and gives it to `v`. */
  lemma PutBuckets(env: Env, s: State, t: State, b: int, p: int, v: int, id: int)
    requires PutsNew(env, s, t, b, p, v) && id in s.mapInfo
    requires Shaped(t.vvNew, NEW_BUCKET_COUNT) && id != -1
    ensures id == v ==> Buckets(env, t, id) == Buckets(env, s, id) + {b}
    ensures id != v && id == s.vvNew[b][p] ==> Buckets(env, t, id) == Buckets(env, s, id) - {b} && b in Buckets(env, s, id)
    ensures id != v && id != s.vvNew[b][p] ==> Buckets(env, t, id) == Buckets(env, s, id)
    ensures id == v && s.vvNew[b][p] == -1 ==> b !in Buckets(env, s, id)
  {}

  lemma UnslotReferences(env: Env, s: State, limbo: set<int>, b: int, p: int)
    requires Slotted(env, s) && Referenced(env, s, limbo) && -1 !in s.mapInfo
    requires 0 <= b < NEW_BUCKET_COUNT && 0 <= p < BUCKET_SIZE && s.vvNew[b][p] != -1
    requires PutsNew(env, s, Unslot(s, b, p), b, p, -1) && Slotted(env, Unslot(s, b, p))
    ensures var id := s.vvNew[b][p];
            && id !in limbo && s.mapInfo[id].nRefCount > 0
            && Referenced(env, Unslot(s, b, p), if s.mapInfo[id].nRefCount == 1 then limbo + {id} else limbo)
  {
    var id, t := s.vvNew[b][p], Unslot(s, b, p);
    assert !s.mapInfo[id].fInTried && Shaped(s.vvNew, NEW_BUCKET_COUNT) && Shaped(t.vvNew, NEW_BUCKET_COUNT);
    assert TriedsFiled(env, t);
    hide Slotted, PutsNew;
    forall x | x in s.mapInfo { PutBuckets(env, s, t, b, p, -1, x); }
  }

  lemma UnslotIds(s: State, limbo: set<int>, b: int, p: int)
    requires Shaped(s.vvNew, NEW_BUCKET_COUNT) && 0 <= b < NEW_BUCKET_COUNT && 0 <= p < BUCKET_SIZE
    requires s.vvNew[b][p] in s.mapInfo && s.vvNew[b][p] !in limbo && !s.mapInfo[s.vvNew[b][p]].fInTried
    ensures var id, t := s.vvNew[b][p], Unslot(s, b, p);
            && TriedIds(t) == TriedIds(s) && NewIds(t) == NewIds(s)
            && |NewIds(t) - (limbo + {id})| == |NewIds(s) - limbo| - 1
  {
    var id, t := s.vvNew[b][p], Unslot(s, b, p);
    assert NewIds(t) == NewIds(s);
    assert NewIds(t) - (limbo + {id}) == (NewIds(s) - limbo) - {id};
  }

  lemma UnslotKeeps(env: Env, s: State, limbo: set<int>, excess: int, b: int, p: int)
    requires Inv(env, s, limbo, excess)
    requires 0 <= b < NEW_BUCKET_COUNT && 0 <= p < BUCKET_SIZE && s.vvNew[b][p] != -1
    ensures var id := s.vvNew[b][p];
            var gone := s.mapInfo[id].nRefCount == 1;
            && id !in limbo && s.mapInfo[id].nRefCount > 0
            && Inv(env, Unslot(s, b, p), if gone then limbo + {id} else limbo, if gone then excess + 1 else excess)
  {
    var t := Unslot(s, b, p);
    IndexedFrame(s, t);
    PutSlots(env, s, t, b, p, -1);
    UnslotReferences(env, s, limbo, b, p);
    UnslotIds(s, limbo, b, p);
  }

  lemma DeleteLeavesTables(s: State, id: int)
    requires CanDelete(s, id)
    ensures Delete(s, id).vvNew == s.vvNew && Delete(s, id).vvTried == s.vvTried
  {}

  lemma NewSlotIsLive(env: Env, s: State, limbo: set<int>, excess: int, b: int, p: int)
    requires Inv(env, s, limbo, excess) && 0 <= b < NEW_BUCKET_COUNT && 0 <= p < BUCKET_SIZE
    ensures Shaped(s.vvNew, NEW_BUCKET_COUNT) && (s.vvNew[b][p] != -1 ==> s.vvNew[b][p] in s.mapInfo)
  {}

  lemma ClearNewKeeps(env: Env, s: State, limbo: set<int>, excess: int, b: int, p: int)
    requires Inv(env, s, limbo, excess)
    requires 0 <= b < NEW_BUCKET_COUNT && 0 <= p < BUCKET_SIZE
    ensures CanClear(s, b, p)
    ensures Inv(env, ClearNew(s, b, p), limbo, excess)
    ensures ClearNew(s, b, p).vvNew == Put(s.vvNew, b, p, -1)
  {
    hide Inv, Delete, CanDelete;
    NewSlotIsLive(env, s, limbo, excess, b, p);
    var id := s.vvNew[b][p];
    if id == -1 {
      assert s.vvNew[b][p := -1] == s.vvNew[b];
    } else {
      UnslotKeeps(env, s, limbo, excess, b, p);
      var t := Unslot(s, b, p);
      if s.mapInfo[id].nRefCount == 1 {
        DeleteKeeps(env, t, limbo + {id}, excess + 1, id);
        DeleteLeavesTables(t, id);
        assert limbo + {id} - {id} == limbo;
      }
    }
  }

  lemma SlotReferences(env: Env, s: State, limbo: set<int>, b: int, p: int, id: int)
    requires Slotted(env, s) && Referenced(env, s, limbo) && -1 !in s.mapInfo
    requires 0 <= b < NEW_BUCKET_COUNT && 0 <= p < BUCKET_SIZE && s.vvNew[b][p] == -1
    requires id in s.mapInfo && !s.mapInfo[id].fInTried && s.mapInfo[id].nRefCount < NEW_BUCKETS_PER_ADDRESS
    requires PutsNew(env, s, Slot(s, b, p, id), b, p, id) && Slotted(env, Slot(s, b, p, id))
    ensures Referenced(env, Slot(s, b, p, id), limbo - {id})
  {
    var t := Slot(s, b, p, id);
    assert Shaped(s.vvNew, NEW_BUCKET_COUNT) && Shaped(t.vvNew, NEW_BUCKET_COUNT);
    assert TriedsFiled(env, t);
    hide Slotted, PutsNew;
    forall x | x in s.mapInfo { PutBuckets(env, s, t, b, p, id, x); }
  }

  lemma SlotIds(s: State, limbo: set<int>, b: int, p: int, id: int)
    requires Shaped(s.vvNew, NEW_BUCKET_COUNT) && 0 <= b < NEW_BUCKET_COUNT && 0 <= p < BUCKET_SIZE
    requires id in s.mapInfo && !s.mapInfo[id].fInTried
    ensures var t := Slot(s, b, p, id);
            && TriedIds(t) == TriedIds(s) && NewIds(t) == NewIds(s)
            && |NewIds(t) - (limbo - {id})| == |NewIds(s) - limbo| + if id in limbo then 1 else 0
  {
    var t := Slot(s, b, p, id);
    assert NewIds(t) == NewIds(s);
    assert NewIds(t) - (limbo - {id}) == (NewIds(s) - limbo) + {id};
    if id !in limbo { assert (NewIds(s) - limbo) + {id} == NewIds(s) - limbo; }
  }

  lemma SlotKeeps(env: Env, s: State, limbo: set<int>, excess: int, b: int, p: int, id: int)
    requires Inv(env, s, limbo, excess)
    requires 0 <= b < NEW_BUCKET_COUNT && 0 <= p < BUCKET_SIZE && s.vvNew[b][p] == -1
    requires id in s.mapInfo && !s.mapInfo[id].fInTried && s.mapInfo[id].nRefCount < NEW_BUCKETS_PER_ADDRESS
    requires p == NewPos(env, s, b, id)
    ensures Inv(env, Slot(s, b, p, id), limbo - {id}, if id in limbo then excess - 1 else excess)
  {
    IndexedFrame(s, Slot(s, b, p, id));
    SlotCore(env, s, limbo, excess, b, p, id);
  }

  lemma SlotCore(env: Env, s: State, limbo: set<int>, excess: int, b: int, p: int, id: int)
    requires Core(env, s, limbo, excess)
    requires 0 <= b < NEW_BUCKET_COUNT && 0 <= p < BUCKET_SIZE && s.vvNew[b][p] == -1
    requires id in s.mapInfo && !s.mapInfo[id].fInTried && s.mapInfo[id].nRefCount < NEW_BUCKETS_PER_ADDRESS
    requires p == NewPos(env, s, b, id)
    ensures Core(env, Slot(s, b, p, id), limbo - {id}, if id in limbo then excess - 1 else excess)
  {
    var t := Slot(s, b, p, id);
    NumbersFrame(s, t);
    hide RandIndexed, Numbered;
    assert Shaped(s.vvNew, NEW_BUCKET_COUNT) && PutsNew(env, s, t, b, p, id);
    hide Slotted, PutsNew, Referenced, Shaped;
    PutSlots(env, s, t, b, p, id);
    SlotReferences(env, s, limbo, b, p, id);
    SlotIds(s, limbo, b, p, id);
  }

  lemma CreateIndexes(s: State, addr: Address, source: NetAddr)
    requires Indexed(s) && addr.service.net !in s.mapAddr
    ensures Indexed(Create(s, addr, source)) && s.nIdCount !in s.mapInfo
  {
    var info, t := FreshInfo(addr, source).(nRandomPos := |s.vRandom|), Create(s, addr, source);
    assert s.nIdCount !in s.mapInfo;
    AddAddress(s.mapInfo, s.mapAddr, s.nIdCount, info);
    AddRandom(s.mapInfo, s.vRandom, s.nIdCount, info);
  }

  lemma AddAddress(info: map<int, AddrInfo>, addr: map<NetAddr, int>, id: int, new_: AddrInfo)
    requires AddrIndexed(info, addr, id) && new_.service.net !in addr
    ensures AddrIndexed(info[id := new_], addr[new_.service.net := id], id + 1)
  {}

  lemma AddRandom(info: map<int, AddrInfo>, random: seq<int>, id: int, new_: AddrInfo)
    requires RandIndexed(info, random) && id !in info && new_.nRandomPos == |random|
    ensures RandIndexed(info[id := new_], random + [id])
  {}

  lemma CreateFiles(env: Env, s: State, limbo: set<int>, addr: Address, source: NetAddr)
    requires Slotted(env, s) && Referenced(env, s, limbo) && s.nIdCount !in s.mapInfo && s.nIdCount >= 0
    ensures Slotted(env, Create(s, addr, source))
    ensures Referenced(env, Create(s, addr, source), limbo + {s.nIdCount})
    ensures TriedIds(Create(s, addr, source)) == TriedIds(s)
    ensures NewIds(Create(s, addr, source)) - (limbo + {s.nIdCount}) == NewIds(s) - limbo
  {
    var t := Create(s, addr, source);
    assert Buckets(env, t, s.nIdCount) == {};
    forall x | x in s.mapInfo ensures Buckets(env, t, x) == Buckets(env, s, x) {}
  }

  lemma CreateKeeps(env: Env, s: State, limbo: set<int>, excess: int, addr: Address, source: NetAddr)
    requires Inv(env, s, limbo, excess) && addr.service.net !in s.mapAddr
    ensures Inv(env, Create(s, addr, source), limbo + {s.nIdCount}, excess)
  {
    CreateIndexes(s, addr, source);
    CreateCore(env, s, limbo, excess, addr, source);
  }

  lemma CreateCore(env: Env, s: State, limbo: set<int>, excess: int, addr: Address, source: NetAddr)
    requires Core(env, s, limbo, excess)
    ensures Core(env, Create(s, addr, source), limbo + {s.nIdCount}, excess) && s.nIdCount !in s.mapInfo
  {
    assert s.nIdCount !in s.mapInfo;
    AddRandom(s.mapInfo, s.vRandom, s.nIdCount, FreshInfo(addr, source).(nRandomPos := |s.vRandom|));
    CreateFiles(env, s, limbo, addr, source);
  }

  lemma DropSlots(env: Env, s: State, id: int)
    requires Slotted(env, s) && id in s.mapInfo
    ensures Slotted(env, DropFromNew(env, s, id))
  {}

  lemma DropBuckets(env: Env, s: State, id: int, x: int)
    requires Slotted(env, s) && id in s.mapInfo && x in s.mapInfo && -1 !in s.mapInfo
    ensures Shaped(DropFromNew(env, s, id).vvNew, NEW_BUCKET_COUNT)
    ensures Buckets(env, DropFromNew(env, s, id), x) == if x == id then {} else Buckets(env, s, x)
  {}

  lemma DropReferences(env: Env, s: State, limbo: set<int>, id: int)
    requires Slotted(env, s) && Referenced(env, s, limbo) && id in s.mapInfo && -1 !in s.mapInfo && !s.mapInfo[id].fInTried
    requires Slotted(env, DropFromNew(env, s, id))
    ensures Referenced(env, DropFromNew(env, s, id), limbo + {id})
  {
    var t := DropFromNew(env, s, id);
    assert TriedsFiled(env, t);
    assert t.mapInfo[id].nRefCount == 0;
    assert Shaped(s.vvNew, NEW_BUCKET_COUNT) && Shaped(t.vvNew, NEW_BUCKET_COUNT);
    hide Slotted, Buckets;
    forall x | x in s.mapInfo { DropBuckets(env, s, id, x); }
  }

  lemma DropIds(env: Env, s: State, limbo: set<int>, id: int)
    requires id in s.mapInfo && Shaped(s.vvNew, NEW_BUCKET_COUNT) && id !in limbo && !s.mapInfo[id].fInTried
    ensures var t := DropFromNew(env, s, id);
            && TriedIds(t) == TriedIds(s) && |NewIds(t) - (limbo + {id})| == |NewIds(s) - limbo| - 1
  {
    var t := DropFromNew(env, s, id);
    assert NewIds(t) - (limbo + {id}) == (NewIds(s) - limbo) - {id};
  }

  lemma DropKeeps(env: Env, s: State, limbo: set<int>, excess: int, id: int)
    requires Inv(env, s, limbo, excess) && id in s.mapInfo && !s.mapInfo[id].fInTried && id !in limbo
    ensures Inv(env, DropFromNew(env, s, id), limbo + {id}, excess + 1)
  {
    var t := DropFromNew(env, s, id);
    IndexedFrame(s, t);
    DropSlots(env, s, id);
    DropReferences(env, s, limbo, id);
    DropIds(env, s, limbo, id);
  }

  lemma UntrySlots(env: Env, s: State, b: int, p: int)
    requires Slotted(env, s) && TriedsFiled(env, s)
    requires 0 <= b < TRIED_BUCKET_COUNT && 0 <= p < BUCKET_SIZE && s.vvTried[b][p] != -1
    ensures Slotted(env, Untry(s, b, p))
  {}

  lemma UntryReferences(env: Env, s: State, limbo: set<int>, b: int, p: int)
    requires Slotted(env, s) && Referenced(env, s, limbo)
    requires 0 <= b < TRIED_BUCKET_COUNT && 0 <= p < BUCKET_SIZE && s.vvTried[b][p] != -1
    requires Slotted(env, Untry(s, b, p))
    ensures Referenced(env, Untry(s, b, p), limbo + {s.vvTried[b][p]})
  {
    var id, t := s.vvTried[b][p], Untry(s, b, p);
    assert Buckets(env, t, id) == {};
    forall x | x in s.mapInfo ensures Buckets(env, t, x) == Buckets(env, s, x) {}
  }

  lemma UntryIds(s: State, limbo: set<int>, b: int, p: int)
    requires Shaped(s.vvTried, TRIED_BUCKET_COUNT) && 0 <= b < TRIED_BUCKET_COUNT && 0 <= p < BUCKET_SIZE
    requires s.vvTried[b][p] in s.mapInfo && s.mapInfo[s.vvTried[b][p]].fInTried
    ensures var id, t := s.vvTried[b][p], Untry(s, b, p);
            && |TriedIds(t)| == |TriedIds(s)| - 1 && NewIds(t) - (limbo + {id}) == NewIds(s) - limbo
  {
    var id, t := s.vvTried[b][p], Untry(s, b, p);
    assert TriedIds(t) == TriedIds(s) - {id};
  }

  lemma UntryKeeps(env: Env, s: State, limbo: set<int>, excess: int, b: int, p: int)
    requires Inv(env, s, limbo, excess)
    requires 0 <= b < TRIED_BUCKET_COUNT && 0 <= p < BUCKET_SIZE && s.vvTried[b][p] != -1
    ensures s.vvTried[b][p] !in limbo
    ensures Inv(env, Untry(s, b, p), limbo + {s.vvTried[b][p]}, excess)
  {
    IndexedFrame(s, Untry(s, b, p));
    UntrySlots(env, s, b, p);
    UntryReferences(env, s, limbo, b, p);
    UntryIds(s, limbo, b, p);
  }

  lemma TrySlots(env: Env, s: State, limbo: set<int>, b: int, p: int, id: int)
    requires Slotted(env, s) && Referenced(env, s, limbo) && id in limbo && id != -1
    requires (b, p) == TriedSlot(env, s.nKey, s.mapInfo[id].service) && s.vvTried[b][p] == -1
    ensures Slotted(env, Try(s, b, p, id))
  {
    assert Buckets(env, s, id) == {};
    forall c | 0 <= c < NEW_BUCKET_COUNT ensures s.vvNew[c][NewPos(env, s, c, id)] != id {
      assert c !in Buckets(env, s, id);
    }
  }

  lemma TryReferences(env: Env, s: State, limbo: set<int>, b: int, p: int, id: int)
    requires Slotted(env, s) && Referenced(env, s, limbo) && id in limbo && -1 !in s.mapInfo
    requires (b, p) == TriedSlot(env, s.nKey, s.mapInfo[id].service) && s.vvTried[b][p] == -1
    requires Slotted(env, Try(s, b, p, id))
    ensures Referenced(env, Try(s, b, p, id), limbo - {id})
  {
    var t := Try(s, b, p, id);
    forall x | x in s.mapInfo ensures Buckets(env, t, x) == Buckets(env, s, x) {}
  }

  lemma TryIds(s: State, limbo: set<int>, b: int, p: int, id: int)
    requires Shaped(s.vvTried, TRIED_BUCKET_COUNT) && 0 <= b < TRIED_BUCKET_COUNT && 0 <= p < BUCKET_SIZE
    requires id in s.mapInfo && !s.mapInfo[id].fInTried && id in limbo
    ensures var t := Try(s, b, p, id);
            && |TriedIds(t)| == |TriedIds(s)| + 1 && NewIds(t) - (limbo - {id}) == NewIds(s) - limbo
  {
    var t := Try(s, b, p, id);
    assert TriedIds(t) == TriedIds(s) + {id};
  }

  lemma TryKeeps(env: Env, s: State, limbo: set<int>, excess: int, b: int, p: int, id: int)
    requires Inv(env, s, limbo, excess) && id in limbo
    requires (b, p) == TriedSlot(env, s.nKey, s.mapInfo[id].service) && s.vvTried[b][p] == -1
    ensures Inv(env, Try(s, b, p, id), limbo - {id}, excess)
  {
    IndexedFrame(s, Try(s, b, p, id));
    TryCore(env, s, limbo, excess, b, p, id);
  }

  lemma TryCore(env: Env, s: State, limbo: set<int>, excess: int, b: int, p: int, id: int)
    requires Core(env, s, limbo, excess) && id in limbo
    requires (b, p) == TriedSlot(env, s.nKey, s.mapInfo[id].service) && s.vvTried[b][p] == -1
    ensures Core(env, Try(s, b, p, id), limbo - {id}, excess)
  {
    TrySlots(env, s, limbo, b, p, id);
    TryReferences(env, s, limbo, b, p, id);
    TryIds(s, limbo, b, p, id);
  }
}
