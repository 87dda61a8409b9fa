/** Check_, run on the fields of a manager: it returns 0 exactly when the state `Passes`. */
module AddrManCheck {
  import opened Basics
  import opened AddrMan
  import opened AddrManOps
  import opened AddrManRuns
  import opened AddrManClass

  /** The tests Check_ makes of one entry, and the code of the first that fails. */
  function EntryError(i: AddrInfo, id: int, listedAs: int, random: seq<int>): int {
    if i.fInTried && i.nLastSuccess == 0 then -1
    else if i.fInTried && i.nRefCount != 0 then -2
    else if !i.fInTried && (i.nRefCount < 0 || i.nRefCount > NEW_BUCKETS_PER_ADDRESS) then -3
    else if !i.fInTried && i.nRefCount == 0 then -4
    else if listedAs != id then -5
    else if i.nRandomPos < 0 || i.nRandomPos >= |random| || random[i.nRandomPos] != id then -14
    else if i.nLastTry < 0 then -6
    else if i.nLastSuccess < 0 then -8
    else 0
  }

  /** operator[] of std::map: a missing key reads as 0. */
  function Listed(mapAddr: map<NetAddr, int>, a: NetAddr): int { if a in mapAddr then mapAddr[a] else 0 }

  ghost predicate EntriesPass(s: State) {
    forall id :: id in s.mapInfo ==>
      EntryError(s.mapInfo[id], id, Listed(s.mapAddr, s.mapInfo[id].service.net), s.vRandom) == 0
  }

  method Lookup(m: Manager, a: NetAddr) returns (id: int)
    modifies m`mapAddr
    ensures id == Listed(old(m.mapAddr), a)
    ensures forall c :: Listed(m.mapAddr, c) == Listed(old(m.mapAddr), c)
    ensures a in old(m.mapAddr) ==> m.mapAddr == old(m.mapAddr)
  {
    if a !in m.mapAddr { m.mapAddr := m.mapAddr[a := 0]; }
    id := m.mapAddr[a];
  }

  ghost predicate AllListed(info: map<int, AddrInfo>, addr: map<NetAddr, int>) {
    forall id :: id in info ==> info[id].service.net in addr
  }

  method CheckEntries(m: Manager) returns (err: int, setTried: set<int>, mapNew: map<int, int>)
    modifies m`mapAddr
    ensures err == 0 <==> EntriesPass(old(m.Model()))
    ensures err == 0 ==> setTried == TriedIds(m.Model()) && mapNew.Keys == NewIds(m.Model())
    ensures err == 0 ==> forall id :: id in mapNew ==> mapNew[id] == m.mapInfo[id].nRefCount
    ensures AllListed(m.mapInfo, old(m.mapAddr)) ==> m.mapAddr == old(m.mapAddr)
  {
    hide Listed, EntryError, ToTable;
    err, setTried, mapNew := 0, {}, map[];
    var todo := m.mapInfo.Keys;
    while todo != {}
      invariant todo <= m.mapInfo.Keys
      invariant forall a :: Listed(m.mapAddr, a) == Listed(old(m.mapAddr), a)
      invariant AllListed(m.mapInfo, old(m.mapAddr)) ==> m.mapAddr == old(m.mapAddr)
      invariant forall id :: id in m.mapInfo && id !in todo ==>
                  EntryError(m.mapInfo[id], id, Listed(old(m.mapAddr), m.mapInfo[id].service.net), m.vRandom) == 0
      invariant forall id :: id in setTried <==> id in m.mapInfo && id !in todo && m.mapInfo[id].fInTried
      invariant forall id :: id in mapNew <==> id in m.mapInfo && id !in todo && !m.mapInfo[id].fInTried
      invariant forall id :: id in mapNew ==> mapNew[id] == m.mapInfo[id].nRefCount
    {
      NonEmpty(todo);
      var n :| n in todo;
      var info := m.mapInfo[n];
      var id := Lookup(m, info.service.net);
      err := EntryError(info, n, id, m.vRandom);
      if err != 0 { return; }
      if info.fInTried { setTried := setTried + {n}; } else { mapNew := mapNew[n := info.nRefCount]; }
      todo := todo - {n};
    }
    ghost var s := m.Model();
    forall id ensures id in setTried <==> id in TriedIds(s) {}
    forall id ensures id in mapNew.Keys <==> id in NewIds(s) {}
  }

  // ---------------------------------------------------------------- the tried table

  /** A tried slot is empty or lists a tried entry that belongs there. */
  ghost predicate TriedSlotOk(env: Env, s: State, b: int, p: int)
    requires Shaped(s.vvTried, TRIED_BUCKET_COUNT) && 0 <= b < TRIED_BUCKET_COUNT && 0 <= p < BUCKET_SIZE
  {
    var id := s.vvTried[b][p];
    id != -1 ==> id in TriedIds(s) && TriedSlot(env, s.nKey, s.mapInfo[id].service) == (b, p)
  }

  /** Row by row, (n, i) comes after (b, p). */
  predicate Before(b: int, p: int, n: int, i: int) { b < n || (b == n && p < i) }

  /** The ids listed before slot (n, i). */
  ghost predicate TriedBefore(s: State, id: int, n: int, i: int)
    requires Shaped(s.vvTried, TRIED_BUCKET_COUNT)
  {
    exists b, p :: 0 <= b < TRIED_BUCKET_COUNT && 0 <= p < BUCKET_SIZE && Before(b, p, n, i) && s.vvTried[b][p] == id
  }

  method CheckTried(m: Manager, setTried: set<int>) returns (err: int, left: set<int>)
    requires m.Shape() && setTried == TriedIds(m.Model())
    ensures err == 0 <==> TriedSlotsOk(m.env, m.Model())
    ensures err == 0 ==> (left == {} <==> TriedsListed(m.env, m.Model()))
  {
    ghost var s := m.Model();
    err, left := 0, setTried;
    var n := 0;
    while n < TRIED_BUCKET_COUNT
      invariant 0 <= n <= TRIED_BUCKET_COUNT
      invariant forall b, p :: 0 <= b < n && 0 <= p < BUCKET_SIZE ==> TriedSlotOk(m.env, s, b, p)
      invariant forall id :: id in left <==> id in setTried && (id == -1 || !TriedBefore(s, id, n, 0))
    {
      var i := 0;
      while i < BUCKET_SIZE
        invariant 0 <= i <= BUCKET_SIZE
        invariant forall b, p :: 0 <= b < TRIED_BUCKET_COUNT && 0 <= p < BUCKET_SIZE && Before(b, p, n, i) ==> TriedSlotOk(m.env, s, b, p)
        invariant forall id :: id in left <==> id in setTried && (id == -1 || !TriedBefore(s, id, n, i))
      {
        var id := m.vvTried[n, i];
        assert id == s.vvTried[n][i];
        if id != -1 {
          if id !in left { err := -11; NotLeft(m.env, s, n, i); assert !TriedSlotOk(m.env, m.Model(), n, i); return; }
          var info := m.mapInfo[id];
          if TriedBucket(m.env, m.nKey, info.service) != n { err := -17; assert !TriedSlotOk(m.env, m.Model(), n, i); return; }
          if BucketPosition(m.env, m.nKey, false, n, info.service) != i { err := -18; assert !TriedSlotOk(m.env, m.Model(), n, i); return; }
          left := left - {id};
        }
        TriedBeforeNext(s, n, i);
        i := i + 1;
      }
      TriedBeforeRow(s, n);
      n := n + 1;
    }
    TriedBeforeEnd(m.env, s);
    NonEmpty(left);
  }

  lemma TriedBeforeEnd(env: Env, s: State)
    requires Shaped(s.vvTried, TRIED_BUCKET_COUNT)
    ensures TriedsListed(env, s) <==> forall id :: id in TriedIds(s) ==> id != -1 && TriedBefore(s, id, TRIED_BUCKET_COUNT, 0)
  {
    forall id ensures TriedBefore(s, id, TRIED_BUCKET_COUNT, 0) <==>
                      exists b, p :: 0 <= b < TRIED_BUCKET_COUNT && 0 <= p < BUCKET_SIZE && s.vvTried[b][p] == id
    {
      if b, p :| 0 <= b < TRIED_BUCKET_COUNT && 0 <= p < BUCKET_SIZE && s.vvTried[b][p] == id {
        assert Before(b, p, TRIED_BUCKET_COUNT, 0);
      }
    }
    assert forall id :: id in TriedIds(s) <==> id in s.mapInfo && s.mapInfo[id].fInTried;
  }

  /** An id seen before cannot be right here too. */
  lemma NotLeft(env: Env, s: State, n: int, i: int)
    requires Shaped(s.vvTried, TRIED_BUCKET_COUNT) && 0 <= n < TRIED_BUCKET_COUNT && 0 <= i < BUCKET_SIZE && s.vvTried[n][i] != -1
    requires forall b, p :: 0 <= b < TRIED_BUCKET_COUNT && 0 <= p < BUCKET_SIZE && Before(b, p, n, i) ==> TriedSlotOk(env, s, b, p)
    requires s.vvTried[n][i] !in TriedIds(s) || TriedBefore(s, s.vvTried[n][i], n, i)
    ensures !TriedSlotOk(env, s, n, i)
  {
    if s.vvTried[n][i] in TriedIds(s) {
      var b, p :| 0 <= b < TRIED_BUCKET_COUNT && 0 <= p < BUCKET_SIZE && Before(b, p, n, i) && s.vvTried[b][p] == s.vvTried[n][i];
      assert TriedSlotOk(env, s, b, p);
    }
  }

  lemma TriedBeforeNext(s: State, n: int, i: int)
    requires Shaped(s.vvTried, TRIED_BUCKET_COUNT) && 0 <= n < TRIED_BUCKET_COUNT && 0 <= i < BUCKET_SIZE
    ensures forall id :: TriedBefore(s, id, n, i + 1) <==> TriedBefore(s, id, n, i) || s.vvTried[n][i] == id
  {
    forall id ensures TriedBefore(s, id, n, i + 1) <==> TriedBefore(s, id, n, i) || s.vvTried[n][i] == id {
      assert s.vvTried[n][i] == id ==> Before(n, i, n, i + 1);
    }
  }

  lemma TriedBeforeRow(s: State, n: int)
    requires Shaped(s.vvTried, TRIED_BUCKET_COUNT) && 0 <= n < TRIED_BUCKET_COUNT
    ensures forall id :: TriedBefore(s, id, n, BUCKET_SIZE) <==> TriedBefore(s, id, n + 1, 0)
  {}

  // ---------------------------------------------------------------- the new table

  /** A new slot is empty or lists a new entry in its position of the bucket. */
  ghost predicate NewSlotOk(env: Env, s: State, b: int, p: int)
    requires Shaped(s.vvNew, NEW_BUCKET_COUNT) && 0 <= b < NEW_BUCKET_COUNT && 0 <= p < BUCKET_SIZE
  {
    var id := s.vvNew[b][p];
    id != -1 ==> id in NewIds(s) && NewPos(env, s, b, id) == p
  }

  ghost predicate NewSlotsOk(env: Env, s: State, n: int, i: int)
    requires Shaped(s.vvNew, NEW_BUCKET_COUNT)
  {
    forall b, p :: 0 <= b < NEW_BUCKET_COUNT && 0 <= p < BUCKET_SIZE && Before(b, p, n, i) ==> NewSlotOk(env, s, b, p)
  }

  /** The buckets that list `id` before slot (n, i). */
  ghost function Seen(env: Env, s: State, id: int, n: int, i: int): set<int>
    requires id in s.mapInfo && Shaped(s.vvNew, NEW_BUCKET_COUNT)
  {
    set b | b in Buckets(env, s, id) && Before(b, NewPos(env, s, b, id), n, i)
  }

  lemma SeenNext(env: Env, s: State, id: int, n: int, i: int)
    requires id in s.mapInfo && id != -1 && Shaped(s.vvNew, NEW_BUCKET_COUNT) && 0 <= n < NEW_BUCKET_COUNT && 0 <= i < BUCKET_SIZE
    requires s.vvNew[n][i] == id ==> NewPos(env, s, n, id) == i
    ensures n !in Seen(env, s, id, n, i) || NewPos(env, s, n, id) < i
    ensures |Seen(env, s, id, n, i + 1)| == |Seen(env, s, id, n, i)| + if s.vvNew[n][i] == id then 1 else 0
    ensures |Seen(env, s, id, n, i + 1)| <= |Buckets(env, s, id)|
  {
    var a, b := Seen(env, s, id, n, i), Seen(env, s, id, n, i + 1);
    assert b == if s.vvNew[n][i] == id then a + {n} else a;
    assert s.vvNew[n][i] == id ==> n !in a;
    SubsetSizes(b, Buckets(env, s, id));
  }

  lemma SubsetSizes(a: set<int>, b: set<int>)
    requires a <= b
    ensures |a| <= |b|
  {
    assert b == a + (b - a);
  }

  lemma SeenRow(env: Env, s: State, id: int, n: int)
    requires id in s.mapInfo && Shaped(s.vvNew, NEW_BUCKET_COUNT)
    ensures Seen(env, s, id, n, BUCKET_SIZE) == Seen(env, s, id, n + 1, 0)
    ensures Seen(env, s, id, 0, 0) == {}
    ensures Seen(env, s, id, NEW_BUCKET_COUNT, 0) == Buckets(env, s, id)
  {}

  /** `mapNew` holds what is left of each reference count after the slots before (n, i). */
  ghost predicate CountsLeft(env: Env, s: State, mapNew: map<int, int>, n: int, i: int)
    requires Shaped(s.vvNew, NEW_BUCKET_COUNT)
  {
    && (forall id :: id in mapNew ==> id in NewIds(s))
    && forall id :: id in NewIds(s) ==>
         if id == -1 then id in mapNew
         else
           && |Seen(env, s, id, n, i)| <= s.mapInfo[id].nRefCount
           && (id in mapNew <==> |Seen(env, s, id, n, i)| < s.mapInfo[id].nRefCount)
           && (id in mapNew ==> mapNew[id] == s.mapInfo[id].nRefCount - |Seen(env, s, id, n, i)|)
  }

  function Decrement(mapNew: map<int, int>, id: int): map<int, int>
    requires id in mapNew
  {
    if mapNew[id] == 1 then mapNew - {id} else mapNew[id := mapNew[id] - 1]
  }

  lemma CountsNext(env: Env, s: State, mapNew: map<int, int>, n: int, i: int)
    requires Shaped(s.vvNew, NEW_BUCKET_COUNT) && 0 <= n < NEW_BUCKET_COUNT && 0 <= i < BUCKET_SIZE
    requires CountsLeft(env, s, mapNew, n, i) && NewSlotOk(env, s, n, i)
    requires var id := s.vvNew[n][i]; id != -1 ==> id in mapNew
    ensures var id := s.vvNew[n][i];
            CountsLeft(env, s, if id == -1 then mapNew else Decrement(mapNew, id), n, i + 1)
  {
    forall id | id in NewIds(s) && id != -1 { SeenNext(env, s, id, n, i); }
  }

  /** What remains for Check_ to find out in the new table: no entry is listed too often. */
  ghost predicate NotOverlisted(env: Env, s: State)
    requires Shaped(s.vvNew, NEW_BUCKET_COUNT)
  {
    forall id :: id in NewIds(s) && id != -1 ==> |Buckets(env, s, id)| <= s.mapInfo[id].nRefCount
  }

  lemma Exhausted(env: Env, s: State, mapNew: map<int, int>, n: int, i: int)
    requires Shaped(s.vvNew, NEW_BUCKET_COUNT) && 0 <= n < NEW_BUCKET_COUNT && 0 <= i < BUCKET_SIZE
    requires CountsLeft(env, s, mapNew, n, i) && s.vvNew[n][i] != -1 && s.vvNew[n][i] !in mapNew
    ensures !NewSlotOk(env, s, n, i) || !NotOverlisted(env, s)
  {
    var id := s.vvNew[n][i];
    if NewSlotOk(env, s, n, i) { SeenNext(env, s, id, n, i); }
  }

  method CheckNew(m: Manager, mapNewIn: map<int, int>) returns (err: int, mapNew: map<int, int>)
    requires m.Shape() && mapNewIn.Keys == NewIds(m.Model())
    requires forall id :: id in mapNewIn ==> mapNewIn[id] == m.mapInfo[id].nRefCount && mapNewIn[id] >= 1
    ensures err == 0 <==> NewSlotsOk(m.env, m.Model(), NEW_BUCKET_COUNT, 0) && NotOverlisted(m.env, m.Model())
    ensures err == 0 ==> (mapNew == map[] <==> CountsMatch(m.env, m.Model()))
  {
    hide CountsLeft, NotOverlisted, NewSlotsOk, CountsMatch;
    ghost var s := m.Model();
    err, mapNew := 0, mapNewIn;
    CountsStart(m.env, s, mapNewIn);
    var n := 0;
    while n < NEW_BUCKET_COUNT
      invariant 0 <= n <= NEW_BUCKET_COUNT && NewSlotsOk(m.env, s, n, 0) && CountsLeft(m.env, s, mapNew, n, 0)
    {
      var i := 0;
      while i < BUCKET_SIZE
        invariant 0 <= i <= BUCKET_SIZE && NewSlotsOk(m.env, s, n, i) && CountsLeft(m.env, s, mapNew, n, i)
      {
        var id := m.vvNew[n, i];
        assert id == s.vvNew[n][i];
        hide ToTable;
        NewSlotsNext(m.env, s, n, i);
        if id != -1 {
          if id !in mapNew { err := -12; Exhausted(m.env, s, mapNew, n, i); SlotFails(m.env, s, n, i); return; }
          CountedIsNew(m.env, s, mapNew, n, i, id);
          var pos := BucketPosition(m.env, m.nKey, true, n, m.mapInfo[id].service);
          if pos != i { err := -19; SlotFails(m.env, s, n, i); return; }
          CountsNext(m.env, s, mapNew, n, i);
          mapNew := Decrement(mapNew, id);
        } else {
          CountsNext(m.env, s, mapNew, n, i);
        }
        i := i + 1;
      }
      CountsRow(m.env, s, mapNew, n);
      n := n + 1;
    }
    CountsEnd(m.env, s, mapNew);
  }

  lemma NewSlotsNext(env: Env, s: State, n: int, i: int)
    requires Shaped(s.vvNew, NEW_BUCKET_COUNT) && 0 <= n < NEW_BUCKET_COUNT && 0 <= i < BUCKET_SIZE
    ensures NewSlotsOk(env, s, n, i) && NewSlotOk(env, s, n, i) ==> NewSlotsOk(env, s, n, i + 1)
  {}

  lemma CountedIsNew(env: Env, s: State, mapNew: map<int, int>, n: int, i: int, id: int)
    requires Shaped(s.vvNew, NEW_BUCKET_COUNT) && CountsLeft(env, s, mapNew, n, i) && id in mapNew
    ensures id in NewIds(s)
  {}

  lemma SlotFails(env: Env, s: State, n: int, i: int)
    requires Shaped(s.vvNew, NEW_BUCKET_COUNT) && 0 <= n < NEW_BUCKET_COUNT && 0 <= i < BUCKET_SIZE
    ensures !NewSlotOk(env, s, n, i) ==> !NewSlotsOk(env, s, NEW_BUCKET_COUNT, 0)
  {
    assert Before(n, i, NEW_BUCKET_COUNT, 0);
  }

  lemma CountsStart(env: Env, s: State, mapNew: map<int, int>)
    requires Shaped(s.vvNew, NEW_BUCKET_COUNT) && mapNew.Keys == NewIds(s)
    requires forall id :: id in mapNew ==> mapNew[id] == s.mapInfo[id].nRefCount && mapNew[id] >= 1
    ensures CountsLeft(env, s, mapNew, 0, 0) && NewSlotsOk(env, s, 0, 0)
  {
    forall id | id in NewIds(s) ensures id in mapNew && Seen(env, s, id, 0, 0) == {} { SeenRow(env, s, id, 0); }
    assert forall id :: id in mapNew <==> id in mapNew.Keys;
  }

  lemma CountsRow(env: Env, s: State, mapNew: map<int, int>, n: int)
    requires Shaped(s.vvNew, NEW_BUCKET_COUNT) && CountsLeft(env, s, mapNew, n, BUCKET_SIZE)
    ensures CountsLeft(env, s, mapNew, n + 1, 0)
    ensures NewSlotsOk(env, s, n, BUCKET_SIZE) ==> NewSlotsOk(env, s, n + 1, 0)
  {
    forall id | id in NewIds(s) { SeenRow(env, s, id, n); }
  }

  lemma CountsEnd(env: Env, s: State, mapNew: map<int, int>)
    requires Shaped(s.vvNew, NEW_BUCKET_COUNT) && CountsLeft(env, s, mapNew, NEW_BUCKET_COUNT, 0)
    ensures NotOverlisted(env, s)
    ensures mapNew == map[] <==> CountsMatch(env, s)
  {
    forall id | id in NewIds(s) { SeenRow(env, s, id, NEW_BUCKET_COUNT); }
    NonEmpty(mapNew.Keys);
    assert mapNew == map[] <==> mapNew.Keys == {};
    assert forall id :: id in mapNew.Keys <==> id in mapNew;
  }

  // ---------------------------------------------------------------- the whole check

  lemma TablesShaped(m: Manager)
    requires m.Shape()
    ensures Shaped(m.Model().vvNew, NEW_BUCKET_COUNT) && Shaped(m.Model().vvTried, TRIED_BUCKET_COUNT)
  {}

  ghost predicate CountsMatch(env: Env, s: State)
    requires Shaped(s.vvNew, NEW_BUCKET_COUNT)
  {
    forall id :: id in NewIds(s) ==> id != -1 && |Buckets(env, s, id)| == s.mapInfo[id].nRefCount
  }

  ghost predicate TriedSlotsOk(env: Env, s: State)
    requires Shaped(s.vvTried, TRIED_BUCKET_COUNT)
  {
    forall b, p :: 0 <= b < TRIED_BUCKET_COUNT && 0 <= p < BUCKET_SIZE ==> TriedSlotOk(env, s, b, p)
  }

  lemma SlottedBySlots(env: Env, s: State)
    requires Shaped(s.vvNew, NEW_BUCKET_COUNT) && Shaped(s.vvTried, TRIED_BUCKET_COUNT)
    ensures Slotted(env, s) <==> TriedSlotsOk(env, s) && NewSlotsOk(env, s, NEW_BUCKET_COUNT, 0)
  {
    assert forall id :: id in TriedIds(s) <==> id in s.mapInfo && s.mapInfo[id].fInTried;
    assert forall id :: id in NewIds(s) <==> id in s.mapInfo && !s.mapInfo[id].fInTried;
    if Slotted(env, s) {
      assert NewSlotsOk(env, s, NEW_BUCKET_COUNT, 0);
      assert TriedSlotsOk(env, s);
    }
    if TriedSlotsOk(env, s) && NewSlotsOk(env, s, NEW_BUCKET_COUNT, 0) {
      assert forall b, p :: 0 <= b < NEW_BUCKET_COUNT && 0 <= p < BUCKET_SIZE ==>
        Before(b, p, NEW_BUCKET_COUNT, 0) && NewSlotOk(env, s, b, p);
      forall b, p | 0 <= b < NEW_BUCKET_COUNT && 0 <= p < BUCKET_SIZE && s.vvNew[b][p] != -1
        ensures s.vvNew[b][p] in s.mapInfo && !s.mapInfo[s.vvNew[b][p]].fInTried && NewPos(env, s, b, s.vvNew[b][p]) == p
      {
        assert NewSlotOk(env, s, b, p);
      }
      forall b, p | 0 <= b < TRIED_BUCKET_COUNT && 0 <= p < BUCKET_SIZE && s.vvTried[b][p] != -1
        ensures s.vvTried[b][p] in s.mapInfo && s.mapInfo[s.vvTried[b][p]].fInTried
        ensures TriedSlot(env, s.nKey, s.mapInfo[s.vvTried[b][p]].service) == (b, p)
      {
        assert TriedSlotOk(env, s, b, p);
      }
    }
  }

  /** The tests of Check_, in its order, amount to `Passes`; what it inserts into `mapAddr` does not matter. */
  lemma PassesByTests(env: Env, s: State, t: State)
    requires Shaped(s.vvNew, NEW_BUCKET_COUNT) && Shaped(s.vvTried, TRIED_BUCKET_COUNT)
    requires t == s.(mapAddr := t.mapAddr)
    ensures Passes(env, s) <==>
              && |s.vRandom| == s.nTried + s.nNew && EntriesPass(s)
              && |TriedIds(t)| == s.nTried && |NewIds(t)| == s.nNew
              && TriedSlotsOk(env, t) && NewSlotsOk(env, t, NEW_BUCKET_COUNT, 0)
              && TriedsListed(env, t) && CountsMatch(env, t) && s.nKey != 0
  {
    SlottedBySlots(env, s);
    assert TriedIds(t) == TriedIds(s) && NewIds(t) == NewIds(s);
    assert TriedsListed(env, t) <==> TriedsListed(env, s);
    forall id | id in s.mapInfo ensures Buckets(env, t, id) == Buckets(env, s, id) {}
    FrameSlots(env, s, t);
    hide Slotted, TriedSlotsOk, NewSlotsOk, TriedsListed, Buckets;
    assert forall id :: id in NewIds(s) <==> id in s.mapInfo && !s.mapInfo[id].fInTried;
  }

  lemma FrameSlots(env: Env, s: State, t: State)
    requires Shaped(s.vvNew, NEW_BUCKET_COUNT) && Shaped(s.vvTried, TRIED_BUCKET_COUNT)
    requires t == s.(mapAddr := t.mapAddr)
    ensures TriedSlotsOk(env, t) <==> TriedSlotsOk(env, s)
    ensures NewSlotsOk(env, t, NEW_BUCKET_COUNT, 0) <==> NewSlotsOk(env, s, NEW_BUCKET_COUNT, 0)
  {
    SlottedBySlots(env, s);
    SlottedBySlots(env, t);
    assert forall b, p :: 0 <= b < TRIED_BUCKET_COUNT && 0 <= p < BUCKET_SIZE ==> TriedSlotOk(env, t, b, p) == TriedSlotOk(env, s, b, p);
    assert forall b, p :: 0 <= b < NEW_BUCKET_COUNT && 0 <= p < BUCKET_SIZE ==> NewSlotOk(env, t, b, p) == NewSlotOk(env, s, b, p);
  }

  /** Check_ returns 0 exactly for the states that pass, and has no side effect on a manager whose
      addresses are all indexed. */
  method Check_(m: Manager) returns (err: int)
    requires m.Shape()
    modifies m`mapAddr
    ensures err == 0 <==> Passes(m.env, old(m.Model()))
    ensures Unchecked(old(m.Model())) ==> m.Model() == old(m.Model())
  {
    hide ToTable, EntryError, Passes, EntriesPass, TriedSlotsOk, NewSlotsOk, TriedsListed, CountsMatch, NotOverlisted;
    ghost var s := m.Model();
    TablesShaped(m);
    PassesByTests(m.env, s, s);
    if |m.vRandom| != m.nTried + m.nNew { return -7; }
    var setTried, mapNew;
    err, setTried, mapNew := CheckEntries(m);
    ghost var t := m.Model();
    PassesByTests(m.env, s, t);
    if err != 0 { return; }
    EntriesHaveReferences(s);
    assert |mapNew| == |mapNew.Keys|;
    if |setTried| != m.nTried { return -9; }
    if |mapNew| != m.nNew { return -10; }
    err, setTried := CheckTried(m, setTried);
    if err != 0 { return; }
    err, mapNew := CheckNew(m, mapNew);
    MatchMeansNotOverlisted(m.env, t);
    if err != 0 { return; }
    if setTried != {} { return -13; }
    if mapNew != map[] { return -15; }
    if m.nKey == 0 { return -16; }
  }

  lemma EntriesHaveReferences(s: State)
    requires EntriesPass(s)
    ensures forall id :: id in NewIds(s) ==> s.mapInfo[id].nRefCount >= 1
  {}

  lemma MatchMeansNotOverlisted(env: Env, s: State)
    requires Shaped(s.vvNew, NEW_BUCKET_COUNT)
    ensures CountsMatch(env, s) ==> NotOverlisted(env, s)
  {}
}
