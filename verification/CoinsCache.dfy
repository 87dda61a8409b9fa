/** Caches of unspent outputs stacked on a database: what each operation does to the whole stack. */
module CoinsCache {
  import opened Options
  import opened Coins

  type Txid = int

  /** A cache entry with its two flags. */
  datatype Entry = Entry(coins: Coins, isDirty: bool, isFresh: bool)

  /** The database at the bottom, or a cache on its base. `modifier` is the entry an active CCoinsModifier
      points to; a best block of 0 is not known yet. */
  datatype Stack =
    | Database(db: map<Txid, Coins>, best: int)
    | Cache(cacheCoins: map<Txid, Entry>, hashBlock: int, modifier: Option<Txid>, base: Stack)

  // ---------------------------------------------------------------- operations

  /** FetchCoins: the entry is in the result's cacheCoins when it was found. */
  function Fetch(s: Stack, id: Txid): (r: Stack)
    requires s.Cache?
    ensures r.Cache?
    decreases s, 0
  {
    if id in s.cacheCoins then s
    else
      var (b, found) := GetCoins(s.base, id);
      if found.None? then s.(base := b)
      else s.(base := b, cacheCoins := s.cacheCoins[id := Entry(found.value, false, IsPruned(found.value))])
  }

  function GetCoins(s: Stack, id: Txid): (Stack, Option<Coins>)
    decreases s, 1
  {
    match s
    case Database(db, _) => (s, if id in db then Some(db[id]) else None)
    case Cache(_, _, _, _) =>
      var r := Fetch(s, id);
      (r, if id in r.cacheCoins then Some(r.cacheCoins[id].coins) else None)
  }

  function HaveCoins(s: Stack, id: Txid): (Stack, bool)
    requires s.Cache?
  {
    var r := Fetch(s, id);
    (r, id in r.cacheCoins && r.cacheCoins[id].coins.vout != [])
  }

  function ModifyCoins(s: Stack, id: Txid): (r: Stack)
    requires s.Cache?
    ensures r.Cache?
  {
    if id in s.cacheCoins then
      s.(cacheCoins := s.cacheCoins[id := s.cacheCoins[id].(isDirty := true)], modifier := Some(id))
    else
      var (b, found) := GetCoins(s.base, id);
      var entry := if found.None? then Entry(EMPTY, true, true) else Entry(found.value, true, IsPruned(found.value));
      s.(base := b, cacheCoins := s.cacheCoins[id := entry], modifier := Some(id))
  }

  predicate Open(s: Stack) { s.Cache? && s.modifier.Some? && s.modifier.value in s.cacheCoins }

  /** Whatever is done to the coins through the modifier. */
  function Assign(s: Stack, c: Coins): (r: Stack)
    requires Open(s)
    ensures r.Cache?
  {
    var id := s.modifier.value;
    s.(cacheCoins := s.cacheCoins[id := s.cacheCoins[id].(coins := c)])
  }

  /** The destructor of the modifier. */
  function Close(s: Stack): (r: Stack)
    requires Open(s)
    ensures r.Cache?
  {
    var id := s.modifier.value;
    var e := s.cacheCoins[id];
    var c := Cleaned(e.coins);
    s.(modifier := None,
       cacheCoins := if e.isFresh && IsPruned(c) then s.cacheCoins - {id} else s.cacheCoins[id := e.(coins := c)])
  }

  /** One entry of a parent cache after a child's entry for the same transaction is written to it. */
  function Written(ours: Option<Entry>, theirs: Entry): Option<Entry> {
    if !theirs.isDirty then ours
    else if ours.None? then
      if IsPruned(theirs.coins) then None else Some(Entry(theirs.coins, true, true))
    else if ours.value.isFresh && IsPruned(theirs.coins) then None
    else Some(Entry(theirs.coins, true, ours.value.isFresh))
  }

  function At<T>(m: map<Txid, T>, id: Txid): Option<T> { if id in m then Some(m[id]) else None }

  lemma SameMap<T>(a: map<Txid, T>, b: map<Txid, T>)
    requires forall id :: At(a, id) == At(b, id)
    ensures a == b
  {
    forall id ensures (id in a <==> id in b) && (id in a ==> a[id] == b[id]) { assert At(a, id) == At(b, id); }
  }

  function WrittenAt(ours: map<Txid, Entry>, theirs: map<Txid, Entry>, id: Txid): Option<Entry> {
    if id in theirs then Written(At(ours, id), theirs[id]) else At(ours, id)
  }

  function WriteAll(ours: map<Txid, Entry>, theirs: map<Txid, Entry>): map<Txid, Entry> {
    map id | id in ours.Keys + theirs.Keys && WrittenAt(ours, theirs, id).Some? :: WrittenAt(ours, theirs, id).value
  }

  function StoredAt(db: map<Txid, Coins>, theirs: map<Txid, Entry>, id: Txid): Option<Coins> {
    if id in theirs && theirs[id].isDirty then
      if IsPruned(theirs[id].coins) then None else Some(theirs[id].coins)
    else At(db, id)
  }

  function StoreAll(db: map<Txid, Coins>, theirs: map<Txid, Entry>): map<Txid, Coins> {
    map id | id in db.Keys + theirs.Keys && StoredAt(db, theirs, id).Some? :: StoredAt(db, theirs, id).value
  }

  function BatchWrite(s: Stack, theirs: map<Txid, Entry>, hash: int): Stack {
    match s
    case Database(db, best) => Database(StoreAll(db, theirs), if hash != 0 then hash else best)
    case Cache(ours, _, _, _) => s.(cacheCoins := WriteAll(ours, theirs), hashBlock := hash)
  }

  function Flush(s: Stack): (r: Stack)
    requires s.Cache?
    ensures r.Cache?
  {
    s.(base := BatchWrite(s.base, s.cacheCoins, s.hashBlock), cacheCoins := map[])
  }

  function GetBestBlock(s: Stack): (Stack, int) {
    match s
    case Database(_, best) => (s, best)
    case Cache(_, hash, _, base) =>
      if hash != 0 then (s, hash)
      else
        var (b, best) := GetBestBlock(base);
        (s.(base := b, hashBlock := best), best)
  }

  // ---------------------------------------------------------------- what a level of the stack shows

  function Lookup(s: Stack, id: Txid): Option<Coins> {
    match s
    case Database(db, _) => At(db, id)
    case Cache(m, _, _, base) => if id in m then Some(m[id].coins) else Lookup(base, id)
  }

  /** Pruned reads as absent, and spent outputs at the end do not matter. */
  function Norm(c: Option<Coins>): Option<Coins> {
    if c.None? || IsPruned(c.value) then None else Some(Cleaned(c.value))
  }

  function View(s: Stack, id: Txid): Option<Coins> { Norm(Lookup(s, id)) }

  function Best(s: Stack): int {
    match s
    case Database(_, best) => best
    case Cache(_, hash, _, base) => if hash != 0 then hash else Best(base)
  }

  // ---------------------------------------------------------------- the invariant

  predicate Holds(s: Stack, id: Txid) { s.Cache? ==> id in s.cacheCoins }

  /** What the flags promise: not DIRTY means equal to the base, FRESH means that the base has nothing
      unspent, and not FRESH that a parent cache has an entry. */
  predicate Flagged(e: Entry, base: Stack, id: Txid) {
    && (!e.isDirty ==> Norm(Some(e.coins)) == View(base, id))
    && (e.isFresh <==> View(base, id) == None)
    && (!e.isFresh ==> Holds(base, id))
  }

  ghost predicate AllFlagged(m: map<Txid, Entry>, base: Stack) { forall id :: id in m ==> Flagged(m[id], base, id) }

  predicate Closed(s: Stack) { s.Cache? ==> s.modifier == None }

  /** No entry at rest ends in spent outputs, or waits to tell a base that has nothing unspent that nothing is. */
  predicate AtRest(e: Entry) { Clean(e.coins) && !(e.isDirty && e.isFresh && IsPruned(e.coins)) }

  ghost predicate AllClean(s: Stack) {
    match s
    case Database(db, _) => forall id :: id in db ==> Clean(db[id])
    case Cache(m, _, _, _) => forall id :: id in m && s.modifier != Some(id) ==> AtRest(m[id])
  }

  predicate ModifierOk(s: Stack) {
    s.Cache? && s.modifier.Some? ==> s.modifier.value in s.cacheCoins && s.cacheCoins[s.modifier.value].isDirty
  }

  ghost predicate Valid(s: Stack) {
    && AllClean(s) && ModifierOk(s)
    && (s.Cache? ==> Valid(s.base) && Closed(s.base) && AllFlagged(s.cacheCoins, s.base))
  }

  /** Every entry stays as it is, and none that is added needs writing. */
  ghost predicate OnlyRead(m: map<Txid, Entry>, n: map<Txid, Entry>) {
    && (forall id :: id in m ==> id in n && n[id] == m[id])
    && (forall id :: id in n && id !in m ==> !n[id].isDirty)
  }

  /** `t` is `s` with more entries, or the best block, read into the caches: the same views at every level. */
  ghost predicate MoreRead(s: Stack, t: Stack) {
    && (forall id :: View(t, id) == View(s, id) && (Holds(s, id) ==> Holds(t, id)))
    && Best(t) == Best(s)
    && (s.Database? ==> t == s)
    && (s.Cache? ==> t.Cache? && t.modifier == s.modifier && OnlyRead(s.cacheCoins, t.cacheCoins) && MoreRead(s.base, t.base))
  }

  lemma {:induction false} MoreReadSame(s: Stack)
    ensures MoreRead(s, s)
  {
    if s.Cache? { MoreReadSame(s.base); }
  }

  lemma {:induction false} MoreReadChain(s: Stack, t: Stack, u: Stack)
    requires MoreRead(s, t) && MoreRead(t, u)
    ensures MoreRead(s, u)
  {
    hide View, Holds;
    if s.Cache? { MoreReadChain(s.base, t.base, u.base); }
  }

  /** The flags stay true when the base reads more entries. */
  lemma FlaggedKept(m: map<Txid, Entry>, b: Stack, b': Stack)
    requires AllFlagged(m, b) && MoreRead(b, b')
    ensures AllFlagged(m, b')
  {
    hide View, Holds, Norm;
  }

  /** Reading through all levels finds what is there and changes no view. */
  lemma {:induction false} FetchKeeps(s: Stack, id: Txid)
    requires Valid(s) && s.Cache?
    ensures var t := Fetch(s, id);
            && Valid(t) && MoreRead(s, t) && t.modifier == s.modifier && t.hashBlock == s.hashBlock
            && (id in t.cacheCoins <==> Lookup(s, id).Some?)
            && (id in t.cacheCoins ==> t.cacheCoins[id].coins == Lookup(s, id).value)
            && s.cacheCoins.Keys <= t.cacheCoins.Keys <= s.cacheCoins.Keys + {id}
    decreases s, 0
  {
    MoreReadSame(s);
    if id !in s.cacheCoins {
      GetCoinsKeeps(s.base, id);
      FetchedEntry(s, id);
      FetchedRead(s, id);
    }
  }

  lemma {:induction false} GetCoinsKeeps(s: Stack, id: Txid)
    requires Valid(s)
    ensures var (t, found) := GetCoins(s, id);
            && Valid(t) && MoreRead(s, t) && (Closed(s) ==> Closed(t))
            && found == Lookup(s, id) && (found.Some? ==> Holds(t, id))
            && (found.Some? && Closed(s) ==> Clean(found.value))
            && Lookup(t, id) == Lookup(s, id)
    decreases s, 1
  {
    if s.Cache? {
      FetchKeeps(s, id);
      var t := Fetch(s, id);
      if id !in t.cacheCoins { LookupMissing(s, id); }
    } else {
      MoreReadSame(s);
    }
  }

  /** What is not found is not found afterwards either. */
  lemma {:induction false} LookupMissing(s: Stack, id: Txid)
    requires s.Cache? && id !in Fetch(s, id).cacheCoins
    ensures Lookup(Fetch(s, id), id) == Lookup(s, id)
    decreases s
  {
    if id !in s.cacheCoins {
      if s.base.Cache? { LookupMissing(s.base, id); }
    }
  }

  /** A new entry read from the base is flagged rightly. */
  lemma FetchedEntry(s: Stack, id: Txid)
    requires Valid(s) && s.Cache? && id !in s.cacheCoins
    requires var (b, found) := GetCoins(s.base, id);
             && Valid(b) && MoreRead(s.base, b) && Closed(b)
             && found == Lookup(s.base, id) && (found.Some? ==> Holds(b, id) && Clean(found.value))
    ensures Valid(Fetch(s, id))
  {
    hide GetCoins, OnlyRead, Best, Clean, Norm, IsPruned;
    var (b, found) := GetCoins(s.base, id);
    var t := Fetch(s, id);
    FlaggedKept(s.cacheCoins, s.base, b);
    if found.Some? { FetchedFlags(b, id, found.value); }
  }

  lemma FetchedFlags(b: Stack, id: Txid, c: Coins)
    requires View(b, id) == Norm(Some(c)) && Holds(b, id)
    ensures Flagged(Entry(c, false, IsPruned(c)), b, id)
  {}

  lemma FetchedRead(s: Stack, id: Txid)
    requires Valid(s) && s.Cache? && id !in s.cacheCoins
    requires var (b, found) := GetCoins(s.base, id);
             && Valid(b) && MoreRead(s.base, b) && Closed(b)
             && found == Lookup(s.base, id) && (found.Some? ==> Holds(b, id) && Clean(found.value))
    ensures MoreRead(s, Fetch(s, id))
  {
    hide GetCoins, Clean, AllFlagged, AllClean;
    var (b, found) := GetCoins(s.base, id);
    var t := Fetch(s, id);
    forall k ensures View(t, k) == View(s, k) && (Holds(s, k) ==> Holds(t, k)) {
      assert View(b, k) == View(s.base, k);
    }
  }

  // ---------------------------------------------------------------- modifying

  /** Creating a modifier changes no view. */
  lemma ModifyKeeps(s: Stack, id: Txid)
    requires Valid(s) && s.Cache? && Closed(s)
    ensures var t := ModifyCoins(s, id);
            && Valid(t) && Open(t) && t.modifier == Some(id) && MoreRead(s.base, t.base) && t.hashBlock == s.hashBlock
            && forall k :: View(t, k) == View(s, k)
  {
    if id in s.cacheCoins {
      MoreReadSame(s.base);
    } else {
      ModifyNew(s, id);
    }
  }

  lemma ModifyNew(s: Stack, id: Txid)
    requires Valid(s) && s.Cache? && Closed(s) && id !in s.cacheCoins
    ensures var t := ModifyCoins(s, id); Valid(t) && MoreRead(s.base, t.base) && forall k :: View(t, k) == View(s, k)
  {
    hide GetCoins, AtRest, OnlyRead;
    var t := ModifyCoins(s, id);
    GetCoinsKeeps(s.base, id);
    var (b, found) := GetCoins(s.base, id);
    FlaggedKept(s.cacheCoins, s.base, b);
    assert View(b, id) == Norm(found);
    assert Flagged(t.cacheCoins[id], b, id);
    forall k ensures View(t, k) == View(s, k) { assert View(b, k) == View(s.base, k); }
  }

  lemma AssignKeeps(s: Stack, c: Coins)
    requires Valid(s) && Open(s)
    ensures var t := Assign(s, c);
            && Valid(t) && Open(t) && t.modifier == s.modifier && t.base == s.base && t.hashBlock == s.hashBlock
            && forall k :: View(t, k) == if s.modifier == Some(k) then Norm(Some(c)) else View(s, k)
  {}

  /** Neither trimming the entry nor erasing it changes a view. */
  lemma CloseKeeps(s: Stack)
    requires Valid(s) && Open(s)
    ensures var t := Close(s);
            && Valid(t) && Closed(t) && t.base == s.base && t.hashBlock == s.hashBlock
            && forall k :: View(t, k) == View(s, k)
  {
    var id := s.modifier.value;
    var e := s.cacheCoins[id];
    CleanIsTrimmed(e.coins);
    CleanIsTrimmed(Cleaned(e.coins));
    hide Cleaned, Clean;
    assert Flagged(e, s.base, id);
    forall k ensures View(Close(s), k) == View(s, k) {}
  }

  // ---------------------------------------------------------------- flushing

  /** What the assert in BatchWrite asks of each entry written. */
  predicate Acceptable(base: Stack, e: Entry, id: Txid) {
    base.Cache? && e.isDirty && id !in base.cacheCoins && !IsPruned(e.coins) ==> e.isFresh
  }

  lemma FlushAccepted(s: Stack, id: Txid)
    requires Valid(s) && s.Cache? && id in s.cacheCoins
    ensures Acceptable(s.base, s.cacheCoins[id], id)
  {
    assert Flagged(s.cacheCoins[id], s.base, id);
  }

  lemma WriteAllAt(ours: map<Txid, Entry>, theirs: map<Txid, Entry>, id: Txid)
    ensures At(WriteAll(ours, theirs), id) == WrittenAt(ours, theirs, id)
  {}

  lemma BaseClosed(s: Stack)
    requires Valid(s) && s.Cache?
    ensures Closed(s.base)
  {}

  lemma StoreAllAt(db: map<Txid, Coins>, theirs: map<Txid, Entry>, id: Txid)
    ensures At(StoreAll(db, theirs), id) == StoredAt(db, theirs, id)
  {}

  /** After the write, the parent's view is the child's, and the parent's flags tell the truth. */
  lemma WrittenEntry(s: Stack, id: Txid)
    requires Valid(s) && s.Cache? && s.base.Cache?
    ensures var b := BatchWrite(s.base, s.cacheCoins, s.hashBlock);
            && View(b, id) == View(s, id)
            && (id in b.cacheCoins ==> Flagged(b.cacheCoins[id], b.base, id))
            && (id in b.cacheCoins && Closed(s) ==> AtRest(b.cacheCoins[id]))
  {
    WriteAllAt(s.base.cacheCoins, s.cacheCoins, id);
    if id in s.cacheCoins { assert Flagged(s.cacheCoins[id], s.base, id); }
    if id in s.base.cacheCoins { assert Flagged(s.base.cacheCoins[id], s.base.base, id); }
    hide Valid, WriteAll, Clean, Cleaned, IsPruned;
    assert View(s.base, id) == if id in s.base.cacheCoins then Norm(Some(s.base.cacheCoins[id].coins)) else View(s.base.base, id);
    assert View(s, id) == if id in s.cacheCoins then Norm(Some(s.cacheCoins[id].coins)) else View(s.base, id);
    CleanInside(s, id);
  }

  lemma CleanInside(s: Stack, id: Txid)
    requires Valid(s) && s.Cache? && s.base.Cache?
    ensures id in s.cacheCoins && Closed(s) ==> AtRest(s.cacheCoins[id])
    ensures id in s.base.cacheCoins ==> AtRest(s.base.cacheCoins[id])
  {}

  lemma StoredEntry(s: Stack, id: Txid)
    requires Valid(s) && s.Cache? && s.base.Database?
    ensures var b := BatchWrite(s.base, s.cacheCoins, s.hashBlock);
            View(b, id) == View(s, id) && (id in b.db && Closed(s) ==> Clean(b.db[id]))
  {
    StoreAllAt(s.base.db, s.cacheCoins, id);
    var b := BatchWrite(s.base, s.cacheCoins, s.hashBlock);
    assert Lookup(b, id) == StoredAt(s.base.db, s.cacheCoins, id);
    if id in s.cacheCoins {
      assert Flagged(s.cacheCoins[id], s.base, id);
      assert View(s, id) == Norm(Some(s.cacheCoins[id].coins));
      assert Closed(s) ==> Clean(s.cacheCoins[id].coins);
    } else {
      assert View(s, id) == View(s.base, id);
    }
    assert View(s.base, id) == Norm(At(s.base.db, id));
    assert At(b.db, id) == StoredAt(s.base.db, s.cacheCoins, id);
    assert id in b.db ==> At(b.db, id) == Some(b.db[id]);
    assert AllClean(s.base);
  }

  /** Write-back refinement: a flush makes the parent's view equal to the child's, leaves the child's view
      and everything below the parent as it was, and keeps the invariant at both levels. */
  lemma FlushKeeps(s: Stack)
    requires Valid(s) && s.Cache? && Closed(s)
    ensures var t := Flush(s);
            && Valid(t) && Closed(t) && Closed(t.base) && t.hashBlock == s.hashBlock
            && (forall id :: View(t.base, id) == View(s, id) && View(t, id) == View(s, id))
            && t.base.Cache? == s.base.Cache?
            && (s.base.Cache? ==> t.base.base == s.base.base)
  {
    hide View, Norm, WriteAll, StoreAll, Flagged, Clean;
    var t := Flush(s);
    if s.base.Cache? {
      forall id { WrittenEntry(s, id); }
    } else {
      forall id { StoredEntry(s, id); }
    }
    forall id ensures View(t, id) == View(t.base, id) { EmptyShowsBase(t, id); }
  }

  lemma EmptyShowsBase(t: Stack, id: Txid)
    requires t.Cache? && id !in t.cacheCoins
    ensures View(t, id) == View(t.base, id)
  {}

  // ---------------------------------------------------------------- the best block

  lemma {:induction false} GetBestKeeps(s: Stack)
    requires Valid(s)
    ensures var (t, best) := GetBestBlock(s);
            && Valid(t) && MoreRead(s, t) && (Closed(s) ==> Closed(t)) && (s.Cache? ==> t.Cache?)
            && best == Best(s) && Best(t) == Best(s)
  {
    MoreReadSame(s);
    if s.Cache? && s.hashBlock == 0 {
      GetBestKeeps(s.base);
      var (b, best) := GetBestBlock(s.base);
      hide GetBestBlock;
      FlaggedKept(s.cacheCoins, s.base, b);
      forall k ensures View(s.(base := b, hashBlock := best), k) == View(s, k) { assert View(b, k) == View(s.base, k); }
    }
  }

  /** A flush hands the best block on too, unless the child has never asked for it and its parent is a
      cache with another one than the level below: that parent then forgets its own. */
  lemma FlushBest(s: Stack)
    requires s.Cache?
    ensures Best(Flush(s)) == Best(s) <==>
              s.hashBlock != 0 || s.base.Database? || Best(s.base) == Best(s.base.base)
    ensures s.hashBlock != 0 ==> Best(Flush(s).base) == Best(s)
  {}

  // ---------------------------------------------------------------- whole runs

  datatype Op =
    | Get(id: Txid)
    | Have(id: Txid)
    | Modify(id: Txid)
    | Change(coins: Coins)
    | EndModify
    | FlushTop
    | Push
    | Pop
    | BestBlock
    | SetBestBlock(hash: int)

  /** What the caller gets to see, up to the reading of pruned coins as absent. */
  datatype Answer = Nothing | Found(coins: Option<Coins>) | Present(have: bool) | Block(hash: int)

  /** The order the code asks its callers to keep: one modifier at a time, and nothing is flushed, stacked
      upon or destroyed while one is active. */
  predicate Allowed(s: Stack, op: Op) {
    match op
    case Get(_) => true
    case Have(id) => s.Cache? && s.modifier != Some(id)
    case Modify(_) => s.Cache? && Closed(s)
    case Change(_) => Open(s)
    case EndModify => Open(s)
    case FlushTop => s.Cache? && Closed(s)
    case Push => Closed(s)
    case Pop => s.Cache? && Closed(s)
    case BestBlock => true
    case SetBestBlock(_) => s.Cache?
  }

  function Step(s: Stack, op: Op): (Stack, Answer)
    requires Allowed(s, op)
  {
    match op
    case Get(id) => var (t, c) := GetCoins(s, id); (t, Found(Norm(c)))
    case Have(id) => var (t, b) := HaveCoins(s, id); (t, Present(b))
    case Modify(id) => (ModifyCoins(s, id), Nothing)
    case Change(c) => (Assign(s, c), Nothing)
    case EndModify => (Close(s), Nothing)
    case FlushTop => (Flush(s), Nothing)
    case Push => (Cache(map[], 0, None, s), Nothing)
    case Pop => (s.base, Nothing)
    case BestBlock => var (t, best) := GetBestBlock(s); (t, Block(best))
    case SetBestBlock(hash) => (s.(hashBlock := hash), Nothing)
  }

  /** The specification: per level, top first, a plain map of unspent coins and the best block; and the entry
      being modified. */
  datatype Plain = Plain(layers: seq<map<Txid, Coins>>, open: Option<Txid>, bests: seq<int>)

  function Put(m: map<Txid, Coins>, id: Txid, c: Option<Coins>): map<Txid, Coins> {
    if c.None? then m - {id} else m[id := c.value]
  }

  predicate Proper(p: Plain) { 0 < |p.layers| == |p.bests| }

  function PlainStep(p: Plain, op: Op): (r: (Plain, Answer))
    requires Proper(p)
    ensures Proper(r.0)
  {
    match op
    case Get(id) => (p, Found(At(p.layers[0], id)))
    case Have(id) => (p, Present(id in p.layers[0]))
    case Modify(id) => (p.(open := Some(id)), Nothing)
    case Change(c) =>
      if p.open.None? then (p, Nothing)
      else (p.(layers := p.layers[0 := Put(p.layers[0], p.open.value, Norm(Some(c)))]), Nothing)
    case EndModify => (p.(open := None), Nothing)
    case FlushTop => if |p.layers| < 2 then (p, Nothing) else (p.(layers := p.layers[1 := p.layers[0]], bests := p.bests[1 := p.bests[0]]), Nothing)
    case Push => (p.(layers := [p.layers[0]] + p.layers, bests := [p.bests[0]] + p.bests), Nothing)
    case Pop => if |p.layers| < 2 then (p, Nothing) else (p.(layers := p.layers[1..], bests := p.bests[1..]), Nothing)
    case BestBlock => (p, Block(p.bests[0]))
    case SetBestBlock(hash) =>
      // 0 makes the level forget its best block
      if hash == 0 && |p.bests| < 2 then (p, Nothing)
      else (p.(bests := p.bests[0 := if hash != 0 then hash else p.bests[1]]), Nothing)
  }

  ghost predicate Shows(s: Stack, m: map<Txid, Coins>) { forall id :: View(s, id) == At(m, id) }

  /** Every level of the stack shows exactly the plain map of its layer. */
  ghost predicate Layered(s: Stack, layers: seq<map<Txid, Coins>>) {
    && layers != [] && Shows(s, layers[0])
    && (s.Database? ==> |layers| == 1)
    && (s.Cache? ==> Layered(s.base, layers[1..]))
  }

  /** Every level answers with the best block of its layer. */
  ghost predicate Blocked(s: Stack, bests: seq<int>) {
    && bests != [] && Best(s) == bests[0]
    && (s.Database? ==> |bests| == 1)
    && (s.Cache? ==> Blocked(s.base, bests[1..]))
  }

  /** A flush that loses no best block: the condition of FlushBest. */
  ghost predicate Lossless(s: Stack, op: Op) {
    op.FlushTop? && s.Cache? ==> s.hashBlock != 0 || s.base.Database? || Best(s.base) == Best(s.base.base)
  }

  ghost predicate Refines(s: Stack, p: Plain) {
    Valid(s) && Proper(p) && Layered(s, p.layers) && p.open == if s.Cache? then s.modifier else None
  }

  lemma {:induction false} MoreReadLayered(s: Stack, t: Stack, layers: seq<map<Txid, Coins>>)
    requires Layered(s, layers) && MoreRead(s, t)
    ensures Layered(t, layers)
    decreases s
  {
    hide View, Holds;
    if s.Cache? { MoreReadLayered(s.base, t.base, layers[1..]); }
  }

  lemma {:induction false} MoreReadBlocked(s: Stack, t: Stack, bests: seq<int>)
    requires Blocked(s, bests) && MoreRead(s, t)
    ensures Blocked(t, bests)
    decreases s
  {
    hide View, Holds, Best;
    if s.Cache? { MoreReadBlocked(s.base, t.base, bests[1..]); }
  }

  lemma TopBlocked(s: Stack, t: Stack, bests: seq<int>)
    requires Blocked(s, bests) && s.Cache? && t.Cache? && t.hashBlock == s.hashBlock && MoreRead(s.base, t.base)
    ensures Blocked(t, bests)
  {
    MoreReadBlocked(s.base, t.base, bests[1..]);
  }

  lemma FlushBlocked(s: Stack, bests: seq<int>)
    requires Blocked(s, bests) && s.Cache? && Lossless(s, FlushTop)
    ensures |bests| >= 2 && Blocked(Flush(s), bests[1 := bests[0]])
  {
    hide StoreAll, WriteAll;
    assert Blocked(s.base, bests[1..]);
    var t, q := Flush(s), bests[1 := bests[0]];
    FlushBest(s);
    assert q[1..][0] == bests[0] == Best(t.base);
    if s.base.Cache? { assert t.base.base == s.base.base && q[1..][1..] == bests[1..][1..]; }
    assert Blocked(t.base, q[1..]);
  }

  /** The best blocks along one step. */
  lemma StepBlocks(s: Stack, p: Plain, op: Op)
    requires Refines(s, p) && Allowed(s, op) && Blocked(s, p.bests) && Lossless(s, op)
    ensures Blocked(Step(s, op).0, PlainStep(p, op).0.bests) && Step(s, op).1 == PlainStep(p, op).1
  {
    StepRefines(s, p, op);
    hide GetCoins, HaveCoins, ModifyCoins, Assign, Close, Flush, GetBestBlock, Valid, View, Layered;
    match op
    case Get(id) =>
      GetCoinsKeeps(s, id);
      MoreReadBlocked(s, GetCoins(s, id).0, p.bests);
    case Have(id) => HaveBlocked(s, id, p.bests);
    case Modify(id) =>
      ModifyKeeps(s, id);
      TopBlocked(s, ModifyCoins(s, id), p.bests);
    case Change(c) =>
      AssignKeeps(s, c);
      MoreReadSame(s.base);
      TopBlocked(s, Assign(s, c), p.bests);
    case EndModify =>
      CloseKeeps(s);
      MoreReadSame(s.base);
      TopBlocked(s, Close(s), p.bests);
    case FlushTop => FlushBlocked(s, p.bests);
    case Push => assert ([p.bests[0]] + p.bests)[1..] == p.bests;
    case Pop =>
    case BestBlock =>
      GetBestKeeps(s);
      MoreReadBlocked(s, GetBestBlock(s).0, p.bests);
    case SetBestBlock(hash) => assert Blocked(s.base, p.bests[1..]);
  }

  lemma HaveBlocked(s: Stack, id: Txid, bests: seq<int>)
    requires Valid(s) && s.Cache? && Blocked(s, bests)
    ensures Blocked(HaveCoins(s, id).0, bests)
  {
    hide Fetch;
    FetchKeeps(s, id);
    MoreReadBlocked(s, Fetch(s, id), bests);
  }

  lemma GetRefines(s: Stack, p: Plain, id: Txid)
    requires Refines(s, p)
    ensures Refines(GetCoins(s, id).0, p) && Norm(GetCoins(s, id).1) == At(p.layers[0], id)
  {
    hide GetCoins;
    GetCoinsKeeps(s, id);
    MoreReadLayered(s, GetCoins(s, id).0, p.layers);
    assert View(s, id) == At(p.layers[0], id);
  }

  /** HaveCoins looks at vout alone. That is right for every entry but one that is being modified. */
  lemma HaveMeans(s: Stack, id: Txid)
    requires Valid(s) && s.Cache?
    ensures var have := HaveCoins(s, id).1;
            have <==> View(s, id).Some? || (s.modifier == Some(id) && IsPruned(s.cacheCoins[id].coins) && s.cacheCoins[id].coins.vout != [])
  {
    FetchKeeps(s, id);
    var t := Fetch(s, id);
    if id in t.cacheCoins {
      var c := t.cacheCoins[id].coins;
      CleanIsTrimmed(c);
      if s.modifier == Some(id) { assert id in s.cacheCoins; }
    }
  }

  lemma HaveRefines(s: Stack, p: Plain, id: Txid)
    requires Refines(s, p) && s.Cache? && s.modifier != Some(id)
    ensures Refines(HaveCoins(s, id).0, p) && HaveCoins(s, id).1 == (id in p.layers[0])
  {
    hide Fetch;
    FetchKeeps(s, id);
    MoreReadLayered(s, Fetch(s, id), p.layers);
    HaveMeans(s, id);
    assert View(s, id) == At(p.layers[0], id);
  }

  /** An operation on the top that leaves everything below as it was, up to entries read. */
  lemma TopRefines(s: Stack, t: Stack, p: Plain, q: Plain)
    requires Refines(s, p) && s.Cache? && t.Cache? && Valid(t) && MoreRead(s.base, t.base)
    requires Proper(q) && q.layers[1..] == p.layers[1..] && Shows(t, q.layers[0]) && q.open == t.modifier
    ensures Refines(t, q)
  {
    MoreReadLayered(s.base, t.base, p.layers[1..]);
  }

  lemma PutAt(m: map<Txid, Coins>, id: Txid, c: Option<Coins>, k: Txid)
    ensures At(Put(m, id, c), k) == if k == id then c else At(m, k)
  {}

  lemma ChangeRefines(s: Stack, p: Plain, c: Coins)
    requires Refines(s, p) && Open(s)
    ensures Refines(Assign(s, c), PlainStep(p, Change(c)).0)
  {
    AssignKeeps(s, c);
    MoreReadSame(s.base);
    var t, q := Assign(s, c), PlainStep(p, Change(c)).0;
    hide Assign, Put, View;
    forall k ensures View(t, k) == At(q.layers[0], k) {
      PutAt(p.layers[0], s.modifier.value, Norm(Some(c)), k);
      assert View(s, k) == At(p.layers[0], k);
    }
    TopRefines(s, t, p, q);
  }

  lemma FlushRefines(s: Stack, p: Plain)
    requires Refines(s, p) && s.Cache? && Closed(s)
    ensures Refines(Flush(s), PlainStep(p, FlushTop).0)
  {
    FlushKeeps(s);
    var t, q := Flush(s), PlainStep(p, FlushTop).0;
    hide Flush, View;
    assert Layered(s.base, p.layers[1..]);
    assert Shows(t.base, q.layers[1]);
    if s.base.Cache? { assert q.layers[1..][1..] == p.layers[1..][1..]; }
    assert Layered(t.base, q.layers[1..]);
  }

  /** Each step does to the plain maps what its specification says, and gives the same answer. */
  lemma StepRefines(s: Stack, p: Plain, op: Op)
    requires Refines(s, p) && Allowed(s, op)
    ensures Refines(Step(s, op).0, PlainStep(p, op).0) && (op != BestBlock ==> Step(s, op).1 == PlainStep(p, op).1)
  {
    hide GetCoins, HaveCoins, ModifyCoins, Assign, Close, Flush, GetBestBlock, Valid, View;
    match op
    case Get(id) => GetRefines(s, p, id);
    case Have(id) => HaveRefines(s, p, id);
    case Modify(id) =>
      ModifyKeeps(s, id);
      TopRefines(s, ModifyCoins(s, id), p, PlainStep(p, op).0);
    case Change(c) => ChangeRefines(s, p, c);
    case EndModify =>
      CloseKeeps(s);
      MoreReadSame(s.base);
      TopRefines(s, Close(s), p, PlainStep(p, op).0);
    case FlushTop => FlushRefines(s, p);
    case Push => PushRefines(s, p);
    case Pop => PopRefines(s, p);
    case BestBlock =>
      GetBestKeeps(s);
      MoreReadLayered(s, GetBestBlock(s).0, p.layers);
    case SetBestBlock(hash) => SetBestRefines(s, p, hash);
  }

  lemma PushRefines(s: Stack, p: Plain)
    requires Refines(s, p) && Closed(s)
    ensures Refines(Cache(map[], 0, None, s), PlainStep(p, Push).0)
  {
    var t := Cache(map[], 0, None, s);
    forall id ensures View(t, id) == At(p.layers[0], id) { EmptyShowsBase(t, id); }
    assert ([p.layers[0]] + p.layers)[1..] == p.layers;
  }

  lemma PopRefines(s: Stack, p: Plain)
    requires Refines(s, p) && s.Cache? && Closed(s)
    ensures Refines(s.base, PlainStep(p, Pop).0)
  {
    assert Layered(s.base, p.layers[1..]);
  }

  lemma SetBestRefines(s: Stack, p: Plain, hash: int)
    requires Refines(s, p) && s.Cache?
    ensures Refines(s.(hashBlock := hash), PlainStep(p, SetBestBlock(hash)).0)
  {
    forall id ensures View(s.(hashBlock := hash), id) == View(s, id) {}
  }

  ghost predicate RunAllowed(s: Stack, ops: seq<Op>)
    decreases |ops|
  {
    ops == [] || (Allowed(s, ops[0]) && RunAllowed(Step(s, ops[0]).0, ops[1..]))
  }

  ghost function Run(s: Stack, ops: seq<Op>): (Stack, seq<Answer>)
    requires RunAllowed(s, ops)
    decreases |ops|
  {
    if ops == [] then (s, [])
    else
      var (t, a) := Step(s, ops[0]);
      var (u, rest) := Run(t, ops[1..]);
      (u, [a] + rest)
  }

  ghost function PlainRun(p: Plain, ops: seq<Op>): (r: (Plain, seq<Answer>))
    requires Proper(p)
    ensures Proper(r.0)
    decreases |ops|
  {
    if ops == [] then (p, [])
    else
      var (q, a) := PlainStep(p, ops[0]);
      var (r, rest) := PlainRun(q, ops[1..]);
      (r, [a] + rest)
  }

  ghost predicate RunLossless(s: Stack, ops: seq<Op>)
    requires RunAllowed(s, ops)
    decreases |ops|
  {
    ops == [] || (Lossless(s, ops[0]) && RunLossless(Step(s, ops[0]).0, ops[1..]))
  }

  /** Over every run, however caches are stacked, filled, modified, flushed and dropped, every level shows
      what a plain map would, and every answer about coins is the plain one. */
  lemma {:induction false} RunRefines(s: Stack, p: Plain, ops: seq<Op>)
    requires Refines(s, p) && RunAllowed(s, ops)
    ensures Refines(Run(s, ops).0, PlainRun(p, ops).0) && |Run(s, ops).1| == |PlainRun(p, ops).1| == |ops|
    ensures forall i :: 0 <= i < |ops| && ops[i] != BestBlock ==> Run(s, ops).1[i] == PlainRun(p, ops).1[i]
    decreases |ops|
  {
    hide Refines, Step, PlainStep, Allowed;
    RefinesShape(s, p);
    if ops != [] {
      StepRefines(s, p, ops[0]);
      RunRefines(Step(s, ops[0]).0, PlainStep(p, ops[0]).0, ops[1..]);
    }
  }

  /** Over every run in which no flush loses the best block, so is every answer about the best block. */
  lemma {:induction false} RunBlocks(s: Stack, p: Plain, ops: seq<Op>)
    requires Refines(s, p) && RunAllowed(s, ops) && Blocked(s, p.bests) && RunLossless(s, ops)
    ensures Blocked(Run(s, ops).0, PlainRun(p, ops).0.bests) && Run(s, ops).1 == PlainRun(p, ops).1
    decreases |ops|
  {
    hide Refines, Step, PlainStep, Allowed, Blocked, Lossless;
    RefinesShape(s, p);
    if ops != [] {
      StepRefines(s, p, ops[0]);
      StepBlocks(s, p, ops[0]);
      RunBlocks(Step(s, ops[0]).0, PlainStep(p, ops[0]).0, ops[1..]);
    }
  }

  /** A run that loses one: a cache is told its best block, a second cache on top of it is flushed without
      having asked, and the first one answers with the block of the database. */
  lemma BestCanBeLost(db: map<Txid, Coins>, best: int, hash: int)
    requires hash != 0 && hash != best
    ensures var s, p, ops := Database(db, best), Plain([db], None, [best]), [Push, SetBestBlock(hash), Push, FlushTop, Pop, BestBlock];
            && RunAllowed(s, ops) && |Run(s, ops).1| == |PlainRun(p, ops).1| == 6
            && PlainRun(p, ops).1[5] == Block(hash) && Run(s, ops).1[5] == Block(best)
  {
    hide Run, RunAllowed, PlainRun, Flush, GetBestBlock;
    var s1 := Cache(map[], 0, None, Database(db, best));
    LossyFlush(s1.(hashBlock := hash));
    RunNext(s1, SetBestBlock(hash), [Push, FlushTop, Pop, BestBlock], [SetBestBlock(hash), Push, FlushTop, Pop, BestBlock]);
    RunNext(Database(db, best), Push, [SetBestBlock(hash), Push, FlushTop, Pop, BestBlock], [Push, SetBestBlock(hash), Push, FlushTop, Pop, BestBlock]);
    var p := Plain([db], None, [best]);
    var p1 := Plain([db, db], None, [best, best]);
    var p2 := Plain([db, db], None, [hash, best]);
    assert PlainStep(p, Push).0 == p1 && PlainStep(p1, SetBestBlock(hash)).0 == p2;
    PlainFlush(p2);
    PlainNext(p1, SetBestBlock(hash), [Push, FlushTop, Pop, BestBlock], [SetBestBlock(hash), Push, FlushTop, Pop, BestBlock]);
    PlainNext(p, Push, [SetBestBlock(hash), Push, FlushTop, Pop, BestBlock], [Push, SetBestBlock(hash), Push, FlushTop, Pop, BestBlock]);
  }

  lemma LossyFlush(s: Stack)
    requires s.Cache? && s.base.Database? && s.modifier == None && s.cacheCoins == map[]
    ensures var ops := [Push, FlushTop, Pop, BestBlock];
            RunAllowed(s, ops) && |Run(s, ops).1| == 4 && Run(s, ops).1[3] == Block(s.base.best)
  {
    hide Run, RunAllowed, WriteAll;
    var s3 := Cache(map[], 0, None, s);
    RunNothing(s, Plain([map[]], None, [0]));
    assert Flush(s3).base.hashBlock == 0 && Flush(s3).base.base == s.base;
    assert GetBestBlock(s.base).1 == s.base.best;
    RunNext(Flush(s3).base, BestBlock, [], [BestBlock]);
    RunNext(Flush(s3), Pop, [BestBlock], [Pop, BestBlock]);
    RunNext(s3, FlushTop, [Pop, BestBlock], [FlushTop, Pop, BestBlock]);
    RunNext(s, Push, [FlushTop, Pop, BestBlock], [Push, FlushTop, Pop, BestBlock]);
  }

  lemma PlainFlush(p: Plain)
    requires Proper(p)
    ensures var ops := [Push, FlushTop, Pop, BestBlock]; |PlainRun(p, ops).1| == 4 && PlainRun(p, ops).1[3] == Block(p.bests[0])
  {
    hide PlainRun;
    var p3 := PlainStep(p, Push).0;
    var p4 := PlainStep(p3, FlushTop).0;
    var p5 := PlainStep(p4, Pop).0;
    RunNothing(Database(map[], 0), PlainStep(p5, BestBlock).0);
    PlainNext(p5, BestBlock, [], [BestBlock]);
    PlainNext(p4, Pop, [BestBlock], [Pop, BestBlock]);
    PlainNext(p3, FlushTop, [Pop, BestBlock], [FlushTop, Pop, BestBlock]);
    PlainNext(p, Push, [FlushTop, Pop, BestBlock], [Push, FlushTop, Pop, BestBlock]);
  }

  lemma RunNothing(s: Stack, p: Plain)
    requires Proper(p)
    ensures (forall t :: RunAllowed(t, []) && Run(t, []) == (t, [])) && PlainRun(p, []) == (p, [])
  {}

  /** The first step of a run, and the rest. */
  lemma RunNext(s: Stack, op: Op, rest: seq<Op>, ops: seq<Op>)
    requires ops == [op] + rest && Allowed(s, op) && RunAllowed(Step(s, op).0, rest)
    ensures RunAllowed(s, ops) && Run(s, ops) == (Run(Step(s, op).0, rest).0, [Step(s, op).1] + Run(Step(s, op).0, rest).1)
  {
    assert ops[1..] == rest;
  }

  lemma PlainNext(p: Plain, op: Op, rest: seq<Op>, ops: seq<Op>)
    requires ops == [op] + rest && Proper(p)
    ensures PlainRun(p, ops) == (PlainRun(PlainStep(p, op).0, rest).0, [PlainStep(p, op).1] + PlainRun(PlainStep(p, op).0, rest).1)
  {
    assert ops[1..] == rest;
  }

  // ---------------------------------------------------------------- what the database holds

  function Bottom(s: Stack): map<Txid, Coins> {
    match s
    case Database(db, _) => db
    case Cache(_, _, _, base) => Bottom(base)
  }

  function LastLayer(p: Plain): map<Txid, Coins>
    requires Proper(p)
  {
    p.layers[|p.layers| - 1]
  }

  lemma {:induction false} MoreReadBottom(s: Stack, t: Stack)
    requires MoreRead(s, t)
    ensures Bottom(t) == Bottom(s)
  {
    hide View, Holds, Best;
    if s.Cache? { MoreReadBottom(s.base, t.base); }
  }

  /** A flush to the database stores what is left of every changed entry and erases the others. */
  lemma FlushExact(s: Stack, p: Plain)
    requires Refines(s, p) && s.Cache? && s.base.Database? && Closed(s) && s.base.db == LastLayer(p)
    ensures StoreAll(s.base.db, s.cacheCoins) == p.layers[0]
  {
    hide StoreAll, Clean;
    assert Layered(s.base, p.layers[1..]);
    assert |p.layers| == 2;
    forall id ensures At(StoreAll(s.base.db, s.cacheCoins), id) == At(p.layers[0], id) {
      StoreAllAt(s.base.db, s.cacheCoins, id);
      assert View(s, id) == At(p.layers[0], id) && View(s.base, id) == At(p.layers[1], id) == At(s.base.db, id);
      if id in s.cacheCoins {
        assert Flagged(s.cacheCoins[id], s.base, id);
        CleanIsTrimmed(s.cacheCoins[id].coins);
      }
    }
    SameMap(StoreAll(s.base.db, s.cacheCoins), p.layers[0]);
  }

  lemma StepExact(s: Stack, p: Plain, op: Op)
    requires Refines(s, p) && Allowed(s, op) && Bottom(s) == LastLayer(p)
    ensures Bottom(Step(s, op).0) == LastLayer(PlainStep(p, op).0)
  {
    hide GetCoins, HaveCoins, ModifyCoins, Assign, Close, GetBestBlock, Valid, View, StoreAll, WriteAll, Norm;
    match op
    case Get(id) =>
      GetCoinsKeeps(s, id);
      MoreReadBottom(s, GetCoins(s, id).0);
    case Have(id) => HaveBottom(s, id);
    case Modify(id) =>
      ModifyKeeps(s, id);
      MoreReadBottom(s.base, ModifyCoins(s, id).base);
    case Change(c) =>
      AssignKeeps(s, c);
      assert Layered(s.base, p.layers[1..]);
      assert Bottom(Assign(s, c)) == Bottom(s);
    case EndModify => CloseKeeps(s);
    case FlushTop =>
      assert Layered(s.base, p.layers[1..]);
      if s.base.Database? { FlushExact(s, p); } else { assert Layered(s.base.base, p.layers[1..][1..]); }
    case Push =>
    case Pop =>
    case BestBlock =>
      GetBestKeeps(s);
      MoreReadBottom(s, GetBestBlock(s).0);
    case SetBestBlock(hash) =>
  }

  lemma HaveBottom(s: Stack, id: Txid)
    requires Valid(s) && s.Cache?
    ensures Bottom(HaveCoins(s, id).0) == Bottom(s)
  {
    hide Fetch;
    FetchKeeps(s, id);
    MoreReadBottom(s, Fetch(s, id));
  }

  /** Over every run from a database of unpruned coins, the database is the last plain map, entry by entry. */
  lemma {:induction false} RunExact(s: Stack, p: Plain, ops: seq<Op>)
    requires Refines(s, p) && RunAllowed(s, ops) && Bottom(s) == LastLayer(p)
    ensures Bottom(Run(s, ops).0) == LastLayer(PlainRun(p, ops).0)
    decreases |ops|
  {
    hide Refines, Step, PlainStep, Allowed;
    RefinesShape(s, p);
    if ops != [] {
      StepRefines(s, p, ops[0]);
      StepExact(s, p, ops[0]);
      RunExact(Step(s, ops[0]).0, PlainStep(p, ops[0]).0, ops[1..]);
    }
  }

  ghost predicate AllOf(m: map<Txid, Coins>, good: Coins -> bool) { forall id :: id in m ==> !IsPruned(m[id]) && Clean(m[id]) && good(m[id]) }

  ghost predicate PlainGood(p: Plain, good: Coins -> bool) { forall i :: 0 <= i < |p.layers| ==> AllOf(p.layers[i], good) }

  /** Whatever coins an operation writes are good, once trimmed, unless nothing of them is left. */
  ghost predicate WritesGood(op: Op, good: Coins -> bool) { op.Change? && !IsPruned(op.coins) ==> good(Cleaned(op.coins)) }

  lemma PlainStepGood(p: Plain, op: Op, good: Coins -> bool)
    requires Proper(p) && PlainGood(p, good) && WritesGood(op, good)
    ensures PlainGood(PlainStep(p, op).0, good)
  {
    hide Put;
    var q := PlainStep(p, op).0;
    forall i | 0 <= i < |q.layers| ensures AllOf(q.layers[i], good) {
      if op.Change? && p.open.Some? && i == 0 {
        PutGood(p.layers[0], p.open.value, op.coins, good);
      } else {
        assert q.layers[i] in p.layers;
      }
    }
  }

  lemma PutGood(m: map<Txid, Coins>, id: Txid, c: Coins, good: Coins -> bool)
    requires AllOf(m, good) && WritesGood(Change(c), good)
    ensures AllOf(Put(m, id, Norm(Some(c))), good)
  {
    CleanIsTrimmed(c);
  }

  lemma {:induction false} PlainRunGood(p: Plain, ops: seq<Op>, good: Coins -> bool)
    requires Proper(p) && PlainGood(p, good) && forall i :: 0 <= i < |ops| ==> WritesGood(ops[i], good)
    ensures PlainGood(PlainRun(p, ops).0, good) && Proper(PlainRun(p, ops).0)
    decreases |ops|
  {
    hide PlainStep, PlainGood, WritesGood;
    if ops != [] {
      PlainStepGood(p, ops[0], good);
      PlainRunGood(PlainStep(p, ops[0]).0, ops[1..], good);
    }
  }

  /** So the database never holds a pruned entry, and whatever holds of all coins it started with and all
      that are written holds of every entry in it. */
  lemma DatabaseKeeps(db: map<Txid, Coins>, best: int, ops: seq<Op>, good: Coins -> bool)
    requires AllOf(db, good) && RunAllowed(Database(db, best), ops)
    requires forall i :: 0 <= i < |ops| ==> WritesGood(ops[i], good)
    ensures AllOf(Bottom(Run(Database(db, best), ops).0), good)
  {
    hide Run, PlainRun, RunAllowed;
    var s, p := Database(db, best), Plain([db], None, [best]);
    DatabaseRefines(db, best);
    RunExact(s, p, ops);
    PlainRunGood(p, ops, good);
    assert PlainGood(PlainRun(p, ops).0, good);
  }

  lemma RefinesShape(s: Stack, p: Plain)
    requires Refines(s, p)
    ensures Proper(p)
  {}

  /** A database whose entries are trimmed is where a run can start. */
  lemma DatabaseRefines(db: map<Txid, Coins>, best: int)
    requires forall id :: id in db ==> Clean(db[id]) && !IsPruned(db[id])
    ensures Refines(Database(db, best), Plain([db], None, [best])) && Blocked(Database(db, best), [best])
  {
    forall id ensures View(Database(db, best), id) == At(db, id) { if id in db { CleanIsTrimmed(db[id]); } }
  }
}
