/** What the buckets are for: one network group, or one source of addresses, reaches only a few of them. */
module AddrManGroups {
  import opened Basics
  import opened AddrMan

  function TriedChoice(env: Env, key: nat, group: seq<int>): int -> int {
    c => env.hash(OfTriedGroup(key, group, c)) % TRIED_BUCKET_COUNT
  }

  function SourceChoice(env: Env, key: nat, sourceGroup: seq<int>): int -> int {
    c => env.hash(OfSourceGroup(key, sourceGroup, c)) % NEW_BUCKET_COUNT
  }

  function Images(f: int -> int, n: nat): set<int> { if n == 0 then {} else Images(f, n - 1) + {f(n - 1)} }

  lemma {:induction false} ImagesFew(f: int -> int, n: nat, c: nat)
    ensures |Images(f, n)| <= n && (c < n ==> f(c) in Images(f, n))
  {
    if n > 0 { ImagesFew(f, n - 1, c); }
  }

  /** A set with a numbering below `n` has at most `n` members. */
  lemma {:induction false} NumberedCount(s: set<int>, f: int -> int, n: nat)
    requires forall x :: x in s ==> 0 <= f(x) < n
    requires forall x, y :: x in s && y in s && f(x) == f(y) ==> x == y
    ensures |s| <= n
    decreases n
  {
    if n == 0 {
      NothingIn(s);
    } else if exists x :: x in s && f(x) == n - 1 {
      var x :| x in s && f(x) == n - 1;
      NumberedCount(s - {x}, f, n - 1);
    } else {
      NumberedCount(s, f, n - 1);
    }
  }

  /** An address goes to one of at most 8 tried buckets of its group, and to one of at most 64 new buckets of
      its source's group. */
  lemma GroupReaches(env: Env, key: nat, service: Service, source: NetAddr)
    ensures var buckets := Images(TriedChoice(env, key, env.group(service.net)), 8);
            TriedBucket(env, key, service) in buckets && |buckets| <= 8
    ensures var buckets := Images(SourceChoice(env, key, env.group(source)), 64);
            NewBucket(env, key, service, source) in buckets && |buckets| <= 64
  {
    var hash1 := env.hash(OfKey(key, service));
    var hash2 := env.hash(OfGroups(key, env.group(service.net), env.group(source)));
    ImagesFew(TriedChoice(env, key, env.group(service.net)), 8, hash1 % 8);
    ImagesFew(SourceChoice(env, key, env.group(source)), 64, hash2 % 64);
  }

  /** The tried entries of a group. */
  ghost function TriedOf(env: Env, s: State, group: seq<int>): set<int> {
    set id | id in s.mapInfo && s.mapInfo[id].fInTried && env.group(s.mapInfo[id].service.net) == group
  }

  /** The slot of a tried entry, numbered within its group. */
  function SlotNumber(env: Env, s: State, id: int): int {
    if id !in s.mapInfo then 0
    else
      var service := s.mapInfo[id].service;
      env.hash(OfKey(s.nKey, service)) % TRIED_BUCKETS_PER_GROUP * BUCKET_SIZE + TriedSlot(env, s.nKey, service).1
  }

  /** However many of its addresses are known, no group ever has more than 8 full buckets of tried entries. */
  lemma GroupLimited(env: Env, s: State, group: seq<int>)
    requires Consistent(env, s)
    ensures |TriedOf(env, s, group)| <= TRIED_BUCKETS_PER_GROUP * BUCKET_SIZE
  {
    hide TriedSlot;
    var ids := TriedOf(env, s, group);
    forall x | x in ids ensures 0 <= SlotNumber(env, s, x) < TRIED_BUCKETS_PER_GROUP * BUCKET_SIZE {
      SlotRange(env, s.nKey, s.mapInfo[x].service);
    }
    forall x, y | x in ids && y in ids && SlotNumber(env, s, x) == SlotNumber(env, s, y) ensures x == y {
      SameSlot(env, s, x, y);
    }
    NumberedCount(ids, x => SlotNumber(env, s, x), TRIED_BUCKETS_PER_GROUP * BUCKET_SIZE);
  }

  lemma SameSlot(env: Env, s: State, x: int, y: int)
    requires Consistent(env, s) && x in TriedIds(s) && y in TriedIds(s) && SlotNumber(env, s, x) == SlotNumber(env, s, y)
    requires env.group(s.mapInfo[x].service.net) == env.group(s.mapInfo[y].service.net)
    ensures x == y
  {
    var a, b := s.mapInfo[x].service, s.mapInfo[y].service;
    SlotRange(env, s.nKey, a);
    SlotRange(env, s.nKey, b);
    assert TriedSlot(env, s.nKey, a) == TriedSlot(env, s.nKey, b);
    assert TriedsFiled(env, s);
  }
}
