/** Accumulator checkpoints: eight checksums in one number, renewed every ten blocks. */
module Accumulators {
  import opened Basics
  import opened Options
  import opened Products
  import L = Limbs

  /** The number of denominations. */
  const KINDS: nat := 8

  type Word = L.Limb

  /** An accumulator is determined by what has been accumulated, in any order. */
  type Value = multiset<nat>

  type Checksum = Value -> Word

  /** The accumulators of all denominations, in the order of zerocoinDenomList. */
  type Acc = a: seq<Value> | |a| == 8 witness [multiset{}, multiset{}, multiset{}, multiset{}, multiset{}, multiset{}, multiset{}, multiset{}]

  const EMPTY: Acc := [multiset{}, multiset{}, multiset{}, multiset{}, multiset{}, multiset{}, multiset{}, multiset{}]

  /** A mint; `kind` is the position of its denomination, -1 for ZQ_ERROR. */
  datatype Mint = Mint(kind: int, value: nat)

  /** A block as far as accumulators are concerned. */
  datatype Block = Block(mints: seq<Mint>, nAccumulatorCheckpoint: nat)

  /** Heights are positions in the chain. */
  type Blocks = seq<Block>

  /** zerocoinDB */
  type Store = map<nat, Value>

  // ---------------------------------------------------------------- packing checksums

  /** Concatenated words, the first one highest. */
  function Pack(ws: seq<Word>): nat { if ws == [] then 0 else L.BASE * Pack(ws[..|ws| - 1]) + ws[|ws| - 1] }

  /** Word `j`, counted from the lowest. */
  function WordAt(n: nat, j: nat): Word {
    DivMod(n, Pow2(32 * j));
    L.Low(Div(n, Pow2(32 * j)))
  }

  function ParseChecksum(n: nat, pos: nat): Word
    requires pos < KINDS
  {
    WordAt(n, KINDS - 1 - pos)
  }

  lemma {:induction false} PackBound(ws: seq<Word>)
    ensures Pack(ws) < Pow2(32 * |ws|)
  {
    hide Pow2;
    if ws != [] {
      PackBound(ws[..|ws| - 1]);
      L.Pow2Limb(|ws| - 1);
    } else {
      L.Pow2Base();
    }
  }

  /** Shifting the last `k` words out. */
  lemma {:induction false} PackShifted(ws: seq<Word>, k: nat)
    requires k <= |ws|
    ensures Div(Pack(ws), Pow2(32 * k)) == Pack(ws[..|ws| - k])
    decreases k
  {
    hide Times, Div, Mod, Pow2;
    if k == 0 {
      L.Pow2Base();
      TimesUnit(Pack(ws));
      DivUnique(Pack(ws), 1, Pack(ws), 0);
      assert ws[..|ws| - 0] == ws;
    } else {
      var n := |ws| - 1;
      L.TimesConst(Pack(ws[..n]));
      DivUnique(Pack(ws), L.BASE, Pack(ws[..n]), ws[n]);
      PackShifted(ws[..n], k - 1);
      DivDiv(Pack(ws), L.BASE, Pow2(32 * (k - 1)));
      L.Pow2Limb(k - 1);
      L.TimesConst(Pow2(32 * (k - 1)));
      assert ws[..n][..n - (k - 1)] == ws[..|ws| - k];
    }
  }

  /** ParseChecksum recovers each of the eight words. */
  lemma ParsePacked(ws: seq<Word>, pos: nat)
    requires |ws| == KINDS && pos < KINDS
    ensures ParseChecksum(Pack(ws), pos) == ws[pos]
  {
    hide Times, Div, Mod, Pow2;
    PackShifted(ws, KINDS - 1 - pos);
    var t := ws[..pos + 1];
    assert |ws| - (KINDS - 1 - pos) == pos + 1;
    assert t[..|t| - 1] == ws[..pos];
    L.LowCarryAre(Pack(t), Pack(ws[..pos]), ws[pos]);
  }

  /** A number is determined by its words. */
  lemma {:induction false} WordsUnique(m: nat, n: nat, k: nat)
    requires m < Pow2(32 * k) && n < Pow2(32 * k) && forall j: nat :: j < k ==> WordAt(m, j) == WordAt(n, j)
    ensures m == n
    decreases k
  {
    hide Pow2, WordAt, L.Low, L.Carry;
    L.Pow2Base();
    if k > 0 {
      WordsBelow(m, k - 1);
      WordsBelow(n, k - 1);
      forall j: nat | j < k - 1 ensures WordAt(L.Carry(m), j) == WordAt(L.Carry(n), j) {
        WordAbove(m, j);
        WordAbove(n, j);
        assert WordAt(m, j + 1) == WordAt(n, j + 1);
      }
      WordsUnique(L.Carry(m), L.Carry(n), k - 1);
      L.LowCarry(m);
      L.LowCarry(n);
    }
  }

  lemma WordsBelow(n: nat, k: nat)
    requires n < Pow2(32 * (k + 1))
    ensures WordAt(n, 0) == L.Low(n) && L.Carry(n) < Pow2(32 * k)
  {
    hide Pow2, Times, Div, Mod;
    L.Pow2Base();
    TimesUnit(n);
    DivUnique(n, 1, n, 0);
    L.Pow2Limb(k);
  }

  lemma WordAbove(n: nat, j: nat)
    ensures WordAt(n, j + 1) == WordAt(L.Carry(n), j)
  {
    hide Pow2, Times, Div, Mod;
    L.Pow2Limb(j);
    L.TimesConst(Pow2(32 * j));
    L.TimesConst(L.Carry(n));
    L.LowCarry(n);
    DivUnique(n, L.BASE, L.Carry(n), L.Low(n));
    DivDiv(n, L.BASE, Pow2(32 * j));
  }

  /** The packed words are the only number of 256 bits that parses to them. */
  lemma ParseUnique(ws: seq<Word>, n: nat)
    requires |ws| == KINDS && n < Pow2(32 * KINDS)
    ensures n == Pack(ws) <==> forall d: nat :: d < KINDS ==> ParseChecksum(n, d) == ws[d]
  {
    hide Pow2, WordAt;
    PackBound(ws);
    forall d: nat | d < KINDS ensures ParseChecksum(Pack(ws), d) == ws[d] { ParsePacked(ws, d); }
    if forall d: nat :: d < KINDS ==> ParseChecksum(n, d) == ws[d] {
      forall j: nat | j < KINDS ensures WordAt(n, j) == WordAt(Pack(ws), j) {
        assert ParseChecksum(n, KINDS - 1 - j) == ParseChecksum(Pack(ws), KINDS - 1 - j);
      }
      WordsUnique(n, Pack(ws), KINDS);
    }
  }

  function Checksums(checksum: Checksum, a: Acc): seq<Word> { seq(KINDS, d requires 0 <= d < KINDS => checksum(a[d])) }

  function Checkpoint(checksum: Checksum, a: Acc): nat { Pack(Checksums(checksum, a)) }

  // ---------------------------------------------------------------- loading and accumulating

  /** The accumulators that a checkpoint stands for; the number 0 for empty ones. */
  function Loaded(db: Store, cp: nat): Option<Acc> {
    if cp == 0 then Some(EMPTY)
    else if forall d: nat :: d < KINDS ==> ParseChecksum(cp, d) in db then Some(LoadedWords(db, cp))
    else None
  }

  function LoadedWords(db: Store, cp: nat): Acc
    requires forall d: nat :: d < KINDS ==> ParseChecksum(cp, d) in db
  {
    seq(KINDS, d requires 0 <= d < KINDS => db[ParseChecksum(cp, d)])
  }

  function Accumulated(a: Acc, m: Mint): Option<Acc> {
    if 0 <= m.kind < KINDS then Some(a[m.kind := a[m.kind] + multiset{m.value}]) else None
  }

  function AccumulatedAll(a: Acc, mints: seq<Mint>): Option<Acc> {
    if mints == [] then Some(a)
    else
      var r := AccumulatedAll(a, mints[..|mints| - 1]);
      if r.None? then None else Accumulated(r.value, mints[|mints| - 1])
  }

  /** All mints of the blocks from one height up to but excluding another. */
  function MintsOf(blocks: Blocks, from: nat, end: nat): seq<Mint>
    requires end <= |blocks|
    decreases end
  {
    if end <= from then [] else MintsOf(blocks, from, end - 1) + blocks[end - 1].mints
  }

  /** The values minted in one denomination. */
  function Minted(mints: seq<Mint>, d: nat): Value {
    if mints == [] then multiset{}
    else Minted(mints[..|mints| - 1], d) + MintedIn(mints[|mints| - 1], d)
  }

  function MintedIn(m: Mint, d: nat): Value { if m.kind == d then multiset{m.value} else multiset{} }

  /** Accumulating adds exactly the mints of each denomination. */
  lemma {:induction false} AccumulatedAllAdds(a: Acc, mints: seq<Mint>, d: nat)
    requires d < KINDS && AccumulatedAll(a, mints).Some?
    ensures AccumulatedAll(a, mints).value[d] == a[d] + Minted(mints, d)
  {
    if mints != [] { AccumulatedAllAdds(a, mints[..|mints| - 1], d); }
  }

  lemma SumsRegroup(x: Value, y: Value, z: Value)
    ensures x + y + z == x + (y + z)
  {}

  lemma {:induction false} MintedAppend(a: seq<Mint>, b: seq<Mint>, d: nat)
    ensures Minted(a + b, d) == Minted(a, d) + Minted(b, d)
  {
    hide MintedIn;
    if b == [] {
      assert a + b == a;
    } else {
      var n := |b| - 1;
      MintedAppend(a, b[..n], d);
      assert (a + b)[..|a + b| - 1] == a + b[..n];
      SumsRegroup(Minted(a, d), Minted(b[..n], d), MintedIn(b[n], d));
    }
  }

  // ---------------------------------------------------------------- the checkpoint of a height

  /** Where zerocoin and its version 2 start, and where the accumulators are recalculated. `hard` is
      GetClosestCheckpoint: the height and the accumulators of a hard checkpoint below a height. */
  datatype Params = Params(nStartHeight: nat, nV2Start: nat, nRecalculate: nat, fVerifyingBlocks: bool, hard: nat -> Option<(nat, Acc)>)

  /** The steady state: behind the hard checkpoints that follow the start of version 2, and not the block of
      the recalculation. */
  predicate Steady(p: Params, h: nat) {
    p.nStartHeight <= p.nV2Start && h > p.nV2Start + 20 && h != p.nRecalculate && !p.fVerifyingBlocks
  }

  /** Every height but 0 and that of the recalculation. A hard checkpoint lies below the height it is
      asked for, and there are 20 blocks below it. */
  predicate Covered(p: Params, h: nat) {
    h > 0 && h != p.nRecalculate && (p.hard(h).Some? ==> 20 <= p.hard(h).value.0 < h)
  }

  /** InitializeAccumulators: the accumulators to start from, and the height they are for. */
  function Initialized(p: Params, db: Store, blocks: Blocks, h: nat): Option<(nat, Acc)>
    requires 0 < h <= |blocks|
  {
    if h < p.nStartHeight then None
    else if h <= p.nV2Start + 20 then p.hard(h)
    else
      var a := Loaded(db, blocks[h - 1].nAccumulatorCheckpoint);
      if a.None? then None else Some((h, a.value))
  }

  /** The checkpoint and the accumulators after more mints; without any the checkpoint stays. */
  function Renewed(checksum: Checksum, prev: nat, a: Acc, mints: seq<Mint>): Option<(nat, Acc)> {
    var b := AccumulatedAll(a, mints);
    if b.None? then None
    else Some((if |mints| == 0 then prev else Checkpoint(checksum, b.value), b.value))
  }

  /** The first block whose mints the accumulators for a height do not hold yet. */
  function From(p: Params, h: nat): nat { if h < p.nStartHeight + 20 then p.nStartHeight else h - 20 }

  /** What the block at a height has to carry, and the accumulators behind it; `a0` are those before. */
  function Calculated(p: Params, checksum: Checksum, db: Store, blocks: Blocks, h: nat, a0: Acc): Option<(nat, Acc)>
    requires Covered(p, h) && h <= |blocks|
  {
    if h < p.nV2Start then Some((0, a0))
    else if h % 10 != 0 then Some((blocks[h - 1].nAccumulatorCheckpoint, a0))
    else
      var a := Initialized(p, db, blocks, h);
      if a.None? then None
      else Renewed(checksum, blocks[h - 1].nAccumulatorCheckpoint, a.value.1, MintsOf(blocks, From(p, a.value.0), h - 10))
  }

  class AccumulatorMap {
    var mapAccumulators: Acc

    constructor ()
      ensures mapAccumulators == EMPTY
    {
      mapAccumulators := EMPTY;
    }

    method Reset()
      modifies this
      ensures mapAccumulators == EMPTY
    {
      mapAccumulators := EMPTY;
    }

    /** Every denomination gets the accumulator stored under its word of the checkpoint. */
    method Load(db: Store, nCheckpoint: nat) returns (ok: bool)
      modifies this
      ensures ok <==> forall d: nat :: d < KINDS ==> ParseChecksum(nCheckpoint, d) in db
      ensures ok ==> mapAccumulators == LoadedWords(db, nCheckpoint)
    {
      hide ParseChecksum;
      for d := 0 to KINDS
        invariant forall e: nat :: e < d ==> ParseChecksum(nCheckpoint, e) in db && mapAccumulators[e] == db[ParseChecksum(nCheckpoint, e)]
      {
        var nChecksum := ParseChecksum(nCheckpoint, d);
        if nChecksum !in db { return false; }
        mapAccumulators := mapAccumulators[d := db[nChecksum]];
      }
      return true;
    }

    method Accumulate(m: Mint) returns (ok: bool)
      modifies this
      ensures ok <==> Accumulated(old(mapAccumulators), m).Some?
      ensures mapAccumulators == if ok then Accumulated(old(mapAccumulators), m).value else old(mapAccumulators)
    {
      if !(0 <= m.kind < KINDS) { return false; }
      mapAccumulators := mapAccumulators[m.kind := mapAccumulators[m.kind] + multiset{m.value}];
      return true;
    }

    /** Concatenate checksums; `nCheckpoint << 32 | nCheckSum` has no bits in common. */
    method GetCheckpoint(checksum: Checksum) returns (nCheckpoint: nat)
      ensures nCheckpoint == Checkpoint(checksum, mapAccumulators) < Pow2(32 * KINDS)
    {
      hide Pow2, L.Or, L.Aligned, Times, Mod;
      nCheckpoint := 0;
      ghost var ws := Checksums(checksum, mapAccumulators);
      for d := 0 to KINDS
        invariant nCheckpoint == Pack(ws[..d])
      {
        var nCheckSum := checksum(mapAccumulators[d]);
        L.Pow2Base();
        L.AlignedMultiple(32, nCheckpoint);
        L.TimesConst(nCheckpoint);
        L.OrDisjoint(L.BASE * nCheckpoint, nCheckSum, 32);
        assert ws[..d + 1][..d] == ws[..d];
        nCheckpoint := L.Or(L.BASE * nCheckpoint, nCheckSum);
      }
      assert ws[..KINDS] == ws;
      PackBound(ws);
    }

    method AccumulateAll(mints: seq<Mint>) returns (ok: bool)
      modifies this
      ensures ok <==> AccumulatedAll(old(mapAccumulators), mints).Some?
      ensures ok ==> mapAccumulators == AccumulatedAll(old(mapAccumulators), mints).value
    {
      hide Accumulated;
      ghost var a := mapAccumulators;
      for i := 0 to |mints|
        invariant AccumulatedAll(a, mints[..i]) == Some(mapAccumulators)
      {
        assert mints[..i + 1][..i] == mints[..i];
        var added := Accumulate(mints[i]);
        if !added {
          FailsForGood(a, mints, i + 1);
          return false;
        }
      }
      assert mints[..|mints|] == mints;
      return true;
    }

    /** The loop over the blocks; those before the start of zerocoin are passed over. */
    method AccumulateBlocks(p: Params, blocks: Blocks, hc: nat, h: nat) returns (ok: bool, nTotalMintsFound: nat)
      requires 20 <= hc <= h <= |blocks|
      modifies this
      ensures var mints := MintsOf(blocks, From(p, hc), h - 10);
              && (ok <==> AccumulatedAll(old(mapAccumulators), mints).Some?)
              && (ok ==> mapAccumulators == AccumulatedAll(old(mapAccumulators), mints).value && nTotalMintsFound == |mints|)
    {
      hide Accumulated, AccumulatedAll;
      ghost var a := mapAccumulators;
      ghost var from := From(p, hc);
      nTotalMintsFound := 0;
      var height := hc - 20;
      assert AccumulatedAll(a, MintsOf(blocks, from, height)) == Some(a) by { NothingAccumulated(a); }
      while height < h - 10
        invariant hc - 20 <= height <= h - 10
        invariant AccumulatedAll(a, MintsOf(blocks, from, height)) == Some(mapAccumulators)
        invariant nTotalMintsFound == |MintsOf(blocks, from, height)|
      {
        if height < p.nStartHeight { height := height + 1; continue; }
        var listPubcoins := blocks[height].mints;
        nTotalMintsFound := nTotalMintsFound + |listPubcoins|;
        ghost var before := MintsOf(blocks, from, height);
        AccumulatedSplit(a, before, listPubcoins);
        var added := AccumulateAll(listPubcoins);
        if !added {
          MintsUpTo(blocks, from, height + 1, h - 10);
          FailsForGood(a, MintsOf(blocks, from, h - 10), |before| + |listPubcoins|);
          return false, 0;
        }
        height := height + 1;
      }
      ok := true;
    }

    method InitializeAccumulators(p: Params, db: Store, blocks: Blocks, h: nat) returns (ok: bool, nHeightCheckpoint: nat)
      requires Covered(p, h) && p.nV2Start <= h <= |blocks|
      modifies this
      ensures ok <==> Initialized(p, db, blocks, h).Some?
      ensures ok ==> Initialized(p, db, blocks, h) == Some((nHeightCheckpoint, mapAccumulators))
    {
      hide ParseChecksum;
      nHeightCheckpoint := 0;
      if h < p.nStartHeight { return false, 0; }
      Reset();
      if h <= p.nV2Start + 20 {
        var checkpoint := p.hard(h);
        if checkpoint.None? { return false, 0; }
        mapAccumulators := checkpoint.value.1;
        return true, checkpoint.value.0;
      }
      var nCheckpointPrev := blocks[h - 1].nAccumulatorCheckpoint;
      if nCheckpointPrev == 0 {
        Reset();
      } else {
        ok := Load(db, nCheckpointPrev);
        if !ok { return; }
      }
      return true, h;
    }

    method CalculateAccumulatorCheckpoint(p: Params, checksum: Checksum, db: Store, blocks: Blocks, h: nat) returns (ok: bool, nCheckpoint: nat)
      requires Covered(p, h) && h <= |blocks|
      modifies this
      ensures ok <==> Calculated(p, checksum, db, blocks, h, old(mapAccumulators)).Some?
      ensures ok ==> Calculated(p, checksum, db, blocks, h, old(mapAccumulators)) == Some((nCheckpoint, mapAccumulators))
    {
      hide Checkpoint, AccumulatedAll, ParseChecksum, MintsOf, Loaded;
      nCheckpoint := 0;
      if h < p.nV2Start { return true, 0; }
      if h % 10 != 0 { return true, blocks[h - 1].nAccumulatorCheckpoint; }
      var nHeightCheckpoint;
      Reset();
      ok, nHeightCheckpoint := InitializeAccumulators(p, db, blocks, h);
      if !ok { return; }
      var nTotalMintsFound;
      ok, nTotalMintsFound := AccumulateBlocks(p, blocks, nHeightCheckpoint, h);
      if !ok { return; }
      if nTotalMintsFound == 0 {
        nCheckpoint := blocks[h - 1].nAccumulatorCheckpoint;
      } else {
        nCheckpoint := GetCheckpoint(checksum);
      }
      ok := true;
    }
  }

  lemma NothingAccumulated(a: Acc)
    ensures AccumulatedAll(a, []) == Some(a)
  {}

  lemma {:induction false} FailsForGood(a: Acc, mints: seq<Mint>, n: nat)
    requires n <= |mints| && AccumulatedAll(a, mints[..n]) == None
    ensures AccumulatedAll(a, mints) == None
    decreases |mints|
  {
    if n == |mints| {
      assert mints[..n] == mints;
    } else {
      assert mints[..|mints| - 1][..n] == mints[..n];
      FailsForGood(a, mints[..|mints| - 1], n);
    }
  }

  lemma {:induction false} AccumulatedSplit(a: Acc, x: seq<Mint>, y: seq<Mint>)
    requires AccumulatedAll(a, x).Some?
    ensures AccumulatedAll(a, x + y) == AccumulatedAll(AccumulatedAll(a, x).value, y)
  {
    hide Accumulated;
    if y == [] {
      assert x + y == x;
    } else {
      AccumulatedSplit(a, x, y[..|y| - 1]);
      assert (x + y)[..|x + y| - 1] == x + y[..|y| - 1];
    }
  }

  lemma {:induction false} MintsUpTo(blocks: Blocks, from: nat, mid: nat, end: nat)
    requires from <= mid <= end <= |blocks|
    ensures MintsOf(blocks, from, end) == MintsOf(blocks, from, mid) + MintsOf(blocks, mid, end)
    ensures |MintsOf(blocks, from, mid)| <= |MintsOf(blocks, from, end)|
    ensures MintsOf(blocks, from, end)[..|MintsOf(blocks, from, mid)|] == MintsOf(blocks, from, mid)
    decreases end
  {
    if mid < end { MintsUpTo(blocks, from, mid, end - 1); }
  }

  // ---------------------------------------------------------------- validating a run of blocks

  /** The blocks connected so far and the stored accumulator values. */
  datatype Node = Node(blocks: Blocks, db: Store)

  /** ValidateAccumulatorCheckpoint for the next block, with the accumulators that it leaves of `a0`. */
  function Validated(p: Params, checksum: Checksum, n: Node, block: Block, a0: Acc): Option<Acc>
    requires Covered(p, |n.blocks|)
  {
    var h := |n.blocks|;
    if h < p.nV2Start || p.fVerifyingBlocks then Some(a0)
    else if h % 10 == 0 then
      var r := Calculated(p, checksum, n.db, n.blocks, h, a0);
      if r.None? || r.value.0 != block.nAccumulatorCheckpoint then None else Some(r.value.1)
    else if block.nAccumulatorCheckpoint != n.blocks[h - 1].nAccumulatorCheckpoint then None
    else Some(a0)
  }

  method ValidateAccumulatorCheckpoint(p: Params, checksum: Checksum, n: Node, block: Block, accumulators: AccumulatorMap) returns (ok: bool)
    requires Covered(p, |n.blocks|)
    modifies accumulators
    ensures ok <==> Validated(p, checksum, n, block, old(accumulators.mapAccumulators)).Some?
    ensures ok ==> Validated(p, checksum, n, block, old(accumulators.mapAccumulators)) == Some(accumulators.mapAccumulators)
  {
    hide Calculated;
    var h := |n.blocks|;
    if h < p.nV2Start || p.fVerifyingBlocks { return true; }
    if h % 10 == 0 {
      var calculated, nCheckpointCalculated := accumulators.CalculateAccumulatorCheckpoint(p, checksum, n.db, n.blocks, h);
      if !calculated { return false; }
      return nCheckpointCalculated == block.nAccumulatorCheckpoint;
    }
    return block.nAccumulatorCheckpoint == n.blocks[h - 1].nAccumulatorCheckpoint;
  }

  /** DatabaseChecksums */
  function Stored(checksum: Checksum, db: Store, a: Acc, d: nat): Store
    requires d <= KINDS
  {
    if d == 0 then db else Stored(checksum, db, a, d - 1)[checksum(a[d - 1]) := a[d - 1]]
  }

  function Connected(p: Params, checksum: Checksum, n: Node, block: Block): Option<Node>
    requires Covered(p, |n.blocks|)
  {
    var a := Validated(p, checksum, n, block, EMPTY);
    if a.None? then None else Some(Node(n.blocks + [block], Stored(checksum, n.db, a.value, KINDS)))
  }

  /** No two of the values that are stored have the same checksum, nor are all eight of it zero. */
  ghost predicate NoCollision(checksum: Checksum, db: Store, a: Acc) {
    && (forall d: nat :: d < KINDS && checksum(a[d]) in db ==> db[checksum(a[d])] == a[d])
    && (forall d: nat, e: nat :: d < KINDS && e < KINDS && checksum(a[d]) == checksum(a[e]) ==> a[d] == a[e])
    && (Checkpoint(checksum, a) == 0 ==> a == EMPTY)
  }

  lemma {:induction false} StoredAt(checksum: Checksum, db: Store, a: Acc, k: nat)
    requires k <= KINDS && NoCollision(checksum, db, a)
    ensures var t := Stored(checksum, db, a, k);
            && (forall c :: c in db ==> c in t && t[c] == db[c])
            && (forall d: nat :: d < k ==> checksum(a[d]) in t && t[checksum(a[d])] == a[d])
  {
    hide Checkpoint;
    if k > 0 { StoredAt(checksum, db, a, k - 1); }
  }

  /** What is stored can be loaded again. */
  lemma StoredLoads(checksum: Checksum, db: Store, a: Acc)
    requires NoCollision(checksum, db, a)
    ensures Loaded(Stored(checksum, db, a, KINDS), Checkpoint(checksum, a)) == Some(a)
  {
    hide Stored, ParseChecksum;
    StoredAt(checksum, db, a, KINDS);
    var cp := Checkpoint(checksum, a);
    forall d: nat | d < KINDS ensures ParseChecksum(cp, d) == checksum(a[d]) { ParsePacked(Checksums(checksum, a), d); }
    if cp != 0 { assert LoadedWords(Stored(checksum, db, a, KINDS), cp) == a; }
  }

  lemma LoadedKept(db: Store, t: Store, cp: nat)
    requires (forall c :: c in db ==> c in t && t[c] == db[c]) && Loaded(db, cp).Some?
    ensures Loaded(t, cp) == Loaded(db, cp)
  {
    hide ParseChecksum;
    if cp != 0 { assert LoadedWords(t, cp) == LoadedWords(db, cp); }
  }

  /** The last multiple of ten. */
  function Tens(h: nat): nat { h - h % 10 }

  /** The base and the mints of all blocks from `s - 20` up to the one eleven below the last multiple of ten. */
  function Due(base: Acc, blocks: Blocks, s: nat, h: nat): Option<Acc>
    requires s >= 20 && h < |blocks|
  {
    AccumulatedAll(base, MintsOf(blocks, s - 20, if Tens(h) < 10 then 0 else Tens(h) - 10))
  }

  /** At every height of the run, the checkpoint loads the accumulators that are due. */
  ghost predicate Right(base: Acc, n: Node, s: nat) {
    && 20 <= s <= |n.blocks| && s % 10 == 0
    && forall h: nat :: s - 1 <= h < |n.blocks| ==>
         Due(base, n.blocks, s, h).Some? && Loaded(n.db, n.blocks[h].nAccumulatorCheckpoint) == Due(base, n.blocks, s, h)
  }

  lemma {:induction false} MintsSame(a: Blocks, b: Blocks, from: nat, end: nat)
    requires end <= |a| && a <= b
    ensures MintsOf(a, from, end) == MintsOf(b, from, end)
    decreases end
  {
    if end > from { MintsSame(a, b, from, end - 1); }
  }

  lemma DueSame(base: Acc, a: Blocks, b: Blocks, s: nat, h: nat)
    requires s >= 20 && h < |a| && a <= b
    ensures Due(base, a, s, h) == Due(base, b, s, h)
  {
    hide AccumulatedAll;
    MintsSame(a, b, s - 20, if Tens(h) < 10 then 0 else Tens(h) - 10);
  }

  /** What the new block's accumulators are. */
  lemma NextDue(p: Params, checksum: Checksum, base: Acc, n: Node, s: nat, block: Block)
    requires Steady(p, |n.blocks|) && Covered(p, |n.blocks|) && Right(base, n, s) && Validated(p, checksum, n, block, EMPTY).Some?
    ensures var h := |n.blocks|;
            Due(base, n.blocks + [block], s, h) ==
              if h % 10 == 0 then Validated(p, checksum, n, block, EMPTY) else Due(base, n.blocks, s, h - 1)
  {
    hide AccumulatedAll, Loaded, Checkpoint, Tens, MintsOf;
    var h := |n.blocks|;
    var t := n.blocks + [block];
    TensNext(h);
    TensReach(s, h);
    if h % 10 == 0 {
      MintsUpTo(t, s - 20, h - 20, h - 10);
      MintsSame(n.blocks, t, s - 20, h - 20);
      MintsSame(n.blocks, t, h - 20, h - 10);
      assert Due(base, n.blocks, s, h - 1).Some?;
      AccumulatedSplit(base, MintsOf(n.blocks, s - 20, h - 20), MintsOf(n.blocks, h - 20, h - 10));
    } else {
      MintsSame(n.blocks, t, s - 20, if Tens(h) < 10 then 0 else Tens(h) - 10);
    }
  }

  predicate KindsValid(mints: seq<Mint>) { forall i :: 0 <= i < |mints| ==> 0 <= mints[i].kind < KINDS }

  /** Accumulating fails only for a mint of no denomination. */
  lemma {:induction false} AccumulatedIff(a: Acc, mints: seq<Mint>)
    ensures AccumulatedAll(a, mints).Some? <==> KindsValid(mints)
  {
    if mints != [] { AccumulatedIff(a, mints[..|mints| - 1]); }
  }

  /** The mints that the checkpoint of a height has to take in. */
  function Window(blocks: Blocks, h: nat): seq<Mint>
    requires 20 <= h <= |blocks|
  {
    MintsOf(blocks, h - 20, h - 10)
  }

  /** The eight words of a checkpoint are the checksums of these accumulators, and it has nothing more. */
  predicate Summarizes(checksum: Checksum, cp: nat, a: Acc) {
    cp < Pow2(32 * KINDS) && forall d: nat :: d < KINDS ==> ParseChecksum(cp, d) == checksum(a[d])
  }

  lemma SummarizesOne(checksum: Checksum, cp: nat, a: Acc)
    ensures Summarizes(checksum, cp, a) <==> cp == Checkpoint(checksum, a)
  {
    hide Pow2, ParseChecksum, Pack;
    var ws := Checksums(checksum, a);
    PackBound(ws);
    if cp < Pow2(32 * KINDS) {
      ParseUnique(ws, cp);
      assert forall d: nat :: d < KINDS ==> ws[d] == checksum(a[d]);
    }
  }

  /** Which checkpoint the next block may carry. Off the multiples of ten, that of the block before. At one,
      if the window holds a mint, and mints of valid kinds only, the one of the accumulators that are due;
      without mints that of the block before again. */
  lemma AcceptedIff(p: Params, checksum: Checksum, base: Acc, n: Node, s: nat, block: Block)
    requires Steady(p, |n.blocks|) && Covered(p, |n.blocks|) && Right(base, n, s)
    ensures var h := |n.blocks|;
            Connected(p, checksum, n, block).Some? <==>
              if h % 10 != 0 || Window(n.blocks, h) == [] then block.nAccumulatorCheckpoint == n.blocks[h - 1].nAccumulatorCheckpoint
              else
                && KindsValid(Window(n.blocks, h))
                && Due(base, n.blocks + [block], s, h).Some?
                && Summarizes(checksum, block.nAccumulatorCheckpoint, Due(base, n.blocks + [block], s, h).value)
  {
    hide Loaded, Checkpoint, Summarizes, AccumulatedAll, MintsOf, KindsValid, Stored;
    var h := |n.blocks|;
    if h % 10 == 0 {
      TensNext(h);
      DueAtTens(base, n, s, block);
      var a := Due(base, n.blocks, s, h - 1).value;
      assert Loaded(n.db, n.blocks[h - 1].nAccumulatorCheckpoint) == Some(a);
      AccumulatedIff(a, Window(n.blocks, h));
      if Window(n.blocks, h) == [] { NothingAccumulated(a); }
      if KindsValid(Window(n.blocks, h)) {
        SummarizesOne(checksum, block.nAccumulatorCheckpoint, AccumulatedAll(a, Window(n.blocks, h)).value);
      }
    }
  }

  /** The first 20 blocks of version 2 start from a hard checkpoint. If that holds the base and the mints of
      the blocks `from` through `hc - 21`, the calculated accumulators hold the base and the mints of the
      blocks `from` through `h - 11`, again each once; and only a mint of no denomination makes it fail. */
  lemma HardCountsOnce(p: Params, checksum: Checksum, base: Acc, db: Store, blocks: Blocks, h: nat, hc: nat, from: nat, a0: Acc)
    requires Covered(p, h) && h <= |blocks| && h % 10 == 0 && p.nStartHeight <= p.nV2Start <= h <= p.nV2Start + 20
    requires from + 20 <= hc && p.nStartHeight + 20 <= hc && p.hard(h).Some? && p.hard(h).value.0 == hc
    requires AccumulatedAll(base, MintsOf(blocks, from, hc - 20)) == Some(p.hard(h).value.1)
    ensures var r, mints := Calculated(p, checksum, db, blocks, h, a0), MintsOf(blocks, from, h - 10);
            && (r.Some? <==> KindsValid(mints))
            && (r.Some? ==> forall d: nat :: d < KINDS ==> r.value.1[d] == base[d] + Minted(mints, d))
  {
    hide AccumulatedAll, MintsOf, Checkpoint, KindsValid, Minted;
    MintsUpTo(blocks, from, hc - 20, h - 10);
    AccumulatedSplit(base, MintsOf(blocks, from, hc - 20), MintsOf(blocks, hc - 20, h - 10));
    AccumulatedIff(base, MintsOf(blocks, from, h - 10));
    if KindsValid(MintsOf(blocks, from, h - 10)) {
      forall d: nat | d < KINDS { AccumulatedAllAdds(base, MintsOf(blocks, from, h - 10), d); }
    }
  }

  /** What is due at a multiple of ten is what was due before and the mints of the window. */
  lemma DueAtTens(base: Acc, n: Node, s: nat, block: Block)
    requires 20 <= s <= |n.blocks| && s % 10 == 0 && |n.blocks| % 10 == 0 && Due(base, n.blocks, s, |n.blocks| - 1).Some?
    ensures var h := |n.blocks|;
            Due(base, n.blocks + [block], s, h) == AccumulatedAll(Due(base, n.blocks, s, h - 1).value, Window(n.blocks, h))
  {
    hide AccumulatedAll, Tens, MintsOf;
    var h := |n.blocks|;
    var t := n.blocks + [block];
    TensNext(h);
    MintsUpTo(t, s - 20, h - 20, h - 10);
    MintsSame(n.blocks, t, s - 20, h - 20);
    MintsSame(n.blocks, t, h - 20, h - 10);
    AccumulatedSplit(base, MintsOf(n.blocks, s - 20, h - 20), MintsOf(n.blocks, h - 20, h - 10));
  }

  lemma TensNext(h: nat)
    requires h > 0
    ensures h % 10 == 0 ==> Tens(h) == h && Tens(h - 1) == h - 10
    ensures h % 10 != 0 ==> Tens(h) == Tens(h - 1)
  {}

  lemma TensReach(s: nat, h: nat)
    requires s % 10 == 0 && s <= h
    ensures s <= Tens(h) <= h
  {}

  /** Each block that is connected keeps all checkpoints right. */
  lemma ConnectKeeps(p: Params, checksum: Checksum, base: Acc, n: Node, s: nat, block: Block)
    requires Steady(p, |n.blocks|) && Covered(p, |n.blocks|) && Right(base, n, s) && Connected(p, checksum, n, block).Some?
    requires NoCollision(checksum, n.db, Validated(p, checksum, n, block, EMPTY).value)
    ensures Right(base, Connected(p, checksum, n, block).value, s)
  {
    hide AccumulatedAll, Loaded, Due, NoCollision, Stored, Checkpoint;
    var h := |n.blocks|;
    var a := Validated(p, checksum, n, block, EMPTY).value;
    var t := Connected(p, checksum, n, block).value;
    StoredAt(checksum, n.db, a, KINDS);
    NextDue(p, checksum, base, n, s, block);
    forall k: nat | s - 1 <= k < h ensures Due(base, t.blocks, s, k).Some? && Loaded(t.db, t.blocks[k].nAccumulatorCheckpoint) == Due(base, t.blocks, s, k) {
      DueSame(base, n.blocks, t.blocks, s, k);
      LoadedKept(n.db, t.db, n.blocks[k].nAccumulatorCheckpoint);
    }
    NewCheckpoint(p, checksum, base, n, s, block);
  }

  /** The new block's own checkpoint. */
  lemma NewCheckpoint(p: Params, checksum: Checksum, base: Acc, n: Node, s: nat, block: Block)
    requires Steady(p, |n.blocks|) && Covered(p, |n.blocks|) && Right(base, n, s) && Connected(p, checksum, n, block).Some?
    requires NoCollision(checksum, n.db, Validated(p, checksum, n, block, EMPTY).value)
    ensures var a := Validated(p, checksum, n, block, EMPTY).value;
            Loaded(Stored(checksum, n.db, a, KINDS), block.nAccumulatorCheckpoint) ==
              if |n.blocks| % 10 == 0 then Some(a) else Due(base, n.blocks, s, |n.blocks| - 1)
  {
    hide Loaded, Due, NoCollision, Stored, Checkpoint, MintsOf;
    var h := |n.blocks|;
    var a := Validated(p, checksum, n, block, EMPTY).value;
    StoredAt(checksum, n.db, a, KINDS);
    LoadedKept(n.db, Stored(checksum, n.db, a, KINDS), n.blocks[h - 1].nAccumulatorCheckpoint);
    if h % 10 == 0 { StoredLoads(checksum, n.db, a); }
  }

  /** `t` is `n` after connecting the blocks, no two values colliding on the way. */
  ghost predicate Reaches(p: Params, checksum: Checksum, n: Node, blocks: Blocks, t: Node)
    decreases |blocks|
  {
    if blocks == [] then t == n
    else
      && Steady(p, |n.blocks|) && Covered(p, |n.blocks|) && Connected(p, checksum, n, blocks[0]).Some?
      && NoCollision(checksum, n.db, Validated(p, checksum, n, blocks[0], EMPTY).value)
      && Reaches(p, checksum, Connected(p, checksum, n, blocks[0]).value, blocks[1..], t)
  }

  lemma {:induction false} RunKeeps(p: Params, checksum: Checksum, base: Acc, n: Node, s: nat, blocks: Blocks, t: Node)
    requires Right(base, n, s) && Reaches(p, checksum, n, blocks, t)
    ensures Right(base, t, s)
    decreases |blocks|
  {
    hide Right, NoCollision, Connected;
    if blocks != [] {
      ConnectKeeps(p, checksum, base, n, s, blocks[0]);
      RunKeeps(p, checksum, base, Connected(p, checksum, n, blocks[0]).value, s, blocks[1..], t);
    }
  }

  /** Over every steady run, the accumulator of each denomination at each height holds the base and every mint
      from the start of the run through the block eleven below the last multiple of ten, exactly once. */
  lemma RunCountsOnce(p: Params, checksum: Checksum, base: Acc, n: Node, blocks: Blocks, t: Node, h: nat, d: nat)
    requires |n.blocks| >= 20 && |n.blocks| % 10 == 0 && Loaded(n.db, n.blocks[|n.blocks| - 1].nAccumulatorCheckpoint) == Some(base)
    requires Reaches(p, checksum, n, blocks, t) && |n.blocks| <= h < |t.blocks| && d < KINDS
    ensures var a := Loaded(t.db, t.blocks[h].nAccumulatorCheckpoint);
            a.Some? && a.value[d] == base[d] + Minted(MintsOf(t.blocks, |n.blocks| - 20, Tens(h) - 10), d)
  {
    hide Loaded, Reaches, AccumulatedAll, Tens, Minted;
    var s := |n.blocks|;
    StartRight(base, n);
    RunKeeps(p, checksum, base, n, s, blocks, t);
    TensReach(s, h);
    assert Due(base, t.blocks, s, h).Some?;
    AccumulatedAllAdds(base, MintsOf(t.blocks, s - 20, Tens(h) - 10), d);
  }

  lemma StartRight(base: Acc, n: Node)
    requires |n.blocks| >= 20 && |n.blocks| % 10 == 0 && Loaded(n.db, n.blocks[|n.blocks| - 1].nAccumulatorCheckpoint) == Some(base)
    ensures Right(base, n, |n.blocks|)
  {
    hide Loaded, Tens;
    var s := |n.blocks|;
    TensNext(s);
    assert MintsOf(n.blocks, s - 20, s - 20) == [];
    NothingAccumulated(base);
  }

  lemma {:induction false} RunExtends(p: Params, checksum: Checksum, n: Node, blocks: Blocks, t: Node)
    requires Reaches(p, checksum, n, blocks, t)
    ensures n.blocks <= t.blocks
    decreases |blocks|
  {
    hide NoCollision, Stored, Validated;
    if blocks != [] { RunExtends(p, checksum, Connected(p, checksum, n, blocks[0]).value, blocks[1..], t); }
  }

  /** A block that is no multiple of ten carries the checkpoint of the block before. */
  lemma {:induction false} NoNewCheckpoint(p: Params, checksum: Checksum, n: Node, blocks: Blocks, t: Node, h: nat)
    requires Reaches(p, checksum, n, blocks, t) && 0 < |n.blocks| <= h < |t.blocks| && h % 10 != 0
    ensures t.blocks[h].nAccumulatorCheckpoint == t.blocks[h - 1].nAccumulatorCheckpoint
    decreases |blocks|
  {
    hide NoCollision, Stored, Calculated;
    if blocks != [] {
      var m := Connected(p, checksum, n, blocks[0]).value;
      RunExtends(p, checksum, m, blocks[1..], t);
      if h > |n.blocks| {
        NoNewCheckpoint(p, checksum, m, blocks[1..], t, h);
      } else {
        assert t.blocks[h] == m.blocks[h] && t.blocks[h - 1] == m.blocks[h - 1];
      }
    }
  }

  /** Along every steady run, two heights with no multiple of ten between them have the same checkpoint. */
  lemma {:induction false} ConstantBetween(p: Params, checksum: Checksum, n: Node, blocks: Blocks, t: Node, g: nat, h: nat)
    requires Reaches(p, checksum, n, blocks, t) && n.blocks != [] && |n.blocks| - 1 <= g <= h < |t.blocks| && Tens(g) == Tens(h)
    ensures t.blocks[g].nAccumulatorCheckpoint == t.blocks[h].nAccumulatorCheckpoint
    decreases h
  {
    hide Reaches;
    if g < h {
      NoNewCheckpoint(p, checksum, n, blocks, t, h);
      ConstantBetween(p, checksum, n, blocks, t, g, h - 1);
    }
  }
}
