/** Block index entries in a tree, and the chain that is kept as a vector of one path through it. */
module Chain {
  import opened Basics
  import opened Options

  /** The entry of a block. All fields are set before the entry is used. */
  class BlockIndex {
    const hash: nat
    const pprev: BlockIndex?
    const nHeight: nat
    /** some further predecessor, to walk back faster */
    const pskip: BlockIndex?
    const nTime: nat
    const fProofOfStake: bool
    const fGeneratedStakeModifier: bool
    const nStakeModifier: nat

    /** An entry as AddToBlockIndex makes it: one higher than its predecessor, with the skip pointer of BuildSkip. */
    constructor (hash: nat, pprev: BlockIndex?, nTime: nat, fProofOfStake: bool, fGenerated: bool, nStakeModifier: nat)
      requires pprev != null ==> Linked(pprev) && Skips(pprev)
      ensures Linked(this) && Skips(this)
      ensures this.hash == hash && this.pprev == pprev && this.nHeight == (if pprev == null then 0 else pprev.nHeight + 1)
      ensures this.nTime == nTime && this.fProofOfStake == fProofOfStake
      ensures this.fGeneratedStakeModifier == fGenerated && this.nStakeModifier == nStakeModifier
    {
      this.hash, this.pprev, this.nTime, this.fProofOfStake := hash, pprev, nTime, fProofOfStake;
      this.fGeneratedStakeModifier, this.nStakeModifier := fGenerated, nStakeModifier;
      this.nHeight := if pprev == null then 0 else pprev.nHeight + 1;
      // BuildSkip
      var skip: BlockIndex? := null;
      if pprev != null {
        SkipsBack(pprev.nHeight + 1);
        skip := GetAncestor(pprev, GetSkipHeight(pprev.nHeight + 1));
      }
      this.pskip := skip;
    }
  }

  /** A block and all its predecessors down to height 0. */
  ghost predicate Linked(b: BlockIndex)
    decreases b.nHeight
  {
    if b.nHeight == 0 then b.pprev == null
    else b.pprev != null && b.pprev.nHeight == b.nHeight - 1 && Linked(b.pprev)
  }

  /** The predecessor at a height. */
  ghost function Ancestor(b: BlockIndex, h: nat): (r: BlockIndex)
    requires Linked(b) && h <= b.nHeight
    ensures r.nHeight == h && Linked(r)
    decreases b.nHeight
  {
    if h == b.nHeight then b else Ancestor(b.pprev, h)
  }

  lemma {:induction false} AncestorOfAncestor(b: BlockIndex, h: nat, k: nat)
    requires Linked(b) && k <= h <= b.nHeight
    ensures Ancestor(Ancestor(b, h), k) == Ancestor(b, k)
    decreases b.nHeight
  {
    if h < b.nHeight { AncestorOfAncestor(b.pprev, h, k); }
  }

  // ---------------------------------------------------------------- skip pointers

  /** n & (n - 1) */
  function InvertLowestOne(n: nat): nat {
    if n == 0 then 0 else if n % 2 == 1 then n - 1 else 2 * InvertLowestOne(n / 2)
  }

  function GetSkipHeight(height: nat): nat {
    if height < 2 then 0
    else if height % 2 == 1 then InvertLowestOne(InvertLowestOne(height - 1)) + 1
    else InvertLowestOne(height)
  }

  lemma {:induction false} InvertsDown(n: nat)
    ensures n > 0 ==> InvertLowestOne(n) < n
  {
    if n > 0 && n % 2 == 0 { InvertsDown(n / 2); }
  }

  /** The lowest one, at bit `k`, is what is taken away. */
  lemma {:induction false} LowestOne(n: nat)
    requires n > 0
    ensures exists k: nat, q: nat :: OneAt(n, k, q) && InvertLowestOne(n) == n - Pow2(k)
  {
    if n % 2 == 1 {
      assert OneAt(n, 0, n / 2);
    } else {
      LowestOne(n / 2);
      var k: nat, q: nat :| OneAt(n / 2, k, q) && InvertLowestOne(n / 2) == n / 2 - Pow2(k);
      assert OneAt(n, k + 1, q);
    }
  }

  /** `n` is `q` ones and zeros, a one and `k` zeros. */
  predicate OneAt(n: nat, k: nat, q: nat) { n == 2 * q * Pow2(k) + Pow2(k) }

  /** A skip leads to a lower height. */
  lemma SkipsBack(height: nat)
    ensures height > 0 ==> GetSkipHeight(height) < height
  {
    InvertsDown(height);
    if height >= 2 && height % 2 == 1 {
      InvertsDown(height - 1);
      InvertsDown(InvertLowestOne(height - 1));
    }
  }

  ghost predicate Skips(b: BlockIndex)
    requires Linked(b)
    decreases b.nHeight
  {
    b.nHeight > 0 ==>
      (SkipsBack(b.nHeight); b.pskip == Ancestor(b, GetSkipHeight(b.nHeight)) && Skips(b.pprev))
  }

  lemma {:induction false} SkipsBelow(b: BlockIndex, h: nat)
    requires Linked(b) && Skips(b) && h <= b.nHeight
    ensures Skips(Ancestor(b, h))
    decreases b.nHeight
  {
    if h < b.nHeight { SkipsBelow(b.pprev, h); }
  }

  /** Whichever way it takes, the walk ends at the predecessor of that height. */
  method GetAncestor(b: BlockIndex, height: int) returns (r: BlockIndex?)
    requires Linked(b) && Skips(b)
    ensures r == if 0 <= height <= b.nHeight then Ancestor(b, height) else null
  {
    if height > b.nHeight || height < 0 { return null; }
    var pindexWalk: BlockIndex := b;
    var heightWalk := b.nHeight;
    while heightWalk > height
      invariant height <= heightWalk <= b.nHeight && pindexWalk == Ancestor(b, heightWalk)
      decreases heightWalk
    {
      SkipsBack(heightWalk);
      SkipsBelow(b, heightWalk);
      var heightSkip := GetSkipHeight(heightWalk);
      var heightSkipPrev := GetSkipHeight(heightWalk - 1);
      if heightSkip == height || (heightSkip > height && !(heightSkipPrev < heightSkip - 2 && heightSkipPrev >= height)) {
        AncestorOfAncestor(b, heightWalk, heightSkip);
        pindexWalk := pindexWalk.pskip;
        heightWalk := heightSkip;
      } else {
        AncestorOfAncestor(b, heightWalk, heightWalk - 1);
        pindexWalk := pindexWalk.pprev;
        heightWalk := heightWalk - 1;
      }
    }
    return pindexWalk;
  }

  // ---------------------------------------------------------------- common predecessors

  /** Two blocks have a common predecessor at a height. */
  ghost predicate Meet(a: BlockIndex, b: BlockIndex, h: nat)
    requires Linked(a) && Linked(b) && h <= a.nHeight && h <= b.nHeight
  {
    Ancestor(a, h) == Ancestor(b, h)
  }

  /** Once two branches have met they stay together. */
  lemma MeetBelow(a: BlockIndex, b: BlockIndex, h: nat, k: nat)
    requires Linked(a) && Linked(b) && k <= h <= a.nHeight && h <= b.nHeight && Meet(a, b, h)
    ensures Meet(a, b, k)
  {
    AncestorOfAncestor(a, h, k);
    AncestorOfAncestor(b, h, k);
  }

  /** The highest common predecessor of two blocks with the same genesis block. */
  method LastCommonAncestor(a: BlockIndex, b: BlockIndex) returns (r: BlockIndex)
    requires Linked(a) && Skips(a) && Linked(b) && Skips(b) && Meet(a, b, 0)
    ensures Linked(r) && r.nHeight <= a.nHeight && r.nHeight <= b.nHeight
    ensures r == Ancestor(a, r.nHeight) == Ancestor(b, r.nHeight)
    ensures forall h: nat :: h <= a.nHeight && h <= b.nHeight ==> (Meet(a, b, h) <==> h <= r.nHeight)
  {
    var pa: BlockIndex?, pb: BlockIndex? := a, b;
    if a.nHeight > b.nHeight {
      pa := GetAncestor(a, b.nHeight);
    } else if b.nHeight > a.nHeight {
      pb := GetAncestor(b, a.nHeight);
    }
    ghost var top := if a.nHeight < b.nHeight then a.nHeight else b.nHeight;
    ghost var h: nat := top;
    while pa != pb && pa != null && pb != null
      invariant h <= top && pa == Ancestor(a, h) && pb == Ancestor(b, h)
      invariant forall k :: h < k <= top ==> !Meet(a, b, k)
      decreases h
    {
      assert h > 0;
      AncestorOfAncestor(a, h, h - 1);
      AncestorOfAncestor(b, h, h - 1);
      pa := pa.pprev;
      pb := pb.pprev;
      h := h - 1;
    }
    assert pa == pb;
    r := pa;
    forall k: nat | k <= h ensures Meet(a, b, k) { MeetBelow(a, b, h, k); }
  }

  // ---------------------------------------------------------------- the chain

  /** A path from a genesis block upwards. */
  ghost predicate Path(s: seq<BlockIndex?>) {
    && (forall i :: 0 <= i < |s| ==> s[i] != null && s[i].nHeight == i && Linked(s[i]) && Skips(s[i]))
    && (forall i :: 0 < i < |s| ==> s[i].pprev == s[i - 1])
  }

  /** Each entry is the predecessor of `tip` at its height, up to `tip` itself. */
  ghost predicate PathTo(s: seq<BlockIndex?>, tip: BlockIndex)
    requires Linked(tip)
  {
    |s| == tip.nHeight + 1 && forall i :: 0 <= i < |s| ==> s[i] == Ancestor(tip, i)
  }

  /** Each entry of a path is the predecessor of those behind it. */
  lemma {:induction false} PathBelow(s: seq<BlockIndex?>, i: nat, j: nat)
    requires Path(s) && i <= j < |s|
    ensures s[i] == Ancestor(s[j], i)
    decreases j
  {
    if i < j { PathBelow(s, i, j - 1); }
  }

  /** Entries from `n` on are those of the new tip, the others those of before. */
  ghost predicate Updated(s: seq<BlockIndex?>, before: seq<BlockIndex?>, tip: BlockIndex, n: nat)
    requires Linked(tip)
  {
    && |s| == tip.nHeight + 1
    && (forall i :: n <= i < |s| ==> s[i] == Ancestor(tip, i))
    && (forall i :: 0 <= i < n && i < |s| ==> s[i] == if i < |before| then before[i] else null)
  }

  lemma UpdatedStart(s: seq<BlockIndex?>, before: seq<BlockIndex?>, tip: BlockIndex)
    requires Linked(tip)
    requires s == if |before| >= tip.nHeight + 1 then before[..tip.nHeight + 1] else before + seq(tip.nHeight + 1 - |before|, _ => null)
    ensures Updated(s, before, tip, tip.nHeight + 1)
  {}

  lemma UpdatedNext(s: seq<BlockIndex?>, before: seq<BlockIndex?>, tip: BlockIndex, n: nat)
    requires Linked(tip) && n <= tip.nHeight && Updated(s, before, tip, n + 1)
    ensures Updated(s[n := Ancestor(tip, n)], before, tip, n)
  {}

  /** An entry that is right already makes all entries below it right. */
  lemma UpdatedEnd(s: seq<BlockIndex?>, before: seq<BlockIndex?>, tip: BlockIndex, n: nat)
    requires Linked(tip) && Skips(tip) && Path(before) && n <= tip.nHeight + 1 && Updated(s, before, tip, n)
    requires n > 0 ==> s[n - 1] == Ancestor(tip, n - 1)
    ensures PathTo(s, tip) && Path(s) && s[|s| - 1] == tip
  {
    forall i | 0 <= i < n ensures s[i] == Ancestor(tip, i) {
      assert s[n - 1] == before[n - 1];
      PathBelow(before, i, n - 1);
      AncestorOfAncestor(tip, n - 1, i);
    }
    forall i | 0 <= i < |s| ensures Skips(Ancestor(tip, i)) { SkipsBelow(tip, i); }
    forall i | 0 < i < |s| ensures Ancestor(tip, i).pprev == Ancestor(tip, i - 1) { AncestorOfAncestor(tip, i, i - 1); }
  }

  class CChain {
    var vChain: seq<BlockIndex?>

    /** The vector is the path from the genesis block to its last entry. */
    ghost predicate Valid()
      reads this
    {
      Path(vChain)
    }

    function Tip(): (r: BlockIndex?)
      reads this
    {
      if |vChain| < 1 then null else vChain[|vChain| - 1]
    }

    function At(nHeight: int): BlockIndex?
      reads this
    {
      if nHeight < 0 || nHeight >= |vChain| then null else vChain[nHeight]
    }

    predicate Contains(b: BlockIndex)
      reads this
    {
      At(b.nHeight) == b
    }

    function Height(): int
      reads this
    {
      |vChain| - 1
    }

    function Next(b: BlockIndex): BlockIndex?
      reads this
    {
      if Contains(b) then At(b.nHeight + 1) else null
    }

    constructor ()
      ensures Valid() && vChain == []
    {
      vChain := [];
    }

    /** Each entry is the predecessor of the tip at its height. */
    lemma PathIs(i: nat, j: nat)
      requires Valid() && i <= j < |vChain|
      ensures vChain[i] == Ancestor(vChain[j], i)
    {
      PathBelow(vChain, i, j);
    }

    /** The chain contains exactly the predecessors of its tip, and with a block all that is below it. */
    lemma ContainsIff(b: BlockIndex)
      requires Valid() && Linked(b)
      ensures Contains(b) <==> |vChain| > 0 && b.nHeight < |vChain| && b == Ancestor(vChain[|vChain| - 1], b.nHeight)
      ensures Contains(b) ==> forall h: nat :: h <= b.nHeight ==> Contains(Ancestor(b, h))
      ensures Contains(b) ==> (Next(b) == null <==> b == Tip()) && (Next(b) != null ==> Next(b).pprev == b)
    {
      if b.nHeight < |vChain| { PathIs(b.nHeight, |vChain| - 1); }
      if Contains(b) {
        forall h: nat | h <= b.nHeight ensures Contains(Ancestor(b, h)) { PathIs(h, b.nHeight); }
      }
    }

    /** Despite its early exit, every entry ends up as the predecessor of the new tip. */
    method SetTip(tip: BlockIndex?)
      requires Valid() && (tip != null ==> Linked(tip) && Skips(tip))
      modifies this
      ensures Valid() && Tip() == tip
      ensures tip == null ==> vChain == []
      ensures tip != null ==> PathTo(vChain, tip)
    {
      if tip == null {
        vChain := [];
        return;
      }
      hide Path, Updated, PathTo;
      ghost var before := vChain;
      var size := tip.nHeight + 1;
      vChain := if |vChain| >= size then vChain[..size] else vChain + seq(size - |vChain|, _ => null);
      UpdatedStart(vChain, before, tip);
      var pindex: BlockIndex? := tip;
      while pindex != null && vChain[pindex.nHeight] != pindex
        invariant |vChain| == size
        invariant pindex != null ==> pindex.nHeight <= tip.nHeight && pindex == Ancestor(tip, pindex.nHeight)
        invariant Updated(vChain, before, tip, if pindex == null then 0 else pindex.nHeight + 1)
        decreases if pindex == null then 0 else pindex.nHeight + 1
      {
        UpdatedNext(vChain, before, tip, pindex.nHeight);
        if pindex.nHeight > 0 { AncestorOfAncestor(tip, pindex.nHeight, pindex.nHeight - 1); }
        vChain := vChain[pindex.nHeight := pindex];
        pindex := pindex.pprev;
      }
      UpdatedEnd(vChain, before, tip, if pindex == null then 0 else pindex.nHeight + 1);
    }

    /** The highest block of the chain among the predecessors of a block; none if there is no common one. */
    method FindFork(b: BlockIndex) returns (r: BlockIndex?)
      requires Valid() && Linked(b) && Skips(b)
      ensures r != null ==> Linked(r) && r.nHeight <= b.nHeight && r == Ancestor(b, r.nHeight) && Contains(r)
      ensures forall h: nat :: h <= b.nHeight ==> (Contains(Ancestor(b, h)) <==> r != null && h <= r.nHeight)
    {
      var pindex: BlockIndex? := b;
      if b.nHeight > Height() {
        pindex := GetAncestor(b, Height());
      }
      while pindex != null && !Contains(pindex)
        invariant pindex != null ==> pindex.nHeight <= b.nHeight && pindex == Ancestor(b, pindex.nHeight)
        invariant forall h: nat :: (if pindex == null then 0 else pindex.nHeight + 1) <= h <= b.nHeight ==> !Contains(Ancestor(b, h))
        decreases if pindex == null then 0 else pindex.nHeight + 1
      {
        if pindex.nHeight > 0 { AncestorOfAncestor(b, pindex.nHeight, pindex.nHeight - 1); }
        pindex := pindex.pprev;
      }
      r := pindex;
      if r != null {
        ContainsIff(r);
        forall h: nat | h <= r.nHeight ensures Contains(Ancestor(b, h)) { AncestorOfAncestor(b, r.nHeight, h); }
      }
    }

    lemma TipLinked()
      requires Valid() && |vChain| > 0
      ensures Tip() != null && Linked(Tip()) && Skips(Tip())
    {}

    /** The predecessor at a height, through the chain or through the skip list. */
    method WalkBack(b: BlockIndex, nHeight: nat) returns (r: BlockIndex)
      requires Valid() && Linked(b) && Skips(b) && nHeight <= b.nHeight
      ensures r == Ancestor(b, nHeight)
    {
      if Contains(b) {
        PathIs(nHeight, b.nHeight);
        r := At(nHeight);
      } else {
        r := GetAncestor(b, nHeight);
      }
    }

    /** The loop of GetLocator. */
    method Locate(from: BlockIndex) returns (blocks: seq<BlockIndex>)
      requires Valid() && Linked(from) && Skips(from)
      ensures Located(blocks, from) && blocks != [] && blocks[|blocks| - 1].nHeight == 0
      ensures |blocks| > 12 ==> Pow2(|blocks| - 12) < from.nHeight
    {
      hide Located, Path, Progress, Pow2, Ancestor, Linked, Skips;
      blocks := [];
      var nStep: int := 1;
      var pindex: BlockIndex := from;
      ghost var height := from.nHeight;
      LocatedNone(from);
      while true
        invariant pindex.nHeight <= height && pindex == Ancestor(from, pindex.nHeight)
        invariant |blocks| == 0 ==> pindex == from
        invariant |blocks| > 0 ==> pindex.nHeight < blocks[|blocks| - 1].nHeight
        invariant Located(blocks, from) && Progress(|blocks|, height, pindex.nHeight, nStep)
        decreases pindex.nHeight
      {
        ProgressHeight(|blocks|, height, pindex.nHeight, nStep);
        LocatedNext(blocks, from, pindex);
        ProgressShort(|blocks|, height, pindex.nHeight, nStep);
        blocks := blocks + [pindex];
        if pindex.nHeight == 0 { return; }
        ProgressNext(|blocks| - 1, height, pindex.nHeight, nStep);
        var nHeight := if pindex.nHeight - nStep > 0 then pindex.nHeight - nStep else 0;
        AncestorOfAncestor(from, pindex.nHeight, nHeight);
        SkipsBelow(from, pindex.nHeight);
        pindex := WalkBack(pindex, nHeight);
        if |blocks| > 10 { nStep := nStep * 2; }
      }
    }

    /** Blocks at strictly decreasing heights from the given block, or the tip, down to the genesis block:
        twelve at most, or as many more as the height has doublings. `blocks` stands for their hashes. */
    method GetLocator(start: BlockIndex?) returns (blocks: seq<BlockIndex>)
      requires Valid() && (start != null ==> Linked(start) && Skips(start))
      ensures start == null && Tip() == null ==> blocks == []
      ensures start != null || Tip() != null ==>
                var from := if start != null then start else Tip();
                && Linked(from) && Located(blocks, from) && blocks != [] && blocks[|blocks| - 1].nHeight == 0
                && (|blocks| > 12 ==> Pow2(|blocks| - 12) < from.nHeight)
    {
      hide Located, Path, Pow2, Linked, Skips;
      var pindex := start;
      if pindex == null {
        pindex := Tip();
        if pindex == null { return []; }
        TipLinked();
      }
      blocks := Locate(pindex);
    }
  }

  /** The height of entry `i` of a locator: ten steps of one, then steps that double, down to 0. */
  function LocatedHeight(height: nat, i: nat): nat {
    Max0(if i <= 10 then height - i else height - 9 - Pow2(i - 10))
  }

  /** What a locator lists: predecessors at strictly decreasing heights. */
  ghost predicate Located(blocks: seq<BlockIndex>, from: BlockIndex)
    requires Linked(from)
  {
    && (blocks != [] ==> blocks[0] == from)
    && (forall i :: 0 <= i < |blocks| ==> blocks[i].nHeight <= from.nHeight && blocks[i] == Ancestor(from, blocks[i].nHeight))
    && (forall i, j :: 0 <= i < j < |blocks| ==> blocks[j].nHeight < blocks[i].nHeight)
    && (forall i: nat :: i < |blocks| ==> blocks[i].nHeight == LocatedHeight(from.nHeight, i))
  }

  /** However far back the last common block is, `back` steps say, the locator has an entry on the common
      branch that is at most twice as far back. */
  lemma LocatorReaches(blocks: seq<BlockIndex>, from: BlockIndex, back: nat)
    requires Linked(from) && Located(blocks, from) && blocks != [] && blocks[|blocks| - 1].nHeight == 0 && back <= from.nHeight
    ensures exists i :: 0 <= i < |blocks| && back <= from.nHeight - blocks[i].nHeight <= 2 * back
  {
    hide Linked, Ancestor, LocatedHeight;
    ReachesFrom(blocks, from, back, |blocks| - 1);
  }

  lemma {:induction false} ReachesFrom(blocks: seq<BlockIndex>, from: BlockIndex, back: nat, i: nat)
    requires Linked(from) && Located(blocks, from) && i < |blocks| && back <= from.nHeight - blocks[i].nHeight
    ensures exists k :: 0 <= k < |blocks| && back <= from.nHeight - blocks[k].nHeight <= 2 * back
  {
    hide Linked, Ancestor, LocatedHeight;
    if i > 0 {
      HeightDoubles(from.nHeight, i - 1);
      assert blocks[i - 1].nHeight == LocatedHeight(from.nHeight, i - 1) && blocks[i].nHeight == LocatedHeight(from.nHeight, i);
      if back <= from.nHeight - blocks[i - 1].nHeight { ReachesFrom(blocks, from, back, i - 1); }
    }
  }

  lemma HeightDoubles(height: nat, i: nat)
    ensures height - LocatedHeight(height, i + 1) <= 2 * (height - LocatedHeight(height, i) + 1)
  {
    if i == 10 { assert Pow2(1) == 2; }
  }

  lemma LocatedNone(from: BlockIndex)
    requires Linked(from)
    ensures Located([], from) && Progress(0, from.nHeight, from.nHeight, 1) && Ancestor(from, from.nHeight) == from
  {}

  lemma LocatedNext(blocks: seq<BlockIndex>, from: BlockIndex, b: BlockIndex)
    requires Linked(from) && Located(blocks, from) && b.nHeight <= from.nHeight && b == Ancestor(from, b.nHeight)
    requires blocks == [] ==> b == from
    requires blocks != [] ==> b.nHeight < blocks[|blocks| - 1].nHeight
    requires b.nHeight == LocatedHeight(from.nHeight, |blocks|)
    ensures Located(blocks + [b], from)
  {
    hide LocatedHeight, Linked, Ancestor;
    var t := blocks + [b];
    forall i: nat | i < |t| ensures t[i].nHeight == LocatedHeight(from.nHeight, i) && t[i] == Ancestor(from, t[i].nHeight) {
      if i < |blocks| { assert t[i] == blocks[i]; }
    }
  }

  /** After `n` entries: single steps for the first ones, then steps that double. */
  ghost predicate Progress(n: nat, height: nat, h: nat, nStep: int) {
    if n <= 10 then h == height - n && nStep == 1
    else nStep == Pow2(n - 10) && h == (if height - 9 - Pow2(n - 10) > 0 then height - 9 - Pow2(n - 10) else 0)
         && (n > 11 ==> Pow2(n - 11) < height) && height > 10
  }

  lemma ProgressHeight(n: nat, height: nat, h: nat, nStep: int)
    requires Progress(n, height, h, nStep)
    ensures h == LocatedHeight(height, n)
  {}

  lemma ProgressNext(n: nat, height: nat, h: nat, nStep: int)
    requires Progress(n, height, h, nStep) && h > 0
    ensures nStep > 0
    ensures var h' := if h - nStep > 0 then h - nStep else 0;
            Progress(n + 1, height, h', if n + 1 > 10 then nStep * 2 else nStep)
  {
    if n == 10 { assert Pow2(1) == 2; }
  }

  lemma ProgressShort(n: nat, height: nat, h: nat, nStep: int)
    requires Progress(n, height, h, nStep)
    ensures n + 1 > 12 ==> Pow2(n + 1 - 12) < height
    ensures n == 0 || nStep >= 1
  {}
}
