/** The stake modifier: 64 bits, each from a block selected among the recent ones. */
module Kernel {
  import opened Basics
  import opened Chain
  import opened Options
  import L = Limbs
  import P = Products

  const MODIFIER_INTERVAL: nat := 60
  const MODIFIER_INTERVAL_RATIO: nat := 3
  const ROUNDS: nat := 64

  /** A candidate: the time and the hash of a block. */
  datatype Candidate = Candidate(time: nat, hash: nat)

  // ---------------------------------------------------------------- selection intervals

  /** The length of a section, in seconds. */
  function Section(n: nat): nat
    requires n < ROUNDS
  {
    MODIFIER_INTERVAL * 63 / (63 + (63 - n) * (MODIFIER_INTERVAL_RATIO - 1))
  }

  /** The first `n` sections together. */
  function Sections(n: nat): nat
    requires n <= ROUNDS
  {
    if n == 0 then 0 else Sections(n - 1) + Section(n - 1)
  }

  method GetStakeModifierSelectionInterval() returns (nSelectionInterval: nat)
    ensures nSelectionInterval == Sections(ROUNDS)
  {
    nSelectionInterval := 0;
    for nSection := 0 to ROUNDS
      invariant nSelectionInterval == Sections(nSection)
    {
      nSelectionInterval := nSelectionInterval + Section(nSection);
    }
  }

  /** The last section is as long as the modifier interval, three times the first one; none is empty. */
  lemma SectionBounds(n: nat)
    requires n < ROUNDS
    ensures 20 <= Section(n) <= MODIFIER_INTERVAL && Section(0) == 20 && Section(63) == MODIFIER_INTERVAL
    ensures n + 1 < ROUNDS ==> Section(n) <= Section(n + 1)
    ensures Section(n) * (189 - 2 * n) <= 3780 < (Section(n) + 1) * (189 - 2 * n)
  {
    var d := 63 + (63 - n) * 2;
    QuotientExact(d);
    QuotientBounds(d);
    if n + 1 < ROUNDS { QuotientOrder(d - 2, d); }
  }

  lemma QuotientBounds(d: nat)
    requires 63 <= d <= 189
    ensures 20 <= 3780 / d <= 60
  {}

  lemma QuotientExact(d: nat)
    requires d > 0
    ensures 3780 / d * d <= 3780 < (3780 / d + 1) * d
  {
    var q := 3780 / d;
    assert 3780 == q * d + 3780 % d;
    assert (q + 1) * d == q * d + d;
  }

  lemma QuotientOrder(a: nat, b: nat)
    requires 0 < a <= b
    ensures 3780 / b <= 3780 / a
  {
    var q, r := 3780 / b, 3780 % b;
    assert 3780 == b * q + r;
    assert a * q <= b * q;
    P.DivMod(3780, a);
    P.TimesCancel(a, q, 3780 / a + 1);
    P.TimesAdd(a, 3780 / a, 1);
  }

  /** The beginning of the interval that candidates are taken from; it may lie before time 0. */
  function IntervalStart(tipTime: nat): int { tipTime / MODIFIER_INTERVAL * MODIFIER_INTERVAL - Sections(ROUNDS) }

  /** The time up to which blocks are preferred in a round. */
  function Stop(start: int, round: nat): int
    requires round < ROUNDS
  {
    start + Sections(round + 1)
  }

  /** The sections fill the interval: the last round ends at the tip's time, aligned to the interval. */
  lemma LastStop(tipTime: nat)
    ensures Stop(IntervalStart(tipTime), ROUNDS - 1) == tipTime - tipTime % MODIFIER_INTERVAL
  {
    hide Sections;
  }

  // ---------------------------------------------------------------- selecting one block

  /** The selection hash of a block, smaller for proof of stake; `hash` is the hash of the block hash and the
      previous modifier. */
  function SelectionHash(hash: (nat, nat) -> nat, b: BlockIndex, prev: nat): nat {
    if b.fProofOfStake then hash(b.hash, prev) / 0x1_0000_0000 else hash(b.hash, prev)
  }

  ghost predicate ByTime(v: seq<Candidate>) { forall i, j :: 0 <= i <= j < |v| ==> v[i].time <= v[j].time }

  predicate Indexed(v: seq<Candidate>, index: map<nat, BlockIndex>) {
    forall i :: 0 <= i < |v| ==> v[i].hash in index && index[v[i].hash].hash == v[i].hash && index[v[i].hash].nTime == v[i].time
  }

  /** The parameters of a selection. */
  datatype Round = Round(v: seq<Candidate>, index: map<nat, BlockIndex>, selected: set<nat>, stop: int, prev: nat, hash: (nat, nat) -> nat)

  predicate Open(r: Round, i: nat) { i < |r.v| && r.v[i].hash !in r.selected }

  function HashAt(r: Round, i: nat): nat
    requires i < |r.v| && Indexed(r.v, r.index)
  {
    SelectionHash(r.hash, r.index[r.v[i].hash], r.prev)
  }

  /** Candidate `i` is the choice among the first `n`: the first open one if that lies behind the stop, else
      the first with the least hash among the open ones up to the stop. */
  ghost predicate Choice(r: Round, n: nat, i: nat)
    requires Indexed(r.v, r.index)
  {
    && i < n <= |r.v| && Open(r, i)
    && (r.v[i].time > r.stop ==> forall j :: 0 <= j < i ==> !Open(r, j))
    && (r.v[i].time <= r.stop ==> forall j :: 0 <= j < n && Open(r, j) && r.v[j].time <= r.stop ==>
          HashAt(r, i) <= HashAt(r, j) && (j < i ==> HashAt(r, i) < HashAt(r, j)))
  }

  function BlockAt(r: Round, i: nat): BlockIndex
    requires i < |r.v| && Indexed(r.v, r.index)
  {
    r.index[r.v[i].hash]
  }

  /** The hash itself, before stake is favoured. */
  function PlainHash(r: Round, i: nat): nat
    requires i < |r.v| && Indexed(r.v, r.index)
  {
    r.hash(BlockAt(r, i).hash, r.prev)
  }

  /** How candidate `i` compares with an open one `j` up to the stop, in terms of the plain hashes. Work never
      wins over stake unless its hash is below 2^224, if hashes have 256 bits. Among candidates of one kind
      the hash decides, for stake but for its low 32 bits. Stake wins over work with a hash at most 2^32
      times as large. */
  ghost predicate Prefers(r: Round, i: nat, j: nat)
    requires i < |r.v| && j < |r.v| && Indexed(r.v, r.index)
  {
    && r.v[i].time <= r.stop
    && (BlockAt(r, j).fProofOfStake && PlainHash(r, j) < Pow2(256) ==> BlockAt(r, i).fProofOfStake || PlainHash(r, i) < Pow2(224))
    && (BlockAt(r, i).fProofOfStake && BlockAt(r, j).fProofOfStake ==> PlainHash(r, i) / L.BASE <= PlainHash(r, j) / L.BASE)
    && (BlockAt(r, i).fProofOfStake && !BlockAt(r, j).fProofOfStake ==> PlainHash(r, i) / L.BASE <= PlainHash(r, j))
    && (!BlockAt(r, i).fProofOfStake && BlockAt(r, j).fProofOfStake ==> PlainHash(r, i) <= PlainHash(r, j) / L.BASE)
    && (!BlockAt(r, i).fProofOfStake && !BlockAt(r, j).fProofOfStake ==> PlainHash(r, i) <= PlainHash(r, j))
  }

  /** The choice of a round is preferred to every open candidate up to the stop. */
  lemma StakeFavoured(r: Round, i: nat, j: nat)
    requires ByTime(r.v) && Indexed(r.v, r.index) && Choice(r, |r.v|, i) && Open(r, j) && r.v[j].time <= r.stop
    ensures Prefers(r, i, j)
  {
    hide Pow2;
    if i <= j { assert r.v[i].time <= r.v[j].time; }
    L.Pow2Limb(7);
    assert HashAt(r, i) <= HashAt(r, j);
    if BlockAt(r, j).fProofOfStake && PlainHash(r, j) < Pow2(256) { ShiftedBelow(PlainHash(r, j), Pow2(224)); }
  }

  lemma ShiftedBelow(n: nat, b: nat)
    requires n < L.BASE * b
    ensures n / L.BASE < b
  {}

  /** Fails only if a candidate is not in the index, or none is left. */
  method SelectBlockFromCandidates(r: Round) returns (fSelected: bool, pindexSelected: BlockIndex?, ghost at: nat)
    requires ByTime(r.v)
    ensures Indexed(r.v, r.index) ==> (fSelected <==> exists i :: Open(r, i))
    ensures Indexed(r.v, r.index) && fSelected ==> Choice(r, |r.v|, at) && pindexSelected == r.index[r.v[at].hash]
    ensures Indexed(r.v, r.index) && fSelected ==> forall j: nat :: Open(r, j) && r.v[j].time <= r.stop ==> Prefers(r, at, j)
  {
    hide SelectionHash, Prefers;
    fSelected, pindexSelected, at := false, null, 0;
    var hashBest := 0;
    ghost var good := Indexed(r.v, r.index);
    for i := 0 to |r.v|
      invariant good && !fSelected ==> forall j :: 0 <= j < i ==> !Open(r, j)
      invariant good && fSelected ==> Choice(r, i, at) && pindexSelected == r.index[r.v[at].hash] && hashBest == HashAt(r, at)
      invariant good && fSelected && r.v[at].time > r.stop ==> at == i - 1
    {
      if r.v[i].hash !in r.index { return false, null, at; }
      var pindex := r.index[r.v[i].hash];
      if fSelected && pindex.nTime > r.stop {
        assert good ==> forall j :: i <= j < |r.v| ==> r.v[j].time > r.stop;
        break;
      }
      if pindex.hash in r.selected { continue; }
      var hashSelection := SelectionHash(r.hash, pindex, r.prev);
      if fSelected && hashSelection < hashBest {
        hashBest, pindexSelected, at := hashSelection, pindex, i;
      } else if !fSelected {
        fSelected, hashBest, pindexSelected, at := true, hashSelection, pindex, i;
      }
    }
    if good && fSelected {
      forall j: nat | Open(r, j) && r.v[j].time <= r.stop { StakeFavoured(r, at, j); }
    }
  }

  // ---------------------------------------------------------------- all rounds

  /** The candidates that the rounds have chosen so far, as positions. */
  function Selected(v: seq<Candidate>, at: seq<nat>): set<nat>
    requires forall n :: 0 <= n < |at| ==> at[n] < |v|
  {
    set n | 0 <= n < |at| :: v[at[n]].hash
  }

  function RoundAt(v: seq<Candidate>, index: map<nat, BlockIndex>, at: seq<nat>, start: int, prev: nat, hash: (nat, nat) -> nat): Round
    requires |at| < ROUNDS && forall n :: 0 <= n < |at| ==> at[n] < |v|
  {
    Round(v, index, Selected(v, at), Stop(start, |at|), prev, hash)
  }

  /** Every round has made its choice among what the rounds before it left. */
  ghost predicate Rounds(v: seq<Candidate>, index: map<nat, BlockIndex>, at: seq<nat>, start: int, prev: nat, hash: (nat, nat) -> nat)
    requires Indexed(v, index)
  {
    && |at| <= ROUNDS && (forall n :: 0 <= n < |at| ==> at[n] < |v|)
    && forall n :: 0 <= n < |at| ==> Choice(RoundAt(v, index, at[..n], start, prev, hash), |v|, at[n])
  }

  /** No block is chosen twice. */
  lemma ChosenDistinct(v: seq<Candidate>, index: map<nat, BlockIndex>, at: seq<nat>, start: int, prev: nat, hash: (nat, nat) -> nat, m: nat, n: nat)
    requires Indexed(v, index) && Rounds(v, index, at, start, prev, hash) && m < n < |at|
    ensures v[at[m]].hash != v[at[n]].hash
  {
    assert Choice(RoundAt(v, index, at[..n], start, prev, hash), |v|, at[n]);
    assert at[..n][m] == at[m];
  }

  ghost predicate Distinct(v: seq<Candidate>) { forall i, j :: 0 <= i < j < |v| ==> v[i].hash != v[j].hash }

  lemma {:induction false} DistinctCount(v: seq<Candidate>, s: set<nat>)
    requires Distinct(v) && forall i :: 0 <= i < |v| ==> v[i].hash in s
    ensures |v| <= |s|
  {
    if v != [] {
      var n := |v| - 1;
      DistinctCount(v[..n], s - {v[n].hash});
    }
  }

  lemma {:induction false} SelectedCount(v: seq<Candidate>, at: seq<nat>)
    requires forall n :: 0 <= n < |at| ==> at[n] < |v|
    ensures |Selected(v, at)| <= |at|
  {
    if at != [] {
      var n := |at| - 1;
      SelectedCount(v, at[..n]);
      forall h ensures h in Selected(v, at) <==> h in Selected(v, at[..n]) + {v[at[n]].hash} {
        if h in Selected(v, at[..n]) { var k :| 0 <= k < n && v[at[..n][k]].hash == h; assert v[at[k]].hash == h; }
      }
      assert Selected(v, at) == Selected(v, at[..n]) + {v[at[n]].hash};
    }
  }

  /** While fewer candidates are chosen than there are, one is open. */
  lemma SomeOpen(v: seq<Candidate>, at: seq<nat>, r: Round)
    requires Distinct(v) && |at| < |v| && (forall n :: 0 <= n < |at| ==> at[n] < |v|)
    requires r.v == v && r.selected == Selected(v, at)
    ensures exists i :: Open(r, i)
  {
    SelectedCount(v, at);
    if forall i :: 0 <= i < |v| ==> !Open(r, i) {
      forall i | 0 <= i < |v| ensures v[i].hash in r.selected { assert !Open(r, i); }
      DistinctCount(v, r.selected);
    }
  }

  // ---------------------------------------------------------------- the bits of the modifier

  function EntropyBit(b: BlockIndex): (r: nat)
    ensures r <= 1
  {
    b.hash % 2
  }

  /** Bit n is the entropy bit of the n-th block. */
  function ModifierOf(bits: seq<nat>): nat {
    if bits == [] then 0
    else
      P.TimesPositive(Pow2(|bits| - 1), bits[|bits| - 1]);
      ModifierOf(bits[..|bits| - 1]) + P.Times(Pow2(|bits| - 1), bits[|bits| - 1])
  }

  ghost predicate Bits(bits: seq<nat>) { forall n :: 0 <= n < |bits| ==> bits[n] <= 1 }

  lemma {:induction false} ModifierBound(bits: seq<nat>)
    requires Bits(bits)
    ensures ModifierOf(bits) < Pow2(|bits|)
  {
    hide P.Times;
    if bits != [] {
      var n := |bits| - 1;
      ModifierBound(bits[..n]);
      P.TimesOrder(Pow2(n), bits[n], 1);
      P.TimesUnit(Pow2(n));
    }
  }

  lemma {:induction false} ModifierBit(bits: seq<nat>, n: nat)
    requires Bits(bits) && n < |bits|
    ensures P.Div(ModifierOf(bits), Pow2(n)) % 2 == bits[n]
  {
    hide P.Times, P.Div, Pow2;
    var k := |bits| - 1;
    ModifierBound(bits[..k]);
    var m, p := ModifierOf(bits[..k]), Pow2(n);
    if n == k {
      P.DivUnique(ModifierOf(bits), p, bits[k], m);
    } else {
      ModifierBit(bits[..k], n);
      assert bits[..k][n] == bits[n];
      // the bit added is an even multiple of 2^n
      L.Pow2Add(n, k - n);
      var e := Pow2(k - n);
      P.TimesAssoc(p, e, bits[k]);
      P.DivMod(m, p);
      P.TimesAdd(p, P.Div(m, p), P.Times(e, bits[k]));
      P.DivUnique(ModifierOf(bits), p, P.Div(m, p) + P.Times(e, bits[k]), P.Mod(m, p));
      EvenPower(k - n, bits[k]);
    }
  }

  /** Bit `n` of a modifier is the lowest bit of the hash of the `n`-th choice, and it has no more bits than
      there are choices. */
  lemma ModifierBits(v: seq<Candidate>, index: map<nat, BlockIndex>, at: seq<nat>)
    requires Indexed(v, index) && forall n :: 0 <= n < |at| ==> at[n] < |v|
    ensures var m := ModifierOf(BitsOf(v, index, at));
            m < Pow2(|at|) && forall n: nat :: n < |at| ==> P.Div(m, Pow2(n)) % 2 == v[at[n]].hash % 2
  {
    hide ModifierOf, Pow2, P.Div;
    var bits := BitsOf(v, index, at);
    ModifierBound(bits);
    forall n: nat | n < |at| ensures P.Div(ModifierOf(bits), Pow2(n)) % 2 == v[at[n]].hash % 2 { ModifierBit(bits, n); }
  }

  lemma EvenPower(e: nat, b: nat)
    requires e > 0
    ensures P.Times(Pow2(e), b) % 2 == 0
  {
    var h := Pow2(e - 1);
    assert 2 * h * b == 2 * (h * b);
  }

  /** Or-ing in the next bit adds it. */
  lemma NextBit(bits: seq<nat>, bit: nat)
    requires Bits(bits) && bit <= 1
    ensures P.Times(Pow2(|bits|), bit) >= 0
    ensures L.Or(ModifierOf(bits), P.Times(Pow2(|bits|), bit)) == ModifierOf(bits + [bit])
  {
    hide P.Times, L.Or, Pow2, L.Aligned;
    var n := |bits|;
    ModifierBound(bits);
    L.AlignedMultiple(n, bit);
    L.OrDisjoint(P.Times(Pow2(n), bit), ModifierOf(bits), n);
    assert (bits + [bit])[..n] == bits;
  }

  function BitsOf(v: seq<Candidate>, index: map<nat, BlockIndex>, at: seq<nat>): seq<nat>
    requires Indexed(v, index) && forall n :: 0 <= n < |at| ==> at[n] < |v|
  {
    seq(|at|, n requires 0 <= n < |at| => EntropyBit(index[v[at[n]].hash]))
  }

  /** The rounds: with as many candidates as there are, up to 64, a selection never fails. */
  method SelectAll(v: seq<Candidate>, index: map<nat, BlockIndex>, start: int, prev: nat, hash: (nat, nat) -> nat)
    returns (ok: bool, nStakeModifierNew: nat, ghost at: seq<nat>)
    requires ByTime(v) && Distinct(v) && Indexed(v, index)
    ensures ok && Rounds(v, index, at, start, prev, hash) && |at| == (if |v| < ROUNDS then |v| else ROUNDS)
    ensures nStakeModifierNew == ModifierOf(BitsOf(v, index, at))
  {
    hide ModifierOf, L.Or, Choice, Sections;
    ok, nStakeModifierNew, at := false, 0, [];
    assert ModifierOf(BitsOf(v, index, [])) == 0 by { NoBits(BitsOf(v, index, [])); }
    var nSelectionIntervalStop := start;
    assert Sections(0) == 0 by { NoSections(); }
    var mapSelectedBlocks: set<nat> := {};
    for nRound := 0 to if |v| < ROUNDS then |v| else ROUNDS
      invariant |at| == nRound && Rounds(v, index, at, start, prev, hash)
      invariant nSelectionIntervalStop == start + Sections(nRound) && mapSelectedBlocks == Selected(v, at)
      invariant nStakeModifierNew == ModifierOf(BitsOf(v, index, at))
    {
      SectionsNext(nRound);
      nSelectionIntervalStop := nSelectionIntervalStop + Section(nRound);
      var r := Round(v, index, mapSelectedBlocks, nSelectionIntervalStop, prev, hash);
      assert r == RoundAt(v, index, at, start, prev, hash);
      SomeOpen(v, at, r);
      var fSelected, pindex, i := SelectBlockFromCandidates(r);
      if !fSelected { return; }
      ChoiceOpen(r, |v|, i);
      var bit := EntropyBit(pindex);
      ghost var bits := BitsOf(v, index, at);
      NextBit(bits, bit);
      L.AlignedMultiple(nRound, bit);
      nStakeModifierNew := L.Or(nStakeModifierNew, P.Times(Pow2(nRound), bit));
      assert BitsOf(v, index, at + [i]) == bits + [bit];
      mapSelectedBlocks := mapSelectedBlocks + {pindex.hash};
      SelectedNext(v, at, i);
      RoundsNext(v, index, at, start, prev, hash, i);
      at := at + [i];
    }
    return true, nStakeModifierNew, at;
  }

  lemma NoBits(bits: seq<nat>)
    requires bits == []
    ensures ModifierOf(bits) == 0
  {}

  lemma NoSections()
    ensures Sections(0) == 0
  {}

  lemma SectionsNext(n: nat)
    requires n < ROUNDS
    ensures Sections(n + 1) == Sections(n) + Section(n)
  {}

  lemma ChoiceOpen(r: Round, n: nat, i: nat)
    requires Indexed(r.v, r.index) && Choice(r, n, i)
    ensures i < n <= |r.v| && Open(r, i)
  {}

  lemma SelectedNext(v: seq<Candidate>, at: seq<nat>, i: nat)
    requires i < |v| && forall n :: 0 <= n < |at| ==> at[n] < |v|
    ensures Selected(v, at + [i]) == Selected(v, at) + {v[i].hash}
  {
    forall h ensures h in Selected(v, at + [i]) <==> h in Selected(v, at) + {v[i].hash} {
      if h in Selected(v, at) { var k :| 0 <= k < |at| && v[at[k]].hash == h; assert (at + [i])[k] == at[k]; }
      if h == v[i].hash { assert (at + [i])[|at|] == i; }
    }
  }

  lemma RoundsNext(v: seq<Candidate>, index: map<nat, BlockIndex>, at: seq<nat>, start: int, prev: nat, hash: (nat, nat) -> nat, i: nat)
    requires Indexed(v, index) && Rounds(v, index, at, start, prev, hash) && |at| < ROUNDS && i < |v|
    requires Choice(RoundAt(v, index, at, start, prev, hash), |v|, i)
    ensures Rounds(v, index, at + [i], start, prev, hash)
  {
    hide Choice;
    var next := at + [i];
    forall n | 0 <= n < |next| ensures Choice(RoundAt(v, index, next[..n], start, prev, hash), |v|, next[n]) {
      assert next[..n] == at[..n];
      if n == |at| { assert at[..n] == at; }
    }
  }

  // ---------------------------------------------------------------- the candidates

  predicate Before(a: Candidate, b: Candidate) { a.time < b.time || (a.time == b.time && a.hash <= b.hash) }

  ghost predicate InOrder(v: seq<Candidate>) { forall i, j :: 0 <= i <= j < |v| ==> Before(v[i], v[j]) }

  function Insert(c: Candidate, v: seq<Candidate>): seq<Candidate> {
    if v == [] || Before(c, v[0]) then [c] + v else [v[0]] + Insert(c, v[1..])
  }

  /** std::sort, by time and then by hash. */
  function Sort(v: seq<Candidate>): seq<Candidate> { if v == [] then [] else Insert(v[0], Sort(v[1..])) }

  lemma {:induction false} InsertKeeps(c: Candidate, v: seq<Candidate>)
    requires InOrder(v) && Distinct(v) && forall i :: 0 <= i < |v| ==> v[i].hash != c.hash
    ensures var w := Insert(c, v); InOrder(w) && Distinct(w) && |w| == |v| + 1 && forall x :: x in w <==> x == c || x in v
  {
    var w := Insert(c, v);
    if v == [] || Before(c, v[0]) {
      assert forall x :: x in w <==> x == c || x in v;
    } else {
      var t := Insert(c, v[1..]);
      InsertKeeps(c, v[1..]);
      assert v == [v[0]] + v[1..];
      forall x ensures x in w <==> x == c || x in v {}
      forall j | 0 <= j < |t| ensures Before(v[0], t[j]) && v[0].hash != t[j].hash {
        assert t[j] in t;
        if t[j] != c { var k :| 0 <= k < |v[1..]| && v[1..][k] == t[j]; assert v[k + 1] == t[j]; }
      }
    }
  }

  lemma {:induction false} SortKeeps(v: seq<Candidate>)
    requires Distinct(v)
    ensures var w := Sort(v); InOrder(w) && Distinct(w) && |w| == |v| && forall x :: x in w <==> x in v
  {
    if v != [] {
      SortKeeps(v[1..]);
      assert v == [v[0]] + v[1..];
      forall i | 0 <= i < |Sort(v[1..])| ensures Sort(v[1..])[i].hash != v[0].hash {
        assert Sort(v[1..])[i] in v[1..];
      }
      InsertKeeps(v[0], Sort(v[1..]));
    }
  }

  /** Every block of the branch is in the index under its hash. */
  ghost predicate BranchIndexed(b: BlockIndex, index: map<nat, BlockIndex>)
    requires Linked(b)
    decreases b.nHeight
  {
    b.hash in index && index[b.hash] == b && (b.nHeight > 0 ==> BranchIndexed(b.pprev, index))
  }

  lemma {:induction false} BranchIndexedAt(b: BlockIndex, index: map<nat, BlockIndex>, h: nat)
    requires Linked(b) && BranchIndexed(b, index) && h <= b.nHeight
    ensures var a := Ancestor(b, h); a.hash in index && index[a.hash] == a
    decreases b.nHeight
  {
    if h < b.nHeight { BranchIndexedAt(b.pprev, index, h); }
  }

  function CandidateOf(b: BlockIndex): Candidate { Candidate(b.nTime, b.hash) }

  /** Candidate `k` is the block `k` below the tip, and all of them lie in the interval. */
  ghost predicate Walked(v: seq<Candidate>, tip: BlockIndex, start: int)
    requires Linked(tip)
  {
    && |v| <= tip.nHeight + 1
    && forall k :: 0 <= k < |v| ==> v[k] == CandidateOf(Ancestor(tip, tip.nHeight - k)) && v[k].time >= start
  }

  /** The blocks from the tip down to the first one before the interval. */
  method Collect(tip: BlockIndex, start: int) returns (v: seq<Candidate>)
    requires Linked(tip)
    ensures Walked(v, tip, start)
    ensures |v| <= tip.nHeight ==> Ancestor(tip, tip.nHeight - |v|).nTime < start
  {
    v := [];
    var pindex: BlockIndex? := tip;
    while pindex != null && pindex.nTime >= start
      invariant Walked(v, tip, start)
      invariant |v| <= tip.nHeight ==> pindex == Ancestor(tip, tip.nHeight - |v|)
      invariant |v| == tip.nHeight + 1 ==> pindex == null
      decreases tip.nHeight + 1 - |v|
    {
      v := v + [CandidateOf(pindex)];
      if pindex.nHeight > 0 { AncestorOfAncestor(tip, pindex.nHeight, pindex.nHeight - 1); }
      pindex := pindex.pprev;
    }
  }

  lemma WalkedDistinct(v: seq<Candidate>, tip: BlockIndex, start: int, index: map<nat, BlockIndex>)
    requires Linked(tip) && BranchIndexed(tip, index) && Walked(v, tip, start)
    ensures Distinct(v) && Indexed(v, index)
  {
    forall k | 0 <= k < |v| ensures v[k].hash in index && index[v[k].hash] == Ancestor(tip, tip.nHeight - k) {
      BranchIndexedAt(tip, index, tip.nHeight - k);
    }
    forall i, j | 0 <= i < j < |v| ensures v[i].hash != v[j].hash {
      assert index[v[i].hash].nHeight != index[v[j].hash].nHeight;
    }
  }

  lemma SortedCandidates(v: seq<Candidate>, index: map<nat, BlockIndex>)
    requires Distinct(v) && Indexed(v, index)
    ensures var w := Sort(v); ByTime(w) && Distinct(w) && Indexed(w, index) && |w| == |v|
  {
    SortKeeps(v);
    var w := Sort(v);
    forall i | 0 <= i < |w| ensures w[i].hash in index && index[w[i].hash].hash == w[i].hash && index[w[i].hash].nTime == w[i].time {
      assert w[i] in v;
    }
  }

  // ---------------------------------------------------------------- the modifier of a block

  /** The last block that generated a modifier, at or below a block. */
  ghost predicate LastGenerated(b: BlockIndex, h: nat)
    requires Linked(b)
  {
    && h <= b.nHeight && Ancestor(b, h).fGeneratedStakeModifier
    && forall k :: h < k <= b.nHeight ==> !Ancestor(b, k).fGeneratedStakeModifier
  }

  method GetLastStakeModifier(b: BlockIndex) returns (ok: bool, nStakeModifier: nat, nModifierTime: int)
    requires Linked(b)
    ensures ok <==> exists h :: LastGenerated(b, h)
    ensures ok ==> exists h :: LastGenerated(b, h) && nStakeModifier == Ancestor(b, h).nStakeModifier && nModifierTime == Ancestor(b, h).nTime
  {
    nStakeModifier, nModifierTime := 0, 0;
    var pindex: BlockIndex := b;
    while pindex.pprev != null && !pindex.fGeneratedStakeModifier
      invariant pindex.nHeight <= b.nHeight && pindex == Ancestor(b, pindex.nHeight)
      invariant forall k :: pindex.nHeight < k <= b.nHeight ==> !Ancestor(b, k).fGeneratedStakeModifier
      decreases pindex.nHeight
    {
      AncestorOfAncestor(b, pindex.nHeight, pindex.nHeight - 1);
      pindex := pindex.pprev;
    }
    if !pindex.fGeneratedStakeModifier { return false, 0, 0; }
    assert LastGenerated(b, pindex.nHeight);
    return true, pindex.nStakeModifier, pindex.nTime;
  }

  /** The modifier of the next block. The first block's is the address of a string literal, `first`. The
      error returns of the selection are never reached. */
  method ComputeNextStakeModifier(pindexPrev: BlockIndex?, index: map<nat, BlockIndex>, first: nat, hash: (nat, nat) -> nat)
    returns (ok: bool, nStakeModifier: nat, fGenerated: bool)
    requires pindexPrev != null ==> Linked(pindexPrev) && BranchIndexed(pindexPrev, index)
    ensures pindexPrev == null ==> ok && fGenerated && nStakeModifier == 0
    ensures pindexPrev != null && pindexPrev.nHeight == 0 ==> ok && fGenerated && nStakeModifier == first
    ensures pindexPrev != null && pindexPrev.nHeight > 0 ==>
              && (ok <==> exists h :: LastGenerated(pindexPrev, h))
              && (ok ==> exists h :: LastGenerated(pindexPrev, h) && NextModifier(pindexPrev, Ancestor(pindexPrev, h), index, hash, nStakeModifier, fGenerated))
  {
    hide Linked, Skips, Sections, Rounds, BranchIndexed, Walked, ModifierOf, Sort, Distinct, ByTime;
    nStakeModifier, fGenerated := 0, false;
    if pindexPrev == null { return true, 0, true; }
    if pindexPrev.nHeight == 0 { return true, first, true; }
    var tip: BlockIndex := pindexPrev;
    var nModifierTime: int;
    ok, nStakeModifier, nModifierTime := GetLastStakeModifier(tip);
    if !ok { return; }
    ghost var h :| LastGenerated(tip, h) && nStakeModifier == Ancestor(tip, h).nStakeModifier && nModifierTime == Ancestor(tip, h).nTime;
    if nModifierTime / MODIFIER_INTERVAL >= tip.nTime / MODIFIER_INTERVAL {
      assert NextModifier(tip, Ancestor(tip, h), index, hash, nStakeModifier, false);
      return;
    }
    var nSelectionInterval := GetStakeModifierSelectionInterval();
    var start := tip.nTime / MODIFIER_INTERVAL * MODIFIER_INTERVAL - nSelectionInterval;
    var v := Collect(tip, start);
    WalkedDistinct(v, tip, start, index);
    SortedCandidates(v, index);
    var nStakeModifierNew;
    ghost var at;
    ok, nStakeModifierNew, at := SelectAll(Sort(v), index, start, nStakeModifier, hash);
    assert Generated(tip, v, at, index, nStakeModifier, hash, nStakeModifierNew);
    nStakeModifier := nStakeModifierNew;
    fGenerated := true;
  }

  /** A new modifier: of all blocks of the branch in the interval, up to 64 chosen round by round. */
  ghost predicate Generated(tip: BlockIndex, v: seq<Candidate>, at: seq<nat>, index: map<nat, BlockIndex>, prev: nat, hash: (nat, nat) -> nat, modifier: nat)
    requires Linked(tip)
  {
    var start := IntervalStart(tip.nTime);
    && Walked(v, tip, start) && (|v| <= tip.nHeight ==> Ancestor(tip, tip.nHeight - |v|).nTime < start)
    && Indexed(Sort(v), index) && Rounds(Sort(v), index, at, start, prev, hash)
    && |at| == (if |v| < ROUNDS then |v| else ROUNDS)
    && modifier == ModifierOf(BitsOf(Sort(v), index, at))
  }

  /** The old modifier while the interval has not changed, else a new one. */
  ghost predicate NextModifier(tip: BlockIndex, last: BlockIndex, index: map<nat, BlockIndex>, hash: (nat, nat) -> nat, modifier: nat, generated: bool)
    requires Linked(tip)
  {
    if last.nTime / MODIFIER_INTERVAL >= tip.nTime / MODIFIER_INTERVAL then !generated && modifier == last.nStakeModifier
    else generated && exists v, at :: Generated(tip, v, at, index, last.nStakeModifier, hash, modifier)
  }

  // ---------------------------------------------------------------- the modifier for a kernel

  /** A block that generated a modifier at or after a time. */
  ghost predicate Later(chain: seq<BlockIndex?>, k: nat, time: nat) {
    k < |chain| && chain[k] != null && chain[k].fGeneratedStakeModifier && chain[k].nTime >= time
  }

  /** The first such block of the chain above a height. */
  ghost predicate FirstLater(chain: seq<BlockIndex?>, h: nat, time: nat, k: nat) {
    h < k && Later(chain, k, time) && forall j: nat :: h < j < k ==> !Later(chain, j, time)
  }

  ghost predicate NoneLater(chain: seq<BlockIndex?>, h: nat, time: nat) { forall j: nat :: h < j ==> !Later(chain, j, time) }

  /** The modifier that a stake from a block is hashed with: that of the first block above it that generated
      one a selection interval later or more. It fails only if there is none. */
  method GetKernelStakeModifier(hashBlockFrom: nat, index: map<nat, BlockIndex>, chainActive: CChain)
    returns (ok: bool, nStakeModifier: nat, nStakeModifierHeight: nat, nStakeModifierTime: nat)
    requires chainActive.Valid()
    ensures hashBlockFrom !in index ==> !ok
    ensures hashBlockFrom in index && ok ==>
              var from := index[hashBlockFrom];
              && FirstLater(chainActive.vChain, from.nHeight, from.nTime + Sections(ROUNDS), nStakeModifierHeight)
              && nStakeModifierTime == chainActive.vChain[nStakeModifierHeight].nTime
              && nStakeModifier == chainActive.vChain[nStakeModifierHeight].nStakeModifier
    ensures hashBlockFrom in index && !ok ==>
              NoneLater(chainActive.vChain, index[hashBlockFrom].nHeight, index[hashBlockFrom].nTime + Sections(ROUNDS))
  {
    hide Sections, Linked, Skips;
    nStakeModifier, nStakeModifierHeight, nStakeModifierTime := 0, 0, 0;
    if hashBlockFrom !in index { return false, 0, 0, 0; }
    var pindexFrom: BlockIndex := index[hashBlockFrom];
    nStakeModifierHeight, nStakeModifierTime := pindexFrom.nHeight, pindexFrom.nTime;
    var nInterval := GetStakeModifierSelectionInterval();
    IntervalPositive();
    var pindex: BlockIndex := pindexFrom;
    var pindexNext := chainActive.At(pindexFrom.nHeight + 1);
    ghost var k: nat := pindexFrom.nHeight;
    ghost var due := pindexFrom.nTime + nInterval;
    ghost var chain := chainActive.vChain;
    while nStakeModifierTime < pindexFrom.nTime + nInterval
      invariant k >= pindexFrom.nHeight && pindexNext == chainActive.At(k + 1)
      invariant k > pindexFrom.nHeight ==> k < |chain| && pindex == chain[k]
      invariant k == pindexFrom.nHeight ==> nStakeModifierTime == pindexFrom.nTime
      invariant nStakeModifierTime < due ==> forall j: nat :: pindexFrom.nHeight < j <= k ==> !Later(chain, j, due)
      invariant nStakeModifierTime >= due ==> FirstLater(chain, pindexFrom.nHeight, due, k) && nStakeModifierHeight == k
      invariant nStakeModifierTime >= due ==> nStakeModifierTime == pindex.nTime
      decreases |chain| - k
    {
      if pindexNext == null { return false, 0, nStakeModifierHeight, nStakeModifierTime; }
      pindex := pindexNext;
      pindexNext := chainActive.At(pindexNext.nHeight + 1);
      k := k + 1;
      if pindex.fGeneratedStakeModifier {
        nStakeModifierHeight, nStakeModifierTime := pindex.nHeight, pindex.nTime;
      }
    }
    return true, pindex.nStakeModifier, nStakeModifierHeight, nStakeModifierTime;
  }

  lemma IntervalPositive()
    ensures Sections(ROUNDS) > 0
  {
    SectionsNext(ROUNDS - 1);
    SectionBounds(ROUNDS - 1);
  }
}
