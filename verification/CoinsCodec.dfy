/** The stored form of a transaction's unspent outputs: a header code, a bit mask saying which outputs
    follow, and those outputs. */
module CoinsCodec {
  import opened Basics
  import opened Options
  import opened Coins
  import opened VarInt
  import opened Compressor

  // ---------------------------------------------------------------- bits of the mask

  /** Whether output `i` is there to be written. */
  predicate Avail(v: seq<TxOut>, i: nat) { i < |v| && !IsNull(v[i]) }

  /** The output that bit `j` of mask byte `b` stands for. */
  predicate Masked(v: seq<TxOut>, b: nat, j: nat) { Avail(v, 2 + b * 8 + j) }

  function Half(n: nat): nat { n / 2 }

  predicate Odd(n: nat) { n % 2 == 1 }

  /** n & (1 << i) */
  predicate Bit(n: nat, i: nat)
    decreases i
  {
    if i == 0 then Odd(n) else Bit(Half(n), i - 1)
  }

  /** Bits `i`.. of mask byte `b`, as a number. */
  function MaskBits(v: seq<TxOut>, b: nat, i: nat): (r: nat)
    requires i <= 8
    decreases 8 - i
  {
    if i == 8 then 0 else (if Masked(v, b, i) then 1 else 0) + 2 * MaskBits(v, b, i + 1)
  }

  lemma {:induction false} MaskBitsRange(v: seq<TxOut>, b: nat, i: nat)
    requires i <= 8
    ensures MaskBits(v, b, i) < Pow2(8 - i)
    ensures MaskBits(v, b, i) == 0 <==> forall j :: i <= j < 8 ==> !Masked(v, b, j)
    decreases 8 - i
  {
    hide Masked;
    if i < 8 { MaskBitsRange(v, b, i + 1); }
  }

  lemma HalfOdd(a: nat, odd: bool)
    ensures var n := (if odd then 1 else 0) + 2 * a; Half(n) == a && Odd(n) == odd
  {}

  lemma {:induction false} MaskBitAt(v: seq<TxOut>, b: nat, i: nat, j: nat)
    requires i + j < 8
    ensures Bit(MaskBits(v, b, i), j) == Masked(v, b, i + j)
    decreases j
  {
    hide Half, Odd, Masked;
    HalfOdd(MaskBits(v, b, i + 1), Masked(v, b, i));
    if j > 0 { MaskBitAt(v, b, i + 1, j - 1); }
  }

  function MaskByte(v: seq<TxOut>, b: nat): Byte {
    MaskBitsRange(v, b, 0);
    assert Pow2(8) == 256;
    MaskBits(v, b, 0)
  }

  predicate Used(v: seq<TxOut>, b: nat) { exists i :: 0 <= i < 8 && Masked(v, b, i) }

  lemma MaskByteMeans(v: seq<TxOut>, b: nat)
    ensures MaskByte(v, b) == 0 <==> !Used(v, b)
    ensures forall j :: 0 <= j < 8 ==> Bit(MaskByte(v, b), j) == Masked(v, b, j)
  {
    hide MaskBits, Masked, Bit, Pow2;
    MaskBitsRange(v, b, 0);
    forall j | 0 <= j < 8 ensures Bit(MaskByte(v, b), j) == Masked(v, b, j) { MaskBitAt(v, b, 0, j); }
  }

  // ---------------------------------------------------------------- the size of the mask

  /** The number of mask bytes for the outputs there are, empty ones at the end included. */
  function Blocks(v: seq<TxOut>): nat { if |v| <= 2 then 0 else (|v| - 2 + 7) / 8 }

  /** One more than the last used of the first `n` mask bytes. */
  function LastUsed(v: seq<TxOut>, n: nat): nat { if n == 0 then 0 else if Used(v, n - 1) then n else LastUsed(v, n - 1) }

  function CountUsed(v: seq<TxOut>, k: nat, n: nat): nat
    decreases n - k
  {
    if k >= n then 0 else (if Used(v, k) then 1 else 0) + CountUsed(v, k + 1, n)
  }

  function MaskSize(v: seq<TxOut>): nat { LastUsed(v, Blocks(v)) }

  function MaskCode(v: seq<TxOut>): nat { CountUsed(v, 0, Blocks(v)) }

  lemma {:induction false} CountUsedNext(v: seq<TxOut>, k: nat, n: nat)
    requires k <= n
    ensures CountUsed(v, k, n + 1) == CountUsed(v, k, n) + if Used(v, n) then 1 else 0
    decreases n - k
  {
    hide Used;
    if k < n { CountUsedNext(v, k + 1, n); }
  }

  lemma {:induction false} CountNone(v: seq<TxOut>, k: nat, n: nat)
    requires forall b :: k <= b < n ==> !Used(v, b)
    ensures CountUsed(v, k, n) == 0
    decreases n - k
  {
    hide Used;
    if k < n { CountNone(v, k + 1, n); }
  }

  lemma {:induction false} LastUsedIs(v: seq<TxOut>, n: nat)
    ensures var m := LastUsed(v, n);
            && m <= n && (m > 0 ==> Used(v, m - 1)) && (forall b :: m <= b < n ==> !Used(v, b))
            && CountUsed(v, 0, m) == CountUsed(v, 0, n)
  {
    hide Used;
    if n > 0 {
      LastUsedIs(v, n - 1);
      CountUsedNext(v, 0, n - 1);
    }
  }

  lemma BeyondBlocks(v: seq<TxOut>, b: nat)
    requires b >= Blocks(v)
    ensures !Used(v, b)
  {}

  /** The mask ends with a used byte, no output lies behind it, and the code counts its used bytes. */
  lemma MaskSizeIs(v: seq<TxOut>)
    ensures var n := MaskSize(v);
            && (n > 0 ==> Used(v, n - 1)) && MaskCode(v) == CountUsed(v, 0, n)
            && forall i :: i >= 2 + n * 8 ==> !Avail(v, i)
  {
    LastUsedIs(v, Blocks(v));
    var n := MaskSize(v);
    forall i: nat | i >= 2 + n * 8 ensures !Avail(v, i) {
      var b := (i - 2) / 8;
      assert i == 2 + b * 8 + (i - 2) % 8;
      assert Masked(v, b, (i - 2) % 8) == Avail(v, i);
      if b >= Blocks(v) { BeyondBlocks(v, b); }
      assert !Used(v, b);
    }
  }

  method CalcMaskSize(v: seq<TxOut>, nBytes0: nat, nNonzero0: nat) returns (nBytes: nat, nNonzeroBytes: nat)
    ensures nBytes == nBytes0 + MaskSize(v) && nNonzeroBytes == nNonzero0 + MaskCode(v)
  {
    nBytes, nNonzeroBytes := nBytes0, nNonzero0;
    var nLastUsedByte := 0;
    var b := 0;
    while 2 + b * 8 < |v|
      invariant 0 <= b <= Blocks(v)
      invariant nLastUsedByte == LastUsed(v, b) && nNonzeroBytes == nNonzero0 + CountUsed(v, 0, b)
      decreases |v| - b * 8
    {
      var fZero := true;
      var i := 0;
      while i < 8 && 2 + b * 8 + i < |v|
        invariant 0 <= i <= 8
        invariant fZero <==> forall j :: 0 <= j < i ==> !Masked(v, b, j)
      {
        assert Masked(v, b, i) <==> !IsNull(v[2 + b * 8 + i]);
        if !IsNull(v[2 + b * 8 + i]) { fZero := false; }
        i := i + 1;
      }
      assert forall j :: i <= j < 8 ==> !Masked(v, b, j);
      assert fZero <==> !Used(v, b);
      CountUsedNext(v, 0, b);
      if !fZero {
        nLastUsedByte := b + 1;
        nNonzeroBytes := nNonzeroBytes + 1;
      }
      b := b + 1;
    }
    nBytes := nBytes + nLastUsedByte;
  }

  // ---------------------------------------------------------------- writing

  function MaskFrom(v: seq<TxOut>, k: nat, n: nat): Bytes
    decreases n - k
  {
    if k >= n then [] else [MaskByte(v, k)] + MaskFrom(v, k + 1, n)
  }

  function OutsFrom(curve: Curve, v: seq<TxOut>, k: nat, n: nat): Bytes
    decreases n - k
  {
    if k >= n then [] else (if Avail(v, k) then TxOutBytes(curve, v[k]) else []) + OutsFrom(curve, v, k + 1, n)
  }

  function AsBit(b: bool, weight: nat): nat { if b then weight else 0 }

  /** The header code; the assert in Serialize is the precondition. */
  function HeaderCode(c: Coins, factor: nat): nat
    requires !IsPruned(c)
  {
    PrunedMeans(c);
    factor * (MaskCode(c.vout) - if Avail(c.vout, 0) || Avail(c.vout, 1) then 0 else 1)
    + AsBit(c.fCoinBase, 1) + AsBit(c.fCoinStake, 2) + AsBit(Avail(c.vout, 0), 4) + AsBit(Avail(c.vout, 1), 8)
  }

  lemma PrunedMeans(c: Coins)
    ensures !IsPruned(c) <==> Avail(c.vout, 0) || Avail(c.vout, 1) || MaskCode(c.vout) > 0
  {
    var v := c.vout;
    var n := MaskSize(v);
    MaskSizeIs(v);
    if MaskCode(v) > 0 {
      var i :| 0 <= i < 8 && Masked(v, n - 1, i);
      assert Avail(v, 2 + (n - 1) * 8 + i);
    }
    if !IsPruned(c) {
      var i :| 0 <= i < |v| && !IsNull(v[i]);
      assert Avail(v, i);
      if i >= 2 { SomeUsed(v, 0, n); }
    }
  }

  function Serialized(curve: Curve, c: Coins): Bytes
    requires !IsPruned(c)
  {
    IntBytes(c.nVersion) + (Encoded(HeaderCode(c, 16) % U32) + (MaskFrom(c.vout, 0, MaskSize(c.vout))
    + (OutsFrom(curve, c.vout, 0, |c.vout|) + IntBytes(c.nHeight))))
  }

  // ---------------------------------------------------------------- reading

  function ToInt32(n: nat): int { if n < U32 / 2 then n else n - U32 }

  function BitsOf(b: nat, i: nat): seq<bool>
    requires i <= 8
    decreases 8 - i
  {
    if i == 8 then [] else [Bit(b, i)] + BitsOf(b, i + 1)
  }

  function ReadMask(s: Bytes, code: nat, avail: seq<bool>): Option<(seq<bool>, Bytes)>
    decreases |s|
  {
    if code == 0 then Some((avail, s))
    else if s == [] then None
    else ReadMask(s[1..], if s[0] != 0 then code - 1 else code, avail + BitsOf(s[0], 0))
  }

  function ReadOuts(curve: Curve, s: Bytes, avail: seq<bool>): Option<(seq<TxOut>, Bytes)>
    decreases |avail|
  {
    if avail == [] then Some(([], s))
    else if !avail[0] then
      var r := ReadOuts(curve, s, avail[1..]);
      if r.None? then None else Some(([NULL_OUT] + r.value.0, r.value.1))
    else
      var o := ReadTxOut(curve, s);
      if o.None? then None
      else
        var r := ReadOuts(curve, o.value.1, avail[1..]);
        if r.None? then None else Some(([o.value.0] + r.value.0, r.value.1))
  }

  function ReadBody(curve: Curve, nVersion: int, nCode: nat, s: Bytes): Option<(Coins, Bytes)> {
    var avail := [Bit(nCode, 2), Bit(nCode, 3)];
    var mask := ReadMask(s, nCode / 16 + (if avail[0] || avail[1] then 0 else 1), avail);
    if mask.None? then None
    else
      var outs := ReadOuts(curve, mask.value.1, mask.value.0);
      if outs.None? then None
      else
        var height := Decoded(outs.value.1, U32);
        if height.None? then None
        else Some((Coins(Bit(nCode, 0), Bit(nCode, 1), Trimmed(outs.value.0), ToInt32(height.value.0), nVersion), height.value.1))
  }

  function Unserialized(curve: Curve, s: Bytes): Option<(Coins, Bytes)> {
    var version := Decoded(s, U32);
    if version.None? then None
    else
      var code := Decoded(version.value.1, U32);
      if code.None? then None
      else ReadBody(curve, ToInt32(version.value.0), code.value.0, code.value.1)
  }

  // ---------------------------------------------------------------- the round trip

  lemma {:induction false} BitsOfAt(b: nat, i: nat)
    requires i <= 8
    ensures |BitsOf(b, i)| == 8 - i && forall j :: 0 <= j < 8 - i ==> BitsOf(b, i)[j] == Bit(b, i + j)
    decreases 8 - i
  {
    hide Bit;
    if i < 8 { BitsOfAt(b, i + 1); }
  }

  ghost predicate Marks(avail: seq<bool>, v: seq<TxOut>, n: nat) {
    |avail| == 2 + n * 8 && forall i :: 0 <= i < |avail| ==> avail[i] == Avail(v, i)
  }

  lemma MarksNext(avail: seq<bool>, v: seq<TxOut>, k: nat)
    requires Marks(avail, v, k)
    ensures Marks(avail + BitsOf(MaskByte(v, k), 0), v, k + 1)
  {
    hide BitsOf, MaskByte, Avail;
    MaskByteMeans(v, k);
    BitsOfAt(MaskByte(v, k), 0);
    var more := avail + BitsOf(MaskByte(v, k), 0);
    forall i | 0 <= i < |more| ensures more[i] == Avail(v, i) {
      if i >= |avail| { assert Masked(v, k, i - |avail|) == Avail(v, i); }
    }
  }

  /** The reader takes exactly the mask bytes written, because the last of them is used. */
  lemma {:induction false} ReadMaskWritten(v: seq<TxOut>, k: nat, n: nat, avail: seq<bool>, rest: Bytes)
    requires k <= n && (n > 0 ==> Used(v, n - 1)) && Marks(avail, v, k)
    ensures var r := ReadMask(MaskFrom(v, k, n) + rest, CountUsed(v, k, n), avail);
            r.Some? && r.value.1 == rest && Marks(r.value.0, v, n)
    decreases n - k
  {
    hide Used, Avail, MaskByte, Marks, BitsOf;
    if k < n {
      var byte := MaskByte(v, k);
      ByteUsed(v, k);
      MarksNext(avail, v, k);
      SomeUsed(v, k, n);
      var s := MaskFrom(v, k, n) + rest;
      assert s[0] == byte && s[1..] == MaskFrom(v, k + 1, n) + rest;
      ReadMaskWritten(v, k + 1, n, avail + BitsOf(byte, 0), rest);
    } else {
      assert MaskFrom(v, k, n) + rest == rest;
    }
  }

  lemma ByteUsed(v: seq<TxOut>, b: nat)
    ensures MaskByte(v, b) == 0 <==> !Used(v, b)
  {
    MaskByteMeans(v, b);
  }

  lemma {:induction false} SomeUsed(v: seq<TxOut>, k: nat, n: nat)
    requires k < n && Used(v, n - 1)
    ensures CountUsed(v, k, n) > 0
    decreases n - k
  {
    if k < n - 1 { SomeUsed(v, k + 1, n); }
  }

  predicate AllStorable(v: seq<TxOut>) { forall i :: 0 <= i < |v| && !IsNull(v[i]) ==> Storable(v[i]) }

  function OutAt(v: seq<TxOut>, i: nat): TxOut { if Avail(v, i) then v[i] else NULL_OUT }

  ghost predicate Holds(outs: seq<TxOut>, v: seq<TxOut>, k: nat) { forall i :: 0 <= i < |outs| ==> outs[i] == OutAt(v, k + i) }

  /** The flags from output `k` on. */
  ghost predicate Here(avail: seq<bool>, v: seq<TxOut>, k: nat) { forall i :: 0 <= i < |avail| ==> avail[i] == Avail(v, k + i) }

  lemma HereNext(avail: seq<bool>, v: seq<TxOut>, k: nat)
    requires avail != [] && Here(avail, v, k)
    ensures avail[0] == Avail(v, k) && Here(avail[1..], v, k + 1)
  {
    hide Avail;
    assert avail[0] == Avail(v, k + 0);
    forall i | 0 <= i < |avail[1..]| ensures avail[1..][i] == Avail(v, k + 1 + i) { assert avail[1 + i] == Avail(v, k + (1 + i)); }
  }

  lemma HoldsNext(o: TxOut, outs: seq<TxOut>, v: seq<TxOut>, k: nat)
    requires o == OutAt(v, k) && Holds(outs, v, k + 1)
    ensures Holds([o] + outs, v, k)
  {
    hide OutAt;
    var r := [o] + outs;
    forall i | 0 <= i < |r| ensures r[i] == OutAt(v, k + i) { if i > 0 { assert outs[i - 1] == OutAt(v, k + 1 + (i - 1)); } }
  }

  lemma {:induction false} ReadOutsWritten(curve: Curve, v: seq<TxOut>, k: nat, avail: seq<bool>, rest: Bytes)
    requires Sound(curve) && AllStorable(v) && Here(avail, v, k)
    ensures var r := ReadOuts(curve, OutsFrom(curve, v, k, k + |avail|) + rest, avail);
            r.Some? && r.value.1 == rest && |r.value.0| == |avail| && Holds(r.value.0, v, k)
    decreases |avail|
  {
    hide Sound, ReadTxOut, TxOutBytes, Storable, Here, Holds;
    var tail := OutsFrom(curve, v, k + 1, k + |avail|) + rest;
    if avail != [] {
      HereNext(avail, v, k);
      ReadOutsWritten(curve, v, k + 1, avail[1..], rest);
      var outs := ReadOuts(curve, tail, avail[1..]).value.0;
      HoldsNext(OutAt(v, k), outs, v, k);
      if avail[0] {
        TxOutRoundTrip(curve, v[k], tail);
        assert OutsFrom(curve, v, k, k + |avail|) + rest == TxOutBytes(curve, v[k]) + tail;
      } else {
        assert OutsFrom(curve, v, k, k + |avail|) + rest == tail;
      }
    } else {
      HoldsNone(v, k);
    }
  }

  lemma HoldsNone(v: seq<TxOut>, k: nat)
    ensures Holds([], v, k)
  {}

  lemma {:induction false} OutsBeyond(curve: Curve, v: seq<TxOut>, k: nat, n: nat, m: nat)
    requires n <= m && forall i :: n <= i < m ==> !Avail(v, i)
    ensures OutsFrom(curve, v, k, n) == OutsFrom(curve, v, k, m)
    decreases m - k
  {
    hide TxOutBytes, Avail;
    if k < m { OutsBeyond(curve, v, k + 1, n, m); }
  }

  /** Trimming depends only on which outputs are there and what they are. */
  lemma TrimmedAlike(a: seq<TxOut>, v: seq<TxOut>)
    requires Holds(a, v, 0) && (forall i :: i >= |a| ==> !Avail(v, i))
    requires forall i :: 0 <= i < |v| && IsNull(v[i]) ==> v[i] == NULL_OUT
    ensures Trimmed(a) == Trimmed(v)
  {
    hide Trimmed;
    TrimmedKeeps(a);
    TrimmedKeeps(v);
    var x, y := Trimmed(a), Trimmed(v);
    assert forall i :: 0 <= i < |a| ==> (Avail(a, i) <==> Avail(v, i)) by {
      forall i | 0 <= i < |a| ensures Avail(a, i) <==> Avail(v, i) { assert a[i] == OutAt(v, 0 + i); }
    }
    LastAvail(a, x);
    LastAvail(v, y);
    assert |x| == |y|;
    forall i | 0 <= i < |x| ensures x[i] == y[i] { assert a[i] == OutAt(v, 0 + i); }
  }

  lemma LastAvail(v: seq<TxOut>, w: seq<TxOut>)
    requires |w| <= |v| && w == v[..|w|] && AllNull(v[|w|..]) && (w == [] || !IsNull(w[|w| - 1]))
    ensures (w != [] ==> Avail(v, |w| - 1)) && forall i :: i >= |w| ==> !Avail(v, i)
  {
    forall i: nat | i >= |w| ensures !Avail(v, i) { if i < |v| { assert v[i] == v[|w|..][i - |w|]; } }
  }

  /** The flags and the mask code are what the code was made of. */
  lemma CodeParts(k: nat, b0: bool, b1: bool, b2: bool, b3: bool)
    ensures var n := 16 * k + AsBit(b0, 1) + AsBit(b1, 2) + AsBit(b2, 4) + AsBit(b3, 8);
            n / 16 == k && Bit(n, 0) == b0 && Bit(n, 1) == b1 && Bit(n, 2) == b2 && Bit(n, 3) == b3
  {
    hide Half, Odd, Bit;
    var n3 := AsBit(b3, 1) + 2 * k;
    var n2 := AsBit(b2, 1) + 2 * n3;
    var n1 := AsBit(b1, 1) + 2 * n2;
    var n0 := AsBit(b0, 1) + 2 * n1;
    assert n0 == 16 * k + AsBit(b0, 1) + AsBit(b1, 2) + AsBit(b2, 4) + AsBit(b3, 8);
    HalfOdd(k, b3);
    HalfOdd(n3, b2);
    HalfOdd(n2, b1);
    HalfOdd(n1, b0);
    BitSteps(n0);
  }

  lemma BitSteps(n: nat)
    ensures Bit(n, 0) == Odd(n) && Bit(n, 1) == Odd(Half(n)) && Bit(n, 2) == Odd(Half(Half(n))) && Bit(n, 3) == Odd(Half(Half(Half(n))))
    ensures n / 16 == Half(Half(Half(Half(n))))
  {
    assert Bit(n, 1) == Bit(Half(n), 0);
    assert Bit(n, 2) == Bit(Half(n), 1) == Bit(Half(Half(n)), 0);
    assert Bit(n, 3) == Bit(Half(n), 2) == Bit(Half(Half(n)), 1) == Bit(Half(Half(Half(n))), 0);
  }

  predicate Int32(n: int) { -0x8000_0000 <= n < 0x8000_0000 }

  /** What a 32-bit int comes back as. */
  function IntBack(n: int): int { if n < 0 then n % 128 else n }

  lemma IntRoundTrip(n: int, rest: Bytes)
    requires Int32(n)
    ensures var r := Decoded(IntBytes(n) + rest, U32);
            r.Some? && r.value.1 == rest && ToInt32(r.value.0) == IntBack(n)
  {
    if n < 0 {
      FirstByte(n % 128, rest);
    } else {
      ReadWritten(n, rest, U32);
    }
  }

  /** What can be stored: outputs with amounts and scripts in range, and not so many of them that the header
      code would overflow. */
  predicate StorableCoins(c: Coins) {
    && !IsPruned(c) && Wiped(c) && AllStorable(c.vout) && Int32(c.nVersion) && Int32(c.nHeight)
    && HeaderCode(c, 16) < U32
  }

  /** Mask and outputs read back. */
  lemma OutputsRoundTrip(curve: Curve, v: seq<TxOut>, avail: seq<bool>, tail: Bytes)
    requires Sound(curve) && AllStorable(v) && avail == [Avail(v, 0), Avail(v, 1)]
    requires forall i :: 0 <= i < |v| && IsNull(v[i]) ==> v[i] == NULL_OUT
    ensures var mask := ReadMask(MaskFrom(v, 0, MaskSize(v)) + (OutsFrom(curve, v, 0, |v|) + tail), MaskCode(v), avail);
            && mask.Some?
            && var outs := ReadOuts(curve, mask.value.1, mask.value.0);
            outs.Some? && outs.value.1 == tail && Trimmed(outs.value.0) == Trimmed(v)
  {
    hide Sound, Avail, Used, MaskFrom, OutsFrom, ReadMask, ReadOuts, Trimmed, MaskCode, MaskSize, AllStorable, IsNull;
    var n := MaskSize(v);
    MaskSizeIs(v);
    var outs := OutsFrom(curve, v, 0, |v|) + tail;
    ReadMaskWritten(v, 0, n, avail, outs);
    var mask := ReadMask(MaskFrom(v, 0, n) + outs, MaskCode(v), avail).value.0;
    OutsWritten(curve, v, 2 + n * 8);
    assert forall i :: 0 <= i < |mask| ==> mask[i] == Avail(v, 0 + i);
    assert Here(mask, v, 0);
    ReadOutsWritten(curve, v, 0, mask, tail);
    TrimmedAlike(ReadOuts(curve, outs, mask).value.0, v);
  }

  lemma CodeOf(c: Coins)
    requires !IsPruned(c)
    ensures var n := HeaderCode(c, 16);
            && Bit(n, 0) == c.fCoinBase && Bit(n, 1) == c.fCoinStake && Bit(n, 2) == Avail(c.vout, 0) && Bit(n, 3) == Avail(c.vout, 1)
            && n / 16 + (if Avail(c.vout, 0) || Avail(c.vout, 1) then 0 else 1) == MaskCode(c.vout)
  {
    hide Bit, MaskCode, IsPruned, Avail;
    PrunedMeans(c);
    var k := MaskCode(c.vout) - if Avail(c.vout, 0) || Avail(c.vout, 1) then 0 else 1;
    CodeParts(k, c.fCoinBase, c.fCoinStake, Avail(c.vout, 0), Avail(c.vout, 1));
  }

  lemma BodyRoundTrip(curve: Curve, c: Coins, nVersion: int, rest: Bytes)
    requires Sound(curve) && StorableCoins(c)
    ensures var s := MaskFrom(c.vout, 0, MaskSize(c.vout)) + (OutsFrom(curve, c.vout, 0, |c.vout|) + (IntBytes(c.nHeight) + rest));
            ReadBody(curve, nVersion, HeaderCode(c, 16), s)
            == Some((Cleaned(c).(nHeight := IntBack(c.nHeight), nVersion := nVersion), rest))
  {
    hide Sound, Bit, Avail, MaskFrom, OutsFrom, ReadMask, ReadOuts, Trimmed, Decoded, IntBytes, MaskCode, MaskSize, IsPruned, Wiped, HeaderCode, AllStorable, IntBack, ToInt32;
    CodeOf(c);
    WipedMeans(c);
    OutputsRoundTrip(curve, c.vout, [Avail(c.vout, 0), Avail(c.vout, 1)], IntBytes(c.nHeight) + rest);
    IntRoundTrip(c.nHeight, rest);
  }

  lemma WipedMeans(c: Coins)
    requires Wiped(c)
    ensures forall i :: 0 <= i < |c.vout| && IsNull(c.vout[i]) ==> c.vout[i] == NULL_OUT
  {}

  lemma OutsWritten(curve: Curve, v: seq<TxOut>, n: nat)
    requires forall i :: i >= n ==> !Avail(v, i)
    ensures OutsFrom(curve, v, 0, |v|) == OutsFrom(curve, v, 0, n)
  {
    if n <= |v| { OutsBeyond(curve, v, 0, n, |v|); } else { OutsBeyond(curve, v, 0, |v|, n); }
  }

  /** Reading what was written restores everything up to spent outputs at the end, and reads exactly what
      was written. A negative version or height does not survive. */
  lemma CoinsRoundTrip(curve: Curve, c: Coins, rest: Bytes)
    requires Sound(curve) && StorableCoins(c)
    ensures Unserialized(curve, Serialized(curve, c) + rest)
            == Some((Cleaned(c).(nHeight := IntBack(c.nHeight), nVersion := IntBack(c.nVersion)), rest))
  {
    hide Sound, HeaderCode, ReadBody, MaskFrom, OutsFrom, Encoded, Decoded, IntBytes, MaskSize, ToInt32, Trimmed, IsPruned, Wiped;
    var mask := MaskFrom(c.vout, 0, MaskSize(c.vout));
    var outs := OutsFrom(curve, c.vout, 0, |c.vout|);
    var body := mask + (outs + (IntBytes(c.nHeight) + rest));
    var code := Encoded(HeaderCode(c, 16));
    IntRoundTrip(c.nVersion, code + body);
    ReadWritten(HeaderCode(c, 16), body, U32);
    BodyRoundTrip(curve, c, IntBack(c.nVersion), rest);
    assert Serialized(curve, c) + rest == IntBytes(c.nVersion) + (code + body);
  }

  // ---------------------------------------------------------------- the size announced

  /** GetSerializeSize; the length of what it is given stands for the sizes of the parts. */
  function SerializeSize(curve: Curve, c: Coins): nat
    requires !IsPruned(c)
  {
    |IntBytes(c.nVersion)| + |Encoded(HeaderCode(c, 8) % U32)| + MaskSize(c.vout)
    + |OutsFrom(curve, c.vout, 0, |c.vout|)| + |IntBytes(c.nHeight)|
  }

  lemma {:induction false} MaskLength(v: seq<TxOut>, k: nat, n: nat)
    requires k <= n
    ensures |MaskFrom(v, k, n)| == n - k
    decreases n - k
  {
    if k < n { MaskLength(v, k + 1, n); }
  }

  /** The size is computed with a factor of 8 where 16 is written. It is never too large, and too small,
      by one byte, exactly if one of the numbers from which on a header code takes a byte more lies
      between the two. */
  lemma SizeAgreesIff(curve: Curve, c: Coins)
    requires StorableCoins(c)
    ensures |Serialized(curve, c)| == SerializeSize(curve, c)
              + if exists j: nat :: HeaderCode(c, 8) < FirstLonger(j) <= HeaderCode(c, 16) then 1 else 0
  {
    hide OutsFrom, MaskFrom, Encoded, IntBytes, MaskSize, IsPruned, Wiped, AllStorable, HeaderCode, FirstLonger;
    HeaderCodes(c);
    LengthGap(HeaderCode(c, 8), HeaderCode(c, 16));
    MaskLength(c.vout, 0, MaskSize(c.vout));
  }

  lemma HeaderCodes(c: Coins)
    requires !IsPruned(c)
    ensures HeaderCode(c, 8) <= HeaderCode(c, 16) <= 2 * HeaderCode(c, 8)
  {
    hide MaskCode, IsPruned, Avail;
    PrunedMeans(c);
  }

  lemma {:induction false} CountAll(v: seq<TxOut>, k: nat, n: nat)
    requires k <= n && forall b :: k <= b < n ==> Used(v, b)
    ensures CountUsed(v, k, n) == n - k
    decreases n - k
  {
    hide Used;
    if k < n { CountAll(v, k + 1, n); }
  }

  lemma SomeMasked(v: seq<TxOut>, b: nat, j: nat)
    requires j < 8 && 2 + b * 8 + j < |v| && !IsNull(v[2 + b * 8 + j])
    ensures Used(v, b)
  {
    assert Masked(v, b, j);
  }

  /** A transaction with 66 unspent outputs is announced one byte too short. */
  lemma SizeCanBeWrong(curve: Curve)
    ensures var c := Coins(false, false, seq(66, _ => TxOut(1, [])), 1, 1);
            StorableCoins(c) && SerializeSize(curve, c) < |Serialized(curve, c)|
  {
    hide OutsFrom, MaskFrom, MaskSize, CountUsed, Used;
    var c := Coins(false, false, seq(66, _ => TxOut(1, [])), 1, 1);
    assert !IsNull(c.vout[0]);
    forall b | 0 <= b < 8 ensures Used(c.vout, b) { SomeMasked(c.vout, b, 0); }
    CountAll(c.vout, 0, 8);
    MaskLength(c.vout, 0, MaskSize(c.vout));
    assert HeaderCode(c, 16) == 140 && HeaderCode(c, 8) == 76;
    assert |Encoded(76)| == 1 && |Encoded(140)| == 2;
  }
}
