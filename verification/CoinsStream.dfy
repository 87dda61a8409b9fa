/** CCoins::Serialize and CCoins::Unserialize as the loops over streams that they are. */
module CoinsStream {
  import opened Basics
  import opened Options
  import opened Coins
  import opened VarInt
  import opened Compressor
  import opened CoinsCodec

  method ChAvail(v: seq<TxOut>, b: nat) returns (chAvail: Byte)
    ensures chAvail == MaskByte(v, b)
  {
    hide Masked;
    var ch: nat, i := 0, 0;
    assert Pow2(0) == 1;
    while i < 8 && 2 + b * 8 + i < |v|
      invariant 0 <= i <= 8 && ch + Weighed(i, MaskBits(v, b, i)) == MaskBits(v, b, 0)
    {
      WeighedNext(v, b, i);
      MaskedMeans(v, b, i);
      if !IsNull(v[2 + b * 8 + i]) { ch := ch + Pow2(i); }
      i := i + 1;
    }
    forall j | i <= j < 8 ensures !Masked(v, b, j) { MaskedMeans(v, b, j); }
    MaskBitsRange(v, b, i);
    WeighedNone(i);
    chAvail := MaskByte(v, b);
    assert ch == chAvail;
  }

  /** Bits from position `i` on. */
  function Weighed(i: nat, bits: nat): nat { Pow2(i) * bits }

  lemma WeighedNone(i: nat)
    ensures Weighed(i, 0) == 0
  {}

  lemma MaskedMeans(v: seq<TxOut>, b: nat, i: nat)
    ensures Masked(v, b, i) <==> 2 + b * 8 + i < |v| && !IsNull(v[2 + b * 8 + i])
  {}

  lemma WeighedNext(v: seq<TxOut>, b: nat, i: nat)
    requires i < 8
    ensures Weighed(i, MaskBits(v, b, i)) == (if Masked(v, b, i) then Pow2(i) else 0) + Weighed(i + 1, MaskBits(v, b, i + 1))
  {
    Doubled(Pow2(i), MaskBits(v, b, i + 1), if Masked(v, b, i) then 1 else 0);
  }

  lemma Doubled(p: nat, m: nat, bit: nat)
    ensures p * (bit + 2 * m) == p * bit + (2 * p) * m
  {
    assert p * (2 * m) == (2 * p) * m;
  }

  method WriteMask(v: seq<TxOut>, nMaskSize: nat) returns (s: Bytes)
    ensures s == MaskFrom(v, 0, nMaskSize)
  {
    hide MaskByte;
    s := [];
    for b := 0 to nMaskSize
      invariant s + MaskFrom(v, b, nMaskSize) == MaskFrom(v, 0, nMaskSize)
    {
      var chAvail := ChAvail(v, b);
      assert MaskFrom(v, b, nMaskSize) == [chAvail] + MaskFrom(v, b + 1, nMaskSize);
      s := s + [chAvail];
    }
  }

  method WriteOuts(curve: Curve, v: seq<TxOut>) returns (s: Bytes)
    ensures s == OutsFrom(curve, v, 0, |v|)
  {
    hide TxOutBytes;
    s := [];
    for i := 0 to |v|
      invariant s + OutsFrom(curve, v, i, |v|) == OutsFrom(curve, v, 0, |v|)
    {
      if !IsNull(v[i]) {
        assert OutsFrom(curve, v, i, |v|) == TxOutBytes(curve, v[i]) + OutsFrom(curve, v, i + 1, |v|);
        s := s + TxOutBytes(curve, v[i]);
      }
    }
  }

  method Serialize(curve: Curve, c: Coins) returns (s: Bytes)
    requires !IsPruned(c)
    ensures s == Serialized(curve, c)
  {
    hide MaskFrom, OutsFrom, MaskSize, MaskCode, Encoded, IntBytes, IsPruned;
    var nMaskSize, nMaskCode := CalcMaskSize(c.vout, 0, 0);
    var fFirst := |c.vout| > 0 && !IsNull(c.vout[0]);
    var fSecond := |c.vout| > 1 && !IsNull(c.vout[1]);
    PrunedMeans(c);
    assert fFirst || fSecond || nMaskCode > 0;
    var nCode := 16 * (nMaskCode - (if fFirst || fSecond then 0 else 1)) + (if c.fCoinBase then 1 else 0)
    + (if c.fCoinStake then 2 else 0) + (if fFirst then 4 else 0) + (if fSecond then 8 else 0);
    assert nCode == HeaderCode(c, 16);
    var mask := WriteMask(c.vout, nMaskSize);
    var outs := WriteOuts(curve, c.vout);
    s := IntBytes(c.nVersion) + (Encoded(nCode % U32) + (mask + (outs + IntBytes(c.nHeight))));
  }

  /** The eight bits of one mask byte. */
  method AppendBits(chAvail: Byte, before: seq<bool>) returns (vAvail: seq<bool>)
    ensures vAvail == before + BitsOf(chAvail, 0)
  {
    hide Bit;
    vAvail := before;
    for p := 0 to 8
      invariant vAvail + BitsOf(chAvail, p) == before + BitsOf(chAvail, 0)
    {
      var f := Bit(chAvail, p);
      assert BitsOf(chAvail, p) == [f] + BitsOf(chAvail, p + 1);
      vAvail := vAvail + [f];
    }
  }

  method ReadAvail(s: Bytes, nMaskCode0: nat, avail0: seq<bool>) returns (r: Option<(seq<bool>, Bytes)>)
    ensures r == ReadMask(s, nMaskCode0, avail0)
  {
    hide Bit, BitsOf;
    var rest, nMaskCode, vAvail := s, nMaskCode0, avail0;
    while nMaskCode > 0
      invariant nMaskCode >= 0 && ReadMask(rest, nMaskCode, vAvail) == ReadMask(s, nMaskCode0, avail0)
      decreases |rest|
    {
      if |rest| == 0 { return None; }
      var chAvail := rest[0];
      vAvail := AppendBits(chAvail, vAvail);
      rest := rest[1..];
      if chAvail != 0 { nMaskCode := nMaskCode - 1; }
    }
    return Some((vAvail, rest));
  }

  method ReadAllOuts(curve: Curve, s: Bytes, vAvail: seq<bool>) returns (r: Option<(seq<TxOut>, Bytes)>)
    ensures r == ReadOuts(curve, s, vAvail)
  {
    hide ReadTxOut;
    var rest := s;
    var vout := seq(|vAvail|, _ => NULL_OUT);
    assert vAvail[0..] == vAvail;
    BehindNothing(ReadOuts(curve, s, vAvail));
    for i := 0 to |vAvail|
      invariant |vout| == |vAvail| && forall j :: i <= j < |vout| ==> vout[j] == NULL_OUT
      invariant ReadOuts(curve, s, vAvail) == Behind(vout[..i], ReadOuts(curve, rest, vAvail[i..]))
    {
      ghost var before := vout[..i];
      assert vAvail[i..][1..] == vAvail[i + 1..];
      OutsUnfold(curve, rest, vAvail[i..]);
      if vAvail[i] {
        var o := ReadTxOut(curve, rest);
        if o.None? { return None; }
        vout := vout[i := o.value.0];
        rest := o.value.1;
      }
      assert vout[..i + 1] == before + [vout[i]];
      BehindNext(before, vout[i], ReadOuts(curve, rest, vAvail[i + 1..]));
    }
    assert vout[..|vAvail|] == vout && vout + [] == vout;
    return Some((vout, rest));
  }

  /** Outputs read before those that the rest of the stream gives. */
  function Behind(before: seq<TxOut>, r: Option<(seq<TxOut>, Bytes)>): Option<(seq<TxOut>, Bytes)> {
    if r.None? then None else Some((before + r.value.0, r.value.1))
  }

  lemma BehindNothing(r: Option<(seq<TxOut>, Bytes)>)
    ensures Behind([], r) == r
  {
    if r.Some? { assert [] + r.value.0 == r.value.0; }
  }

  lemma BehindNext(before: seq<TxOut>, o: TxOut, r: Option<(seq<TxOut>, Bytes)>)
    ensures Behind(before, Behind([o], r)) == Behind(before + [o], r)
  {
    if r.Some? { assert before + ([o] + r.value.0) == before + [o] + r.value.0; }
  }

  lemma OutsUnfold(curve: Curve, s: Bytes, avail: seq<bool>)
    requires avail != []
    ensures ReadOuts(curve, s, avail) ==
              if !avail[0] then Behind([NULL_OUT], ReadOuts(curve, s, avail[1..]))
              else
                var o := ReadTxOut(curve, s);
                if o.None? then None else Behind([o.value.0], ReadOuts(curve, o.value.1, avail[1..]))
  {
    hide ReadTxOut;
  }

  method Unserialize(curve: Curve, s: Bytes) returns (r: Option<(Coins, Bytes)>)
    ensures r == Unserialized(curve, s)
  {
    hide Decoded, ReadMask, ReadOuts, Bit, Trimmed;
    var version := ReadVarInt(s, U32);
    if version.None? { return None; }
    var code := ReadVarInt(version.value.1, U32);
    if code.None? { return None; }
    var nCode := code.value.0;
    var vAvail := [Bit(nCode, 2), Bit(nCode, 3)];
    var mask := ReadAvail(code.value.1, nCode / 16 + (if vAvail[0] || vAvail[1] then 0 else 1), vAvail);
    if mask.None? { return None; }
    var outs := ReadAllOuts(curve, mask.value.1, mask.value.0);
    if outs.None? { return None; }
    var height := ReadVarInt(outs.value.1, U32);
    if height.None? { return None; }
    var vout := Cleanup(outs.value.0);
    r := Some((Coins(Bit(nCode, 0), Bit(nCode, 1), vout, ToInt32(height.value.0), ToInt32(version.value.0)), height.value.1));
  }
}
