/** Compact forms of amounts, scripts and outputs. */
module Compressor {
  import P = Products
  import opened Options
  import opened Coins
  import opened VarInt

  const U64: nat := 0x1_0000_0000_0000_0000
  const U32: nat := 0x1_0000_0000

  // ---------------------------------------------------------------- amounts

  function Div10(n: nat): nat { n / 10 }

  function Mod10(n: nat): nat { n % 10 }

  lemma Digits(n: nat)
    ensures n == Div10(n) * 10 + Mod10(n) && Mod10(n) < 10 && (n > 0 && Mod10(n) == 0 ==> 0 < Div10(n) < n)
  {}

  lemma DigitsBack(q: nat, d: nat)
    requires d < 10
    ensures Div10(q * 10 + d) == q && Mod10(q * 10 + d) == d
  {}

  /** The amount without up to nine trailing zeros, and their number. */
  function Strip(n: nat, e: nat): (nat, nat)
    requires n > 0 && e <= 9
    decreases 9 - e
  {
    Digits(n);
    if Mod10(n) == 0 && e < 9 then Strip(Div10(n), e + 1) else (n, e)
  }

  function Pack(n: nat, e: nat): nat
    requires n > 0 && (e < 9 ==> Mod10(n) > 0)
  {
    if e < 9 then 1 + (Div10(n) * 9 + Mod10(n) - 1) * 10 + e else 1 + (n - 1) * 10 + 9
  }

  function Compressed(n: nat): nat {
    if n == 0 then 0
    else
      StripKeeps(n, 0);
      var (m, e) := Strip(n, 0);
      Pack(m, e)
  }

  function Scaled(n: nat, e: nat): nat
    decreases e
  {
    if e == 0 then n else Scaled(n * 10, e - 1)
  }

  /** The number and the number of zeros that a packed amount stands for. */
  function Unpack(x: nat): (nat, nat)
    requires x > 0
  {
    var y := Div10(x - 1);
    var e := Mod10(x - 1);
    if e < 9 then (y / 9 * 10 + y % 9 + 1, e) else (y + 1, e)
  }

  function Decompressed(x: nat): nat {
    if x == 0 then 0 else var (n, e) := Unpack(x); Scaled(n, e)
  }

  lemma {:induction false} StripKeeps(n: nat, e: nat)
    requires n > 0 && e <= 9
    ensures var (m, k) := Strip(n, e);
            e <= k <= 9 && 0 < m <= n && (k < 9 ==> Mod10(m) > 0) && Scaled(m, k - e) == n
    decreases 9 - e
  {
    hide Mod10, Div10;
    Digits(n);
    if Mod10(n) == 0 && e < 9 {
      StripKeeps(Div10(n), e + 1);
      var (m, k) := Strip(Div10(n), e + 1);
      ScaledUp(m, k - e - 1);
    }
  }

  lemma {:induction false} ScaledUp(m: nat, k: nat)
    ensures Scaled(m, k + 1) == Scaled(m, k) * 10
    decreases k
  {
    if k > 0 { ScaledUp(m * 10, k - 1); }
  }

  /** Stripping finds the zeros that scaling put there. */
  lemma {:induction false} StripScaled(m: nat, k: nat, e: nat)
    requires m > 0 && e + k <= 9 && Scaled(m, k) > 0
    ensures Strip(Scaled(m, k), e) == Strip(m, e + k)
    decreases k
  {
    if k > 0 {
      StripScaled(m * 10, k - 1, e);
      DigitsBack(m, 0);
    }
  }

  lemma {:induction false} ScaledPositive(m: nat, k: nat)
    requires m > 0
    ensures Scaled(m, k) > 0
    decreases k
  {
    if k > 0 { ScaledPositive(m * 10, k - 1); }
  }

  lemma UnpackPacked(n: nat, e: nat)
    requires n > 0 && e <= 9 && (e < 9 ==> Mod10(n) > 0)
    ensures Pack(n, e) > 0 && Unpack(Pack(n, e)) == (n, e)
  {
    hide Mod10, Div10;
    Digits(n);
    if e < 9 {
      var y := Div10(n) * 9 + Mod10(n) - 1;
      DigitsBack(y, e);
      NineBack(Div10(n), Mod10(n) - 1);
    } else {
      DigitsBack(n - 1, 9);
    }
  }

  lemma NineBack(q: nat, d: nat)
    requires d < 9
    ensures (q * 9 + d) / 9 == q && (q * 9 + d) % 9 == d
  {}

  lemma PackUnpacked(x: nat)
    requires x > 0
    ensures var (n, e) := Unpack(x); n > 0 && e <= 9 && (e < 9 ==> Mod10(n) > 0) && Pack(n, e) == x
  {
    Digits(x - 1);
    var y := Div10(x - 1);
    if Mod10(x - 1) < 9 { DigitsBack(y / 9, y % 9 + 1); }
  }

  /** Compression is a bijection on the amounts: each direction undoes the other. */
  lemma AmountRoundTrip(n: nat)
    ensures Decompressed(Compressed(n)) == n
  {
    if n > 0 {
      StripKeeps(n, 0);
      var (m, e) := Strip(n, 0);
      UnpackPacked(m, e);
    }
  }

  lemma AmountOnto(x: nat)
    ensures Compressed(Decompressed(x)) == x
  {
    if x > 0 {
      PackUnpacked(x);
      var (n, e) := Unpack(x);
      ScaledPositive(n, e);
      StripScaled(n, e, 0);
    }
  }

  /** What an amount of `e` trailing zeros behind `m` is compressed to. Each zero costs one more, and nine of
      them leave ten times the number before them, whatever its own last digit. */
  lemma ZerosShorten(m: nat, e: nat)
    requires m > 0 && e <= 9
    ensures e < 9 && m % 10 != 0 ==> Compressed(Scaled(m, e)) == 9 * m + m % 10 + e - 9
    ensures e == 9 ==> Compressed(Scaled(m, e)) == 10 * m
  {
    ScaledPositive(m, e);
    StripScaled(m, e, 0);
    Digits(m);
  }

  lemma PackSize(n: nat, e: nat)
    requires n > 0 && e <= 9 && (e < 9 ==> Mod10(n) > 0)
    ensures Pack(n, e) <= if e < 9 then 9 * n + e else 10 * n
  {
    Digits(n);
  }

  lemma {:induction false} ScaledSize(m: nat, k: nat)
    ensures Scaled(m, k) >= m && (k > 0 ==> Scaled(m, k) >= 10 * m) && (k > 0 && m > 0 ==> Scaled(m, k) >= 9 * m + k)
    decreases k
  {
    if k > 0 { ScaledSize(m * 10, k - 1); }
  }

  /** No 64-bit overflow up to 2^64 / 9, which is far above any amount of money. */
  lemma AmountFits(n: nat)
    ensures Compressed(n) <= 9 * n
    ensures n <= (U64 - 1) / 9 ==> Compressed(n) < U64
  {
    if n > 0 {
      StripKeeps(n, 0);
      var (m, e) := Strip(n, 0);
      PackSize(m, e);
      ScaledSize(m, e);
    }
  }

  method CompressAmount(n0: nat) returns (x: nat)
    requires n0 < U64
    ensures x == Wrap(Compressed(n0), U64)
  {
    hide Mod10, Div10, Wrap;
    if n0 == 0 {
      WrapSmall(0, U64);
      return 0;
    }
    StripKeeps(n0, 0);
    var n, e := n0, 0;
    while Mod10(n) == 0 && e < 9
      invariant 0 < n <= n0 && 0 <= e <= 9 && Strip(n, e) == Strip(n0, 0)
      decreases 9 - e
    {
      Digits(n);
      n := Div10(n);
      e := e + 1;
    }
    Digits(n);
    if e < 9 {
      var d := Mod10(n);
      assert 1 <= d <= 9;
      n := Div10(n);
      return Wrap(1 + (n * 9 + d - 1) * 10 + e, U64);
    } else {
      return Wrap(1 + (n - 1) * 10 + 9, U64);
    }
  }

  method DecompressAmount(x0: nat) returns (n: nat)
    requires x0 < U64
    ensures n == Wrap(Decompressed(x0), U64)
  {
    hide Mod10, Div10, Wrap;
    WrapSmall(0, U64);
    if x0 == 0 { return 0; }
    var x: nat := x0 - 1;
    Digits(x);
    var e: nat := Mod10(x);
    x := Div10(x);
    if e < 9 {
      var d := x % 9 + 1;
      x := x / 9;
      n := x * 10 + d;
    } else {
      n := x + 1;
    }
    assert n < U64 by { UnpackSmall(x0); }
    ghost var full := n;
    WrapSmall(n, U64);
    while e != 0
      invariant full >= 0 && n == Wrap(full, U64) && Scaled(full, e) == Decompressed(x0)
      decreases e
    {
      WrapTen(full, U64);
      n := Wrap(n * 10, U64);
      full := full * 10;
      e := e - 1;
    }
  }

  lemma UnpackSmall(x: nat)
    requires 0 < x
    ensures Unpack(x).0 <= x + 1
  {}

  lemma WrapTen(full: nat, m: nat)
    requires m > 0
    ensures Wrap(Wrap(full, m) * 10, m) == Wrap(full * 10, m)
  {
    var q, r := full / m, full % m;
    assert full == r + q * m;
    assert full * 10 == (r * 10) + (q * 10) * m;
    P.ModAdd(r * 10, m, q * 10);
  }

  // ---------------------------------------------------------------- scripts

  const OP_DUP: Byte := 0x76
  const OP_HASH160: Byte := 0xa9
  const OP_EQUAL: Byte := 0x87
  const OP_EQUALVERIFY: Byte := 0x88
  const OP_CHECKSIG: Byte := 0xac

  type Bytes = seq<Byte>

  /** The elliptic curve: which 65-byte keys are fully valid, and what a 33-byte key decompresses to. */
  datatype Curve = Curve(valid: Bytes -> bool, decompress: Bytes -> Option<Bytes>)

  /** Decompression gives back a valid key from its first coordinate and the parity of the second. */
  ghost predicate Sound(curve: Curve) {
    && (forall p: Bytes :: |p| == 65 && p[0] == 4 && curve.valid(p) ==> curve.decompress([2 + Parity(p[64])] + p[1..33]) == Some(p))
    && (forall p: Bytes :: curve.decompress(p).Some? ==> |curve.decompress(p).value| == 65)
  }

  function Parity(b: Byte): (r: int)
    ensures 0 <= r <= 1
  {
    b % 2
  }

  predicate IsToKeyID(s: Bytes) {
    |s| == 25 && s[0] == OP_DUP && s[1] == OP_HASH160 && s[2] == 20 && s[23] == OP_EQUALVERIFY && s[24] == OP_CHECKSIG
  }

  predicate IsToScriptID(s: Bytes) { |s| == 23 && s[0] == OP_HASH160 && s[1] == 20 && s[22] == OP_EQUAL }

  predicate IsToCompressedKey(s: Bytes) {
    |s| == 35 && s[0] == 33 && s[34] == OP_CHECKSIG && (s[1] == 2 || s[1] == 3)
  }

  predicate IsToFullKey(curve: Curve, s: Bytes) {
    |s| == 67 && s[0] == 65 && s[66] == OP_CHECKSIG && s[1] == 4 && curve.valid(s[1..66])
  }

  function Compress(curve: Curve, s: Bytes): Option<Bytes> {
    if IsToKeyID(s) then Some([0] + s[3..23])
    else if IsToScriptID(s) then Some([1] + s[2..22])
    else if IsToCompressedKey(s) then Some([s[1]] + s[2..34])
    else if IsToFullKey(curve, s) then Some([4 + Parity(s[65])] + s[2..34])
    else None
  }

  function GetSpecialSize(nSize: nat): nat {
    if nSize <= 1 then 20 else if nSize <= 5 then 32 else 0
  }

  /** None leaves the script as it is. */
  function Decompress(curve: Curve, nSize: nat, vch: Bytes): Option<Bytes>
    requires nSize < 6 && |vch| == GetSpecialSize(nSize)
  {
    if nSize == 0 then Some([OP_DUP, OP_HASH160, 20] + vch + [OP_EQUALVERIFY, OP_CHECKSIG])
    else if nSize == 1 then Some([OP_HASH160, 20] + vch + [OP_EQUAL])
    else if nSize <= 3 then Some([33, nSize] + vch + [OP_CHECKSIG])
    else
      var key := curve.decompress([nSize - 2] + vch);
      if key.None? then None else Some([65] + key.value + [OP_CHECKSIG])
  }

  function ScriptBytes(curve: Curve, script: Bytes): Bytes {
    var compr := Compress(curve, script);
    if compr.Some? then compr.value else Encoded((|script| + 6) % U32) + script
  }

  /** Reading into a new, empty script; None when the stream is too short. */
  function ReadScript(curve: Curve, s: Bytes): Option<(Bytes, Bytes)> {
    var r := Decoded(s, U32);
    if r.None? then None
    else
      var (nSize, rest) := r.value;
      if nSize < 6 then
        var n := GetSpecialSize(nSize);
        if |rest| < n then None
        else
          var d := Decompress(curve, nSize, rest[..n]);
          Some((if d.None? then [] else d.value, rest[n..]))
      else if |rest| < nSize - 6 then None
      else Some((rest[..nSize - 6], rest[nSize - 6..]))
  }

  lemma SpecialBack(curve: Curve, script: Bytes)
    requires Sound(curve) && Compress(curve, script).Some?
    ensures var c := Compress(curve, script).value;
            && |c| > 0 && c[0] < 6 && |c[1..]| == GetSpecialSize(c[0])
            && Decompress(curve, c[0], c[1..]) == Some(script)
  {
    var c := Compress(curve, script).value;
    if IsToKeyID(script) {
      assert c[1..] == script[3..23];
      assert script == [OP_DUP, OP_HASH160, 20] + script[3..23] + [OP_EQUALVERIFY, OP_CHECKSIG];
    } else if IsToScriptID(script) {
      assert c[1..] == script[2..22];
      assert script == [OP_HASH160, 20] + script[2..22] + [OP_EQUAL];
    } else {
      assert c[1..] == script[2..34];
      if IsToCompressedKey(script) {
        assert script == [33, script[1]] + script[2..34] + [OP_CHECKSIG];
      } else {
        var key := script[1..66];
        assert key[1..33] == script[2..34] && key[64] == script[65];
        assert script == [65] + key + [OP_CHECKSIG];
      }
    }
  }

  /** A decompressed key is valid and is the one that compresses to these 33 bytes. */
  ghost predicate Faithful(curve: Curve) {
    forall c: Bytes :: |c| == 33 && (c[0] == 2 || c[0] == 3) && curve.decompress(c).Some? ==>
      var p := curve.decompress(c).value;
      |p| == 65 && p[0] == 4 && curve.valid(p) && [2 + Parity(p[64])] + p[1..33] == c
  }

  /** Every script that a special form stands for is stored in that form, in 21 or 33 bytes. */
  lemma SpecialUsed(curve: Curve, nSize: nat, vch: Bytes)
    requires Faithful(curve) && nSize < 6 && |vch| == GetSpecialSize(nSize)
    ensures var s := Decompress(curve, nSize, vch);
            s.Some? ==> Compress(curve, s.value) == Some([nSize] + vch) && ScriptBytes(curve, s.value) == [nSize] + vch
  {
    var s := Decompress(curve, nSize, vch);
    if s.Some? {
      if nSize == 0 {
        assert s.value[3..23] == vch;
      } else if nSize == 1 {
        assert s.value[2..22] == vch;
      } else if nSize <= 3 {
        assert s.value[2..34] == vch;
      } else {
        FullKeyUsed(curve, nSize, vch);
      }
    }
  }

  lemma FullKeyUsed(curve: Curve, nSize: nat, vch: Bytes)
    requires Faithful(curve) && 4 <= nSize < 6 && |vch| == 32 && curve.decompress([nSize - 2] + vch).Some?
    ensures var p := curve.decompress([nSize - 2] + vch).value; Compress(curve, [65] + p + [OP_CHECKSIG]) == Some([nSize] + vch)
  {
    var c := [nSize - 2] + vch;
    var p := curve.decompress(c).value;
    var s := [65] + p + [OP_CHECKSIG];
    assert |p| == 65 && p[0] == 4 && curve.valid(p) && [2 + Parity(p[64])] + p[1..33] == c;
    assert c[0] == nSize - 2 && c[1..] == vch;
    assert ([2 + Parity(p[64])] + p[1..33])[1..] == p[1..33];
    assert s[1..66] == p && s[2..34] == p[1..33];
  }

  lemma Split(a: Bytes, b: Bytes)
    ensures |a + b| == |a| + |b| && (a + b)[..|a|] == a && (a + b)[|a|..] == b
  {}

  lemma SpecialRead(curve: Curve, script: Bytes, rest: Bytes)
    requires Sound(curve) && Compress(curve, script).Some?
    ensures ReadScript(curve, Compress(curve, script).value + rest) == Some((script, rest))
  {
    hide Compress, Sound;
    SpecialBack(curve, script);
    var c := Compress(curve, script).value;
    FirstByte(c[0], c[1..] + rest);
    assert c + rest == [c[0]] + (c[1..] + rest);
    hide Decompress, Decoded;
    Split(c[1..], rest);
  }

  lemma FirstByte(b: Byte, s: Bytes)
    requires b < 128
    ensures Decoded([b] + s, U32) == Some((b, s))
  {
    ReadWritten(b, s, U32);
  }

  lemma PlainRead(curve: Curve, script: Bytes, rest: Bytes)
    requires |script| + 6 < U32
    ensures ReadScript(curve, Encoded(|script| + 6) + script + rest) == Some((script, rest))
  {
    hide Decoded, Encoded, Decompress;
    ReadWritten(|script| + 6, script + rest, U32);
    assert Encoded(|script| + 6) + script + rest == Encoded(|script| + 6) + (script + rest);
    Split(script, rest);
  }

  /** Every script is read back as it was written, in whichever of the forms. */
  lemma ScriptRoundTrip(curve: Curve, script: Bytes, rest: Bytes)
    requires Sound(curve) && |script| + 6 < U32
    ensures ReadScript(curve, ScriptBytes(curve, script) + rest) == Some((script, rest))
  {
    hide Compress, Encoded, ReadScript, Sound;
    if Compress(curve, script).Some? {
      SpecialRead(curve, script, rest);
    } else {
      PlainRead(curve, script, rest);
    }
  }

  // ---------------------------------------------------------------- outputs

  /** CTxOutCompressor; the amount is converted to an unsigned one. */
  function TxOutBytes(curve: Curve, o: TxOut): Bytes {
    Encoded(Wrap(Compressed(o.nValue % U64), U64)) + ScriptBytes(curve, o.scriptPubKey)
  }

  function ReadTxOut(curve: Curve, s: Bytes): Option<(TxOut, Bytes)> {
    var r := Decoded(s, U64);
    if r.None? then None
    else
      var t := ReadScript(curve, r.value.1);
      if t.None? then None
      else Some((TxOut(ToInt64(Wrap(Decompressed(r.value.0), U64)), t.value.0), t.value.1))
  }

  function ToInt64(n: nat): int { if n < U64 / 2 then n else n - U64 }

  predicate Storable(o: TxOut) { 0 <= o.nValue <= (U64 - 1) / 9 && |o.scriptPubKey| + 6 < U32 }

  lemma TxOutRoundTrip(curve: Curve, o: TxOut, rest: Bytes)
    requires Sound(curve) && Storable(o)
    ensures ReadTxOut(curve, TxOutBytes(curve, o) + rest) == Some((o, rest))
  {
    hide Sound, Compressed, Decompressed, Encoded, Decoded, ScriptBytes, ReadScript, Wrap;
    var x := Compressed(o.nValue);
    AmountFits(o.nValue);
    AmountRoundTrip(o.nValue);
    WrapSmall(x, U64);
    WrapSmall(o.nValue, U64);
    ReadWritten(x, ScriptBytes(curve, o.scriptPubKey) + rest, U64);
    ScriptRoundTrip(curve, o.scriptPubKey, rest);
    assert TxOutBytes(curve, o) + rest == Encoded(x) + (ScriptBytes(curve, o.scriptPubKey) + rest);
  }
}
