/** Variable-length integers: base-128 digits, most significant first, one subtracted from all but the
    last so that every number has exactly one encoding. */
module VarInt {
  import opened Options
  import opened Coins
  import P = Products

  function Digit(n: nat): nat { n % 128 }

  function Above(n: nat): nat { n / 128 }

  function Wrap(n: nat, m: nat): nat
    requires m > 0
  {
    n % m
  }

  lemma DigitsOf(n: nat)
    ensures Digit(n) < 128 && Above(n) * 128 + Digit(n) == n
    ensures n <= 127 ==> Digit(n) == n
    ensures n > 127 ==> 0 < Above(n) < n
  {}

  lemma DigitsAre(a: nat, d: nat)
    requires d < 128
    ensures Above(a * 128 + d) == a && Digit(a * 128 + d) == d
  {}

  lemma ByteDigit(b: Byte)
    ensures Digit(b) == if b >= 128 then b - 128 else b
  {}

  /** The digits before the last one, all with the continuation bit. */
  function High(n: nat): seq<Byte> {
    DigitsOf(n);
    if n <= 127 then [n + 128] else High(Above(n) - 1) + [Digit(n) + 128]
  }

  function Encoded(n: nat): (s: seq<Byte>)
    ensures |s| > 0
  {
    DigitsOf(n);
    if n <= 127 then [n] else High(Above(n) - 1) + [Digit(n)]
  }

  /** The number at the start of a stream, and what follows it; no bound on the number. */
  function ReadFrom(acc: nat, s: seq<Byte>): Option<(nat, seq<Byte>)>
    decreases |s|
  {
    if s == [] then None
    else if s[0] >= 128 then ReadFrom(acc * 128 + Digit(s[0]) + 1, s[1..])
    else Some((acc * 128 + Digit(s[0]), s[1..]))
  }

  /** ReadVarInt into an unsigned type of `m` values. */
  function Decoded(s: seq<Byte>, m: nat): Option<(nat, seq<Byte>)>
    requires m > 0
  {
    var r := ReadFrom(0, s);
    if r.None? then None else Some((Wrap(r.value.0, m), r.value.1))
  }

  function Reversed(s: seq<Byte>): seq<Byte> { if s == [] then [] else [s[|s| - 1]] + Reversed(s[..|s| - 1]) }

  lemma ReversedAppend(s: seq<Byte>, d: Byte)
    ensures Reversed(s + [d]) == [d] + Reversed(s)
  {
    assert (s + [d])[..|s|] == s;
  }

  /** What is still to be put before the digits collected so far. */
  function Rest(n: nat, first: bool): seq<Byte> { if first then Encoded(n) else High(n) }

  lemma RestNext(n: nat, first: bool)
    requires n > 127
    ensures Digit(n) < 128 && 0 < Above(n) < n
    ensures Rest(n, first) == Rest(Above(n) - 1, false) + [if first then Digit(n) else Digit(n) + 128]
  {
    DigitsOf(n);
  }

  /** What is written for a number of a signed type too: a negative one passes for a single digit. */
  function IntBytes(n: int): seq<Byte> { if n < 0 then [n % 128] else Encoded(n) }

  /** The digits are collected last one first, then written in reverse. */
  method WriteVarInt(n0: int) returns (out: seq<Byte>)
    ensures out == IntBytes(n0)
  {
    hide Digit, Above, Rest, Reversed, Encoded, High;
    var tmp: seq<Byte> := [];
    var n := n0;
    assert Reversed(tmp) == [] by { StartOf(0); }
    assert n0 >= 0 ==> Rest(n0, true) == Encoded(n0) by { if n0 >= 0 { StartOf(n0); } }
    while n > 127
      invariant if n0 < 0 then n == n0 && tmp == [] else n >= 0 && Encoded(n0) == Rest(n, tmp == []) + Reversed(tmp)
      decreases n
    {
      RestNext(n, tmp == []);
      var d: Byte := Digit(n) + if |tmp| != 0 then 128 else 0;
      ReversedAppend(tmp, d);
      tmp := tmp + [d];
      n := Above(n) - 1;
    }
    var d: Byte := n % 128 + if |tmp| != 0 then 128 else 0;
    assert n >= 0 ==> Rest(n, tmp == []) == [d] by { if n >= 0 { LastDigit(n, tmp == []); } }
    ReversedAppend(tmp, d);
    tmp := tmp + [d];
    out := WriteReversed(tmp);
  }

  lemma StartOf(n: nat)
    ensures Reversed([]) == [] && Rest(n, true) == Encoded(n)
  {}

  lemma LastDigit(n: nat, first: bool)
    requires n <= 127
    ensures Rest(n, first) == [if first then n else n + 128] && Digit(n) == n
  {}

  method WriteReversed(tmp: seq<Byte>) returns (out: seq<Byte>)
    ensures out == Reversed(tmp)
  {
    out := [];
    var len := |tmp|;
    assert tmp[..len] == tmp;
    while len > 0
      invariant 0 <= len <= |tmp|
      invariant out + Reversed(tmp[..len]) == Reversed(tmp)
    {
      ReversedAppend(tmp[..len - 1], tmp[len - 1]);
      assert tmp[..len - 1] + [tmp[len - 1]] == tmp[..len];
      len := len - 1;
      out := out + [tmp[len]];
    }
  }

  method ReadVarInt(s: seq<Byte>, m: nat) returns (r: Option<(nat, seq<Byte>)>)
    requires m > 0
    ensures r == Decoded(s, m)
  {
    hide Wrap, Digit;
    var n: nat, rest := 0, s;
    ghost var full: nat := 0;
    WrapSmall(0, m);
    while true
      invariant n == Wrap(full, m)
      invariant ReadFrom(full, rest) == ReadFrom(0, s)
      decreases |rest|
    {
      if |rest| == 0 { return None; }
      var chData := rest[0];
      WrapShift(full, Digit(chData), m);
      n := Wrap(n * 128 + Digit(chData), m);
      full := full * 128 + Digit(chData);
      if chData >= 128 {
        WrapNext(full, m);
        n := Wrap(n + 1, m);
        full := full + 1;
        rest := rest[1..];
      } else {
        return Some((n, rest[1..]));
      }
    }
  }

  lemma WrapSmall(n: nat, m: nat)
    requires n < m
    ensures Wrap(n, m) == n
  {}

  lemma WrapShift(full: nat, d: nat, m: nat)
    requires m > 0
    ensures Wrap(Wrap(full, m) * 128 + d, m) == Wrap(full * 128 + d, m)
  {
    var q, r := full / m, full % m;
    assert full == r + q * m;
    assert full * 128 + d == (r * 128 + d) + (q * 128) * m;
    P.ModAdd(r * 128 + d, m, q * 128);
  }

  lemma WrapNext(full: nat, m: nat)
    requires m > 0
    ensures Wrap(Wrap(full, m) + 1, m) == Wrap(full + 1, m)
  {
    var q, r := full / m, full % m;
    assert full + 1 == (r + 1) + q * m;
    P.ModAdd(r + 1, m, q);
  }

  lemma {:induction false} ReadHigh(n: nat, s: seq<Byte>)
    ensures ReadFrom(0, High(n) + s) == ReadFrom(n + 1, s)
    decreases n
  {
    hide Digit, Above;
    DigitsOf(n);
    if n <= 127 {
      ByteDigit(n + 128);
      assert (High(n) + s)[1..] == s;
    } else {
      var d: Byte := Digit(n) + 128;
      ByteDigit(d);
      ReadHigh(Above(n) - 1, [d] + s);
      assert High(n) + s == High(Above(n) - 1) + ([d] + s);
      assert ([d] + s)[1..] == s;
    }
  }

  /** What is written is read back, whatever follows it. */
  lemma ReadWritten(n: nat, s: seq<Byte>, m: nat)
    requires n < m
    ensures Decoded(Encoded(n) + s, m) == Some((n, s))
  {
    hide Encoded, ReadFrom, Wrap;
    EncodedReads(n, s);
    WrapSmall(n, m);
  }

  lemma EncodedReads(n: nat, s: seq<Byte>)
    ensures ReadFrom(0, Encoded(n) + s) == Some((n, s))
  {
    hide Digit, Above;
    DigitsOf(n);
    if n <= 127 {
      assert (Encoded(n) + s)[1..] == s;
    } else {
      var d: Byte := Digit(n);
      ByteDigit(d);
      ReadHigh(Above(n) - 1, [d] + s);
      assert Encoded(n) + s == High(Above(n) - 1) + ([d] + s);
      assert ([d] + s)[1..] == s;
    }
  }

  /** No redundancy: whatever is read is exactly the encoding of the number it stands for. */
  lemma WrittenRead(s: seq<Byte>)
    requires ReadFrom(0, s).Some?
    ensures var (n, rest) := ReadFrom(0, s).value; s == Encoded(n) + rest
  {
    hide Digit, Above;
    ByteDigit(s[0]);
    assert s == [s[0]] + s[1..];
    if s[0] >= 128 { WrittenHigh(Digit(s[0]), s[1..]); }
  }

  lemma {:induction false} WrittenHigh(n: nat, s: seq<Byte>)
    requires ReadFrom(n + 1, s).Some?
    ensures var (k, rest) := ReadFrom(n + 1, s).value; High(n) + s == Encoded(k) + rest
    decreases |s|
  {
    hide Digit, Above;
    ByteDigit(s[0]);
    var k := (n + 1) * 128 + Digit(s[0]);
    DigitsAre(n + 1, Digit(s[0]));
    assert s == [s[0]] + s[1..];
    if s[0] >= 128 {
      WrittenHigh(k, s[1..]);
      assert High(n) + s == High(k) + s[1..];
    } else {
      assert High(n) + s == Encoded(k) + s[1..];
    }
  }

  // ---------------------------------------------------------------- lengths

  /** The first number whose encoding takes more than `j` bytes. */
  function FirstLonger(j: nat): nat { if j == 0 then 0 else 128 * (FirstLonger(j - 1) + 1) }

  lemma HighLength(n: nat)
    ensures |High(n)| == |Encoded(n)|
  {}

  lemma {:induction false} LengthIs(n: nat, j: nat)
    ensures |Encoded(n)| <= j <==> n < FirstLonger(j)
    decreases n
  {
    hide Digit;
    DigitsOf(n);
    if n > 127 && j > 0 {
      HighLength(Above(n) - 1);
      LengthIs(Above(n) - 1, j - 1);
    }
  }

  /** The buffer of WriteVarInt, five bytes for 32 bits and ten for 64, is long enough. */
  lemma BufferFits(n: nat)
    ensures n < 0x1_0000_0000 ==> |Encoded(n)| <= (32 + 6) / 7
    ensures n < 0x1_0000_0000_0000_0000 ==> |Encoded(n)| <= (64 + 6) / 7
  {
    LengthIs(n, 5);
    LengthIs(n, 10);
    assert FirstLonger(3) >= 0x20_0000;
    assert FirstLonger(6) >= 0x400_0000_0000;
    assert FirstLonger(9) >= 0x8000_0000_0000_0000;
  }

  /** Of two byte strings of one length, the first differing byte decides. */
  predicate Less(a: seq<Byte>, b: seq<Byte>)
    requires |a| == |b|
  {
    a != [] && (a[0] < b[0] || (a[0] == b[0] && Less(a[1..], b[1..])))
  }

  lemma {:induction false} LessAppend(a: seq<Byte>, b: seq<Byte>, x: Byte, y: Byte)
    requires |a| == |b|
    ensures Less(a + [x], b + [y]) <==> Less(a, b) || (a == b && x < y)
  {
    if a == [] {
      assert a + [x] == [x] && b + [y] == [y];
    } else {
      LessAppend(a[1..], b[1..], x, y);
      assert (a + [x])[1..] == a[1..] + [x] && (b + [y])[1..] == b[1..] + [y];
      assert a == b <==> a[0] == b[0] && a[1..] == b[1..];
    }
  }

  /** Encodings of one length are ordered as their numbers are. */
  lemma {:induction false} HighOrder(m: nat, n: nat)
    requires m < n && |High(m)| == |High(n)|
    ensures Less(High(m), High(n))
    decreases n
  {
    DigitsOf(m);
    DigitsOf(n);
    OrderStep(m, n);
    if m <= 127 {
      assert High(m) == [] + [m + 128] && High(n) == [] + [n + 128];
      LessAppend([], [], m + 128, n + 128);
    } else {
      if Above(m) < Above(n) { HighOrder(Above(m) - 1, Above(n) - 1); }
      LessAppend(High(Above(m) - 1), High(Above(n) - 1), Digit(m) + 128, Digit(n) + 128);
    }
  }

  lemma OrderStep(m: nat, n: nat)
    requires m < n
    ensures Above(m) < Above(n) || (Above(m) == Above(n) && Digit(m) < Digit(n))
  {}

  lemma EncodedOrder(m: nat, n: nat)
    requires m < n && |Encoded(m)| == |Encoded(n)|
    ensures Less(Encoded(m), Encoded(n))
  {
    DigitsOf(m);
    DigitsOf(n);
    OrderStep(m, n);
    if m <= 127 {
      assert Encoded(m) == [] + [m] && Encoded(n) == [] + [n];
      LessAppend([], [], m, n);
    } else {
      if Above(m) < Above(n) { HighOrder(Above(m) - 1, Above(n) - 1); }
      LessAppend(High(Above(m) - 1), High(Above(n) - 1), Digit(m), Digit(n));
    }
  }

  /** Two numbers with no such bound between them take the same number of bytes, and one more if the
      greater one is at most double. */
  lemma LengthGap(a: nat, b: nat)
    requires a <= b <= 2 * a
    ensures |Encoded(b)| == |Encoded(a)| + if exists j: nat :: a < FirstLonger(j) <= b then 1 else 0
  {
    var j := |Encoded(a)|;
    LengthIs(a, j - 1);
    LengthIs(a, j);
    LengthIs(b, j);
    LengthIs(b, j + 1);
    if i: nat :| a < FirstLonger(i) <= b {
      LengthIs(a, i);
      LengthIs(b, i);
    }
    LengthIs(b, j - 1);
  }
}
