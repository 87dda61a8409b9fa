/** Base-58 text for byte strings. */
module Base58 {
  import opened Options
  import opened Products
  import opened Radix

  type Bytes = s: Digits | Below(s, 256) witness []

  /** pszBase58 */
  function Alphabet(): string { "123456789" + "ABCDEFGH" + "JKLMN" + "PQRSTUVWXYZ" + "abcdefghijk" + "mnopqrstuvwxyz" }

  lemma AlphabetSize()
    ensures |Alphabet()| == 58
  {}

  /** The position of a character, 58 for one outside of the alphabet. */
  function IndexFrom(ch: char, i: nat): (r: nat)
    requires i <= |Alphabet()|
    ensures i <= r <= |Alphabet()| == 58 && (r < 58 ==> Alphabet()[r] == ch) && forall j :: i <= j < r ==> Alphabet()[j] != ch
    decreases |Alphabet()| - i
  {
    hide Alphabet;
    AlphabetSize();
    if i == |Alphabet()| || Alphabet()[i] == ch then i else IndexFrom(ch, i + 1)
  }

  function Index(ch: char): nat { IndexFrom(ch, 0) }

  predicate IsSpace(ch: char) { ch in " \t\n\r" || ch as int == 11 || ch as int == 12 }

  function Letter(d: nat): char
    requires d < 58
  {
    hide Alphabet;
    AlphabetSize();
    Alphabet()[d]
  }

  /** All 58 characters are different, and none is a space. */
  lemma AlphabetGood(d: nat)
    requires d < 58
    ensures Index(Letter(d)) == d && !IsSpace(Letter(d)) && (Letter(d) == '1' <==> d == 0)
  {
    hide Alphabet;
    AlphabetSorted(d);
    AlphabetSorted(Index(Letter(d)));
    AlphabetSorted(0);
  }

  predicate IsLetterOrDigit(ch: char) { '0' <= ch <= '9' || 'A' <= ch <= 'Z' || 'a' <= ch <= 'z' }

  /** The alphabet: letters and digits but 0, O, I and l, in the order of their codes. */
  lemma AlphabetIs(ch: char, d: nat, e: nat)
    ensures Index(ch) < 58 <==> IsLetterOrDigit(ch) && ch != '0' && ch != 'O' && ch != 'I' && ch != 'l'
    ensures d < e < 58 ==> Letter(d) < Letter(e)
  {
    hide Alphabet;
    AlphabetSize();
    if Index(ch) < 58 { AlphabetSorted(Index(ch)); }
    if IsLetterOrDigit(ch) && ch != '0' && ch != 'O' && ch != 'I' && ch != 'l' {
      AlphabetSorted(Position(ch));
      assert Alphabet()[Position(ch)] == ch;
    }
    if d < e < 58 {
      AlphabetSorted(d);
      AlphabetSorted(e);
    }
  }

  /** The inverse of `Code`. */
  function Position(ch: char): (d: nat)
    requires IsLetterOrDigit(ch) && ch != '0' && ch != 'O' && ch != 'I' && ch != 'l'
    ensures d < 58 && Code(d) == ch as int
  {
    var c := ch as int;
    if ch <= '9' then c - 49
    else if ch <= 'H' then c - 65 + 9
    else if ch <= 'N' then c - 74 + 17
    else if ch <= 'Z' then c - 80 + 22
    else if ch <= 'k' then c - 97 + 33
    else c - 109 + 44
  }

  /** The code of a character as a formula, to compare characters by. */
  function Code(d: nat): nat {
    if d < 9 then 49 + d
    else if d < 17 then 65 + (d - 9)
    else if d < 22 then 74 + (d - 17)
    else if d < 33 then 80 + (d - 22)
    else if d < 44 then 97 + (d - 33)
    else 109 + (d - 44)
  }

  lemma Digits19(d: nat)
    requires d < 9
    ensures "123456789"[d] as int == 49 + d
  {}

  lemma LettersAH(d: nat)
    requires d < 8
    ensures "ABCDEFGH"[d] as int == 65 + d
  {}

  lemma LettersJN(d: nat)
    requires d < 5
    ensures "JKLMN"[d] as int == 74 + d
  {}

  lemma LettersPZ(d: nat)
    requires d < 11
    ensures "PQRSTUVWXYZ"[d] as int == 80 + d
  {}

  lemma LettersAK(d: nat)
    requires d < 11
    ensures "abcdefghijk"[d] as int == 97 + d
  {}

  lemma LettersMZ(d: nat)
    requires d < 14
    ensures "mnopqrstuvwxyz"[d] as int == 109 + d
  {}

  lemma SixParts(a: string, b: string, c: string, e: string, f: string, g: string, d: nat)
    requires |a| == 9 && |b| == 8 && |c| == 5 && |e| == 11 && |f| == 11 && |g| == 14 && d < 58
    ensures var s := a + b + c + e + f + g;
            |s| == 58 && s[d] == if d < 9 then a[d] else if d < 17 then b[d - 9] else if d < 22 then c[d - 17]
                                 else if d < 33 then e[d - 22] else if d < 44 then f[d - 33] else g[d - 44]
  {}

  lemma AlphabetSorted(d: nat)
    requires d < 58
    ensures |Alphabet()| == 58 && Alphabet()[d] as int == Code(d)
  {
    SixParts("123456789", "ABCDEFGH", "JKLMN", "PQRSTUVWXYZ", "abcdefghijk", "mnopqrstuvwxyz", d);
    if d < 9 { Digits19(d); }
    else if d < 17 { LettersAH(d - 9); }
    else if d < 22 { LettersJN(d - 17); }
    else if d < 33 { LettersPZ(d - 22); }
    else if d < 44 { LettersAK(d - 33); }
    else { LettersMZ(d - 44); }
  }

  function Letters(s: Digits): string
    requires Below(s, 58)
  {
    seq(|s|, i requires 0 <= i < |s| => Letter(s[i]))
  }

  function Indices(s: string): Digits { seq(|s|, i requires 0 <= i < |s| => Index(s[i])) }

  // ---------------------------------------------------------------- what the two functions compute

  function Encoded(b: Bytes): string {
    DigitsOfAre(58, Val(256, b));
    Letters(Zeros(LeadingZeros(b)) + DigitsOf(58, Val(256, b)))
  }

  /** The number of characters before the first space. */
  function TokenEnd(s: string): (n: nat)
    ensures n <= |s|
  {
    if s == "" || IsSpace(s[0]) then 0 else 1 + TokenEnd(s[1..])
  }

  function SpaceEnd(s: string): (n: nat)
    ensures n <= |s|
  {
    if s == "" || !IsSpace(s[0]) then 0 else 1 + SpaceEnd(s[1..])
  }

  /** The text without leading spaces, and its first word. */
  function Body(s: string): string { s[SpaceEnd(s)..] }

  function Token(s: string): string { Body(s)[..TokenEnd(Body(s))] }

  predicate OnlySpaces(s: string) { forall i :: 0 <= i < |s| ==> IsSpace(s[i]) }

  function Decoded(s: string): Option<Bytes> {
    var digits := Indices(Token(s));
    if !Below(digits, 58) || !OnlySpaces(Body(s)[TokenEnd(Body(s))..]) then None
    else
      DigitsOfAre(256, Val(58, digits));
      Some(Zeros(LeadingZeros(digits)) + DigitsOf(256, Val(58, digits)))
  }

  // ---------------------------------------------------------------- the two are inverse

  lemma {:induction false} TokenAll(s: string, t: string)
    requires (forall i :: 0 <= i < |s| ==> !IsSpace(s[i])) && (t == "" || IsSpace(t[0]))
    ensures TokenEnd(s + t) == |s|
  {
    if s == "" {
      assert s + t == t;
    } else {
      assert (s + t)[1..] == s[1..] + t;
      TokenAll(s[1..], t);
    }
  }

  lemma {:induction false} TokenSplit(s: string)
    ensures var n := TokenEnd(s); (forall i :: 0 <= i < n ==> !IsSpace(s[i])) && (n < |s| ==> IsSpace(s[n]))
  {
    if s != "" && !IsSpace(s[0]) {
      TokenSplit(s[1..]);
      forall i | 0 <= i < TokenEnd(s) ensures !IsSpace(s[i]) { if i > 0 { assert s[i] == s[1..][i - 1]; } }
    }
  }

  lemma IndicesOfLetters(s: Digits)
    requires Below(s, 58)
    ensures Indices(Letters(s)) == s && (forall i :: 0 <= i < |s| ==> !IsSpace(Letters(s)[i]))
  {
    forall i | 0 <= i < |s| ensures Index(Letters(s)[i]) == s[i] && !IsSpace(Letters(s)[i]) { AlphabetGood(s[i]); }
  }

  lemma LettersOfIndices(s: string)
    requires Below(Indices(s), 58)
    ensures Letters(Indices(s)) == s
  {
    hide Alphabet;
    AlphabetSize();
    forall i | 0 <= i < |s| ensures Letters(Indices(s))[i] == s[i] { assert Indices(s)[i] < 58; }
  }

  lemma CanonicalSplit(n: nat, s: Digits)
    requires Canonical(s)
    ensures var t := Zeros(n) + s; LeadingZeros(t) == n && t[n..] == s
  {
    LeadingZerosAre(Zeros(n) + s, n);
  }

  /** Decoding gives back every byte string that is encoded. */
  lemma DecodeEncoded(b: Bytes)
    ensures Decoded(Encoded(b)) == Some(b)
  {
    hide Val, DigitsOf, Canonical, LeadingZeros, Letters, Indices;
    var z, v := LeadingZeros(b), Val(256, b);
    DigitsOfAre(58, v);
    var digits := Zeros(z) + DigitsOf(58, v);
    var s := Encoded(b);
    IndicesOfLetters(digits);
    assert s == Letters(digits);
    LettersLength(digits);
    TokenAll(s, "");
    assert s + "" == s;
    NoLeadingSpace(s);
    assert Token(s) == s && Body(s)[TokenEnd(Body(s))..] == "";
    ValZeros(58, z, DigitsOf(58, v));
    CanonicalSplit(z, DigitsOf(58, v));
    // back to bytes
    DigitsOfAre(256, v);
    StrippedUnique(256, b, DigitsOf(256, v));
    LeadingZerosSplit(b);
  }

  lemma LettersLength(s: Digits)
    requires Below(s, 58)
    ensures |Letters(s)| == |s|
  {}

  lemma NoLeadingSpace(s: string)
    requires s != "" ==> !IsSpace(s[0])
    ensures Body(s) == s
  {}

  /** Encoding gives back every text that decodes, but for the spaces around it. */
  lemma EncodeDecoded(s: string)
    requires Decoded(s).Some?
    ensures Encoded(Decoded(s).value) == Token(s)
    ensures var n := SpaceEnd(s);
            s == s[..n] + Token(s) + s[n + |Token(s)|..] && OnlySpaces(s[..n]) && OnlySpaces(s[n + |Token(s)|..])
  {
    Surroundings(s);
    hide Val, DigitsOf, Canonical, LeadingZeros, Letters, Indices, Token, Body;
    var digits := Indices(Token(s));
    var z, v := LeadingZeros(digits), Val(58, digits);
    DigitsOfAre(256, v);
    var b := Decoded(s).value;
    CanonicalSplit(z, DigitsOf(256, v));
    ValZeros(256, z, DigitsOf(256, v));
    DigitsOfAre(58, v);
    StrippedUnique(58, digits, DigitsOf(58, v));
    LeadingZerosSplit(digits);
    LettersOfIndices(Token(s));
  }

  lemma {:induction false} SpacesSplit(s: string)
    ensures OnlySpaces(s[..SpaceEnd(s)]) && (SpaceEnd(s) < |s| ==> !IsSpace(s[SpaceEnd(s)]))
  {
    if s != "" && IsSpace(s[0]) {
      SpacesSplit(s[1..]);
      var n := SpaceEnd(s);
      forall i | 0 <= i < n ensures IsSpace(s[i]) { if i > 0 { assert s[i] == s[1..][..n - 1][i - 1]; } }
    }
  }

  lemma Surroundings(s: string)
    requires OnlySpaces(Body(s)[TokenEnd(Body(s))..])
    ensures var n := SpaceEnd(s);
            && n + |Token(s)| <= |s| && s == s[..n] + Token(s) + s[n + |Token(s)|..]
            && OnlySpaces(s[..n]) && OnlySpaces(s[n + |Token(s)|..])
  {
    hide SpaceEnd, TokenEnd, OnlySpaces;
    SpacesSplit(s);
    ThreeParts(s, SpaceEnd(s), TokenEnd(Body(s)));
  }

  lemma ThreeParts(s: string, n: nat, m: nat)
    requires n + m <= |s|
    ensures s == s[..n] + s[n..][..m] + s[n + m..] && s[n..][m..] == s[n + m..]
  {}

  // ---------------------------------------------------------------- the buffers are large enough

  lemma Pow256()
    ensures Pow(256, 0) == 1 && Pow(256, 1) == 256 && Pow(256, 2) == 65536 && Pow(256, 3) == 16777216 && Pow(256, 4) == 4294967296
  {}

  lemma Pow58()
    ensures Pow(58, 0) == 1 && Pow(58, 1) == 58 && Pow(58, 2) == 3364 && Pow(58, 3) == 195112 && Pow(58, 4) == 11316496
  {}

  lemma PowMore(b: nat, x: nat, y: nat, px: nat, py: nat)
    requires Pow(b, x) == px && Pow(b, y) == py
    ensures Pow(b, x + y) == px * py
  {
    PowAdd(b, x, y);
  }

  lemma PowersOf256()
    ensures Pow(256, 5) == 1099511627776 && Pow(256, 6) == 281474976710656 && Pow(256, 7) == 72057594037927936 && Pow(256, 8) == 18446744073709551616
  {
    hide Pow;
    Pow256();
    PowMore(256, 4, 1, 4294967296, 256);
    PowMore(256, 4, 2, 4294967296, 65536);
    PowMore(256, 4, 3, 4294967296, 16777216);
    PowMore(256, 4, 4, 4294967296, 4294967296);
  }

  lemma PowersOf58()
    ensures Pow(58, 5) == 656356768 && Pow(58, 6) == 38068692544 && Pow(58, 7) == 2207984167552 && Pow(58, 8) == 128063081718016
    ensures Pow(58, 9) == 7427658739644928 && Pow(58, 10) == 430804206899405824 && Pow(58, 11) == 24986644000165537792
  {
    hide Pow;
    Pow58();
    PowMore(58, 4, 1, 11316496, 58);
    PowMore(58, 4, 2, 11316496, 3364);
    PowMore(58, 4, 3, 11316496, 195112);
    PowMore(58, 4, 4, 11316496, 11316496);
    PowMore(58, 8, 1, 128063081718016, 58);
    PowMore(58, 8, 2, 128063081718016, 3364);
    PowMore(58, 8, 3, 128063081718016, 195112);
  }

  lemma {:induction false} PowGrows(b: nat, d: nat, e: nat)
    requires b > 0 && d <= e
    ensures Pow(b, d) <= Pow(b, e)
    decreases e
  {
    hide Times;
    if d < e {
      PowGrows(b, d, e - 1);
      PowPositive(b, e - 1);
      TimesPositive(b, Pow(b, e - 1));
    }
  }

  /** Bounds on factors bound the product. */
  lemma PowStep(a: nat, x: nat, y: nat, b: nat, u: nat, v: nat)
    requires Pow(a, x) <= Pow(b, u) && Pow(a, y) <= Pow(b, v)
    ensures Pow(a, x + y) <= Pow(b, u + v)
  {
    hide Pow, Times;
    PowAdd(a, x, y);
    PowAdd(b, u, v);
    TimesOrder(Pow(a, x), Pow(a, y), Pow(b, v));
    TimesComm(Pow(a, x), Pow(b, v));
    TimesComm(Pow(b, u), Pow(b, v));
    TimesOrder(Pow(b, v), Pow(a, x), Pow(b, u));
  }

  function EncodeSize(n: nat): nat { n * 138 / 100 + 1 }

  /** n bytes always fit into n * 138 / 100 + 1 digits of base 58. */
  lemma {:induction false} EncodeFits(n: nat)
    ensures Pow(256, n) <= Pow(58, EncodeSize(n))
  {
    hide Pow;
    if n < 8 {
      Pow256();
      Pow58();
      PowersOf256();
      PowersOf58();
    } else {
      EncodeFits(n - 8);
      PowersOf256();
      PowersOf58();
      PowStep(256, 8, n - 8, 58, 11, EncodeSize(n - 8));
      PowGrows(58, 11 + EncodeSize(n - 8), EncodeSize(n));
    }
  }

  function DecodeSize(n: nat): nat { n * 733 / 1000 + 1 }

  /** The best step with small powers: fifteen digits fit into eleven bytes. */
  lemma FifteenInEleven()
    ensures Pow(58, 15) <= Pow(256, 11)
  {
    hide Pow;
    PowersOf256();
    Pow256();
    Pow58();
    PowersOf58();
    PowMore(58, 11, 4, 24986644000165537792, 11316496);
    PowMore(256, 8, 3, 18446744073709551616, 16777216);
  }

  /** A better one: 71 digits fit into 52 bytes. */
  lemma SeventyOneInFiftyTwo()
    ensures Pow(58, 71) <= Pow(256, 52)
  {
    hide Pow;
    PowersOf256();
    PowersOf58();
    Pow256();
    PowMore(58, 11, 11, 24986644000165537792, 24986644000165537792);
    var p22 := 24986644000165537792 * 24986644000165537792;
    PowMore(58, 22, 22, p22, p22);
    PowMore(58, 44, 22, p22 * p22, p22);
    PowMore(58, 66, 5, p22 * p22 * p22, 656356768);
    var q8 := 18446744073709551616;
    PowMore(256, 8, 8, q8, q8);
    PowMore(256, 16, 16, q8 * q8, q8 * q8);
    PowMore(256, 32, 16, q8 * q8 * q8 * q8, q8 * q8);
    PowMore(256, 48, 4, q8 * q8 * q8 * q8 * q8 * q8, 4294967296);
  }

  /** Fewer than fifteen digits. */
  lemma FewDigits(n: nat)
    requires n < 15
    ensures n > 0 ==> Pow(58, n) <= Pow(256, (n * 733 - 20) / 1000 + 1)
    ensures Pow(58, 0) <= Pow(256, 0)
  {
    hide Pow;
    Pow256();
    Pow58();
    PowersOf256();
    PowersOf58();
    var q8 := 18446744073709551616;
    PowMore(256, 8, 1, q8, 256);
    PowMore(256, 8, 2, q8, 65536);
    PowMore(256, 8, 3, q8, 16777216);
    PowMore(58, 11, 1, 24986644000165537792, 58);
    PowMore(58, 11, 2, 24986644000165537792, 3364);
    PowMore(58, 11, 3, 24986644000165537792, 195112);
  }

  /** Groups of fifteen, up to four of them, lose less than the slack of the first. */
  lemma {:induction false} SomeDigits(n: nat, j: nat)
    requires n < 15 && j <= 4
    ensures n > 0 ==> Pow(58, 15 * j + n) <= Pow(256, 11 * j + (n * 733 - 20) / 1000 + 1)
    ensures Pow(58, 15 * j) <= Pow(256, 11 * j)
    decreases j
  {
    hide Pow;
    FewDigits(n);
    if j > 0 {
      SomeDigits(n, j - 1);
      FifteenInEleven();
      PowStep(58, 15, 15 * (j - 1), 256, 11, 11 * (j - 1));
      if n > 0 { PowStep(58, 15, 15 * (j - 1) + n, 256, 11, 11 * (j - 1) + (n * 733 - 20) / 1000 + 1); }
    }
  }

  /** n digits of base 58 always fit into n * 733 / 1000 + 1 bytes. */
  lemma {:induction false} DecodeFits(n: nat)
    ensures Pow(58, n) <= Pow(256, DecodeSize(n))
  {
    hide Pow;
    if n < 71 {
      var j, r := n / 15, n % 15;
      SomeDigits(r, j);
      if r > 0 {
        PowGrows(256, 11 * j + (r * 733 - 20) / 1000 + 1, DecodeSize(n));
      } else {
        PowGrows(256, 11 * j, DecodeSize(n));
      }
    } else {
      DecodeFits(n - 71);
      SeventyOneInFiftyTwo();
      PowStep(58, 71, n - 71, 256, 52, DecodeSize(n - 71));
      PowGrows(256, 52 + DecodeSize(n - 71), DecodeSize(n));
    }
  }

  // ---------------------------------------------------------------- the conversions in place

  /** "buf = buf * factor + ch": the assert that nothing is carried out holds when there is room. */
  method MultiplyAdd(buf: array<nat>, base: nat, factor: nat, ch: nat)
    requires base > 0 && Below(buf[..], base)
    requires Times(Val(base, buf[..]), factor) + ch < Pow(base, buf.Length)
    modifies buf
    ensures Below(buf[..], base) && Val(base, buf[..]) == Times(old(Val(base, buf[..])), factor) + ch
  {
    hide Times, Div, Mod, Val, Stepped, Below;
    ghost var s := buf[..];
    var carry := ch;
    StepStart(base, s, factor, ch);
    var k := buf.Length;
    while k > 0
      invariant 0 <= k <= buf.Length && carry >= 0 && Stepped(base, s, buf[..], k, factor, ch, carry)
    {
      ghost var t := buf[..];
      StepNext(base, s, t, k, factor, ch, carry);
      assert buf[k - 1] == s[k - 1] by { Untouched(base, s, t, k, factor, ch, carry); }
      k := k - 1;
      carry := carry + Times(factor, buf[k]);
      buf[k] := Mod(carry, base);
      carry := Div(carry, base);
      assert buf[..] == t[k := buf[k]];
    }
    StepEnd(base, s, buf[..], factor, ch, carry);
    assert carry == 0;
    assert Below(buf[..], base) by { SteppedBelow(base, s, buf[..], 0, factor, ch, carry); }
  }

  lemma Untouched(base: nat, s: Digits, t: Digits, k: nat, factor: nat, c: nat, carry: nat)
    requires Stepped(base, s, t, k, factor, c, carry) && k > 0
    ensures t[k - 1] == s[k - 1]
  {
    assert t[..k][k - 1] == s[..k][k - 1];
  }

  lemma SteppedBelow(base: nat, s: Digits, t: Digits, k: nat, factor: nat, c: nat, carry: nat)
    requires Stepped(base, s, t, k, factor, c, carry)
    ensures Below(t, base)
  {}

  /** There is room for one more digit as long as there is for all of them. */
  lemma RoomForNext(base: nat, factor: nat, s: Digits, i: nat, room: nat)
    requires base > 0 && factor > 0 && i < |s| && Below(s, factor) && Pow(factor, |s|) <= Pow(base, room)
    ensures Times(Val(factor, s[..i]), factor) + s[i] < Pow(base, room)
    ensures Val(factor, s[..i + 1]) == Times(Val(factor, s[..i]), factor) + s[i]
  {
    hide Times, Val;
    assert s[..i + 1] == s[..i] + [s[i]];
    ValAppend(factor, s[..i], s[i]);
    ValBound(factor, s[..i + 1]);
    PowGrows(factor, i + 1, |s|);
  }

  method SkipZeros(buf: array<nat>) returns (it: nat)
    ensures it == LeadingZeros(buf[..])
  {
    it := 0;
    while it < buf.Length && buf[it] == 0
      invariant 0 <= it <= buf.Length && forall k :: 0 <= k < it ==> buf[k] == 0
    {
      it := it + 1;
    }
    LeadingZerosAre(buf[..], it);
  }

  method EncodeBase58(vch: Bytes) returns (str: string)
    ensures str == Encoded(vch)
  {
    hide Times, Val, Below, Letters, DigitsOf, EncodeSize, Pow, LeadingZeros, Encoded;
    hide Alphabet;
    var zeroes := 0;
    while zeroes < |vch| && vch[zeroes] == 0
      invariant 0 <= zeroes <= |vch| && forall k :: 0 <= k < zeroes ==> vch[k] == 0
    {
      zeroes := zeroes + 1;
    }
    LeadingZerosAre(vch, zeroes);
    var rest := vch[zeroes..];
    assert Below(rest, 256) by { BytesBelow(vch); BelowRest(vch, zeroes, 256); }
    EncodeFits(|rest|);
    var b58 := new nat[EncodeSize(|rest|)](_ => 0);
    ZerosAre(b58[..], 58);
    NoDigits(256);
    assert rest[..0] == [];
    for i := 0 to |rest|
      invariant Below(b58[..], 58) && Val(58, b58[..]) == Val(256, rest[..i])
    {
      RoomForNext(58, 256, rest, i, b58.Length);
      MultiplyAdd(b58, 58, 256, rest[i]);
    }
    assert rest[..|rest|] == rest;
    var it := SkipZeros(b58);
    EncodedFrom(vch, zeroes, b58[..], it);
    assert b58[..][it..] == b58[it..];
    str := Translate(zeroes, b58, it);
  }

  lemma BytesBelow(b: Bytes)
    ensures Below(b, 256)
  {}

  /** What the leading zeros and the digits of the rest make is the encoding. */
  lemma EncodedFrom(vch: Bytes, zeroes: nat, buf: Digits, it: nat)
    requires zeroes <= |vch| && LeadingZeros(vch) == zeroes && Below(buf, 58) && Val(58, buf) == Val(256, vch[zeroes..])
    requires it <= |buf| && it == LeadingZeros(buf)
    ensures Below(buf[it..], 58) && Below(Zeros(zeroes) + buf[it..], 58) && Letters(Zeros(zeroes) + buf[it..]) == Encoded(vch)
  {
    hide Times, Val, Letters, DigitsOf, LeadingZeros;
    LeadingZerosSplit(vch);
    ValZeros(256, zeroes, vch[zeroes..]);
    DigitsOfAre(58, Val(256, vch));
    StrippedUnique(58, buf, DigitsOf(58, Val(256, vch)));
  }

  method Translate(zeroes: nat, b58: array<nat>, it0: nat) returns (str: string)
    requires it0 <= b58.Length && Below(b58[it0..], 58)
    ensures Below(Zeros(zeroes) + b58[it0..], 58) && str == Letters(Zeros(zeroes) + b58[it0..])
  {
    hide Alphabet;
    AlphabetSize();
    ghost var all := Zeros(zeroes) + b58[it0..];
    assert forall k :: it0 <= k < b58.Length ==> b58[k] == b58[it0..][k - it0];
    str := seq(zeroes, _ => '1');
    AlphabetSorted(0);
    var it := it0;
    while it < b58.Length
      invariant it0 <= it <= b58.Length && |str| == zeroes + it - it0
      invariant forall k :: 0 <= k < |str| ==> str[k] == Letter(all[k])
    {
      str := str + [Alphabet()[b58[it]]];
      it := it + 1;
    }
  }

  lemma BelowRest(s: Digits, n: nat, base: nat)
    requires Below(s, base) && n <= |s|
    ensures Below(s[n..], base) && Below(s[..n], base)
  {}

  lemma ZerosAre(s: Digits, base: nat)
    requires base > 0 && forall i :: 0 <= i < |s| ==> s[i] == 0
    ensures Below(s, base) && Val(base, s) == 0
  {
    hide Val;
    assert s == Zeros(|s|) + [];
    ValZeros(base, |s|, []);
    NoDigits(base);
  }

  lemma NoDigits(base: nat)
    ensures Val(base, []) == 0
  {}

  lemma {:induction false} SpaceEndIs(s: string, n: nat)
    requires n <= |s| && (forall i :: 0 <= i < n ==> IsSpace(s[i])) && (n < |s| ==> !IsSpace(s[n]))
    ensures SpaceEnd(s) == n
    decreases n
  {
    hide IsSpace;
    if n > 0 { SpaceEndIs(s[1..], n - 1); }
  }

  lemma {:induction false} TokenEndIs(s: string, n: nat)
    requires n <= |s| && (forall i :: 0 <= i < n ==> !IsSpace(s[i])) && (n < |s| ==> IsSpace(s[n]))
    ensures TokenEnd(s) == n
    decreases n
  {
    hide IsSpace;
    if n > 0 { TokenEndIs(s[1..], n - 1); }
  }

  lemma {:induction false} TokenReaches(s: string, n: nat)
    requires n < |s| && forall i :: 0 <= i <= n ==> !IsSpace(s[i])
    ensures TokenEnd(s) > n
    decreases n
  {
    hide IsSpace;
    if n > 0 { TokenReaches(s[1..], n - 1); }
  }

  method SkipSpaces(psz: string, p0: nat) returns (p: nat)
    requires p0 <= |psz|
    ensures p0 <= p <= |psz| && (forall k :: p0 <= k < p ==> IsSpace(psz[k])) && (p < |psz| ==> !IsSpace(psz[p]))
  {
    p := p0;
    while p < |psz| && IsSpace(psz[p])
      invariant p0 <= p <= |psz| && forall k :: p0 <= k < p ==> IsSpace(psz[k])
    {
      p := p + 1;
    }
  }

  /** Processes the characters up to a space or the end; `ok` is false for one outside of the alphabet. */
  method Process(psz: string, p0: nat, b256: array<nat>) returns (p: nat, ok: bool)
    requires p0 <= |psz| && b256.Length == DecodeSize(|psz| - p0) && forall k :: 0 <= k < b256.Length ==> b256[k] == 0
    modifies b256
    ensures p0 <= p <= |psz| && forall k :: p0 <= k < p ==> !IsSpace(psz[k]) && Index(psz[k]) < 58
    ensures ok ==> (p < |psz| ==> IsSpace(psz[p]))
    ensures ok ==> Below(b256[..], 256) && Val(256, b256[..]) == Val(58, Indices(psz[p0..p]))
    ensures !ok ==> p < |psz| && !IsSpace(psz[p]) && Index(psz[p]) == 58
  {
    hide Times, Val, Below, DecodeSize, Pow, Index, IsSpace;
    ZerosAre(b256[..], 256);
    NoDigits(58);
    p, ok := p0, true;
    assert Indices(psz[p0..p]) == [];
    DecodeFits(|psz| - p0);
    while p < |psz| && !IsSpace(psz[p])
      invariant p0 <= p <= |psz| && forall k :: p0 <= k < p ==> !IsSpace(psz[k]) && Index(psz[k]) < 58
      invariant Below(b256[..], 256) && Val(256, b256[..]) == Val(58, Indices(psz[p0..p]))
    {
      var ch := Index(psz[p]);
      if ch == 58 { return p, false; }
      IndexBound(psz[p]);
      ghost var ds := Indices(psz[p0..p + 1]);
      assert ds == Indices(psz[p0..p]) + [ch];
      assert ds[..p - p0] == Indices(psz[p0..p]) && ds[..p - p0 + 1] == ds;
      IndicesBelow(psz[p0..p + 1]);
      PowGrows(58, p - p0 + 1, |psz| - p0);
      RoomForNext(256, 58, ds, p - p0, b256.Length);
      MultiplyAdd(b256, 256, 58, ch);
      p := p + 1;
    }
  }

  lemma IndicesBelow(s: string)
    requires forall k :: 0 <= k < |s| ==> Index(s[k]) < 58
    ensures Below(Indices(s), 58)
  {}

  /** psz is a C string: the NUL that ends it is the end of the sequence. */
  method DecodeBase58(psz: string) returns (r: Option<Bytes>)
    ensures r == Decoded(psz)
  {
    hide Times, Val, Below, DigitsOf, DecodeSize, Pow, Index, IsSpace, Decoded, Indices, Canonical, LeadingZeros;
    var start := SkipSpaces(psz, 0);
    var p := start;
    var zeroes := 0;
    OneIsZero();
    while p < |psz| && psz[p] == '1'
      invariant p == start + zeroes <= |psz| && forall k :: start <= k < p ==> psz[k] == '1'
    {
      p := p + 1;
      zeroes := zeroes + 1;
    }
    var b256 := new nat[DecodeSize(|psz| - p)](_ => 0);
    var end, ok := Process(psz, p, b256);
    if !ok {
      BadCharacter(psz, start, end);
      return None;
    }
    var rest := SkipSpaces(psz, end);
    if rest < |psz| {
      GarbageBehind(psz, start, zeroes, end, rest);
      return None;
    }
    ghost var v := Val(58, Indices(psz[p..end]));
    DecodesTo(psz, start, zeroes, end);
    var it := SkipZeros(b256);
    DigitsOfAre(256, v);
    StrippedUnique(256, b256[..], DigitsOf(256, v));
    var vch := CopyOut(zeroes, b256, it);
    r := Some(vch);
  }

  /** Where the parts of the text are: the word from `start` to `end`, with its leading ones. */
  ghost predicate Parsed(psz: string, start: nat, zeroes: nat, end: nat) {
    && start + zeroes <= end <= |psz|
    && (forall k :: 0 <= k < start ==> IsSpace(psz[k]))
    && (forall k :: start <= k < end ==> !IsSpace(psz[k]))
    && (end < |psz| ==> IsSpace(psz[end]))
    && (forall k :: start <= k < start + zeroes ==> psz[k] == '1')
    && (start + zeroes < |psz| ==> psz[start + zeroes] != '1')
    && (forall k :: start + zeroes <= k < end ==> Index(psz[k]) < 58)
  }

  lemma GarbageBehind(psz: string, start: nat, zeroes: nat, end: nat, bad: nat)
    requires Parsed(psz, start, zeroes, end)
    requires start < |psz| ==> !IsSpace(psz[start])
    requires end <= bad < |psz| && !IsSpace(psz[bad])
    ensures Decoded(psz) == None
  {
    hide IsSpace, Index, Indices, Below;
    WordIs(psz, start, end);
    assert psz[bad] == psz[end..][bad - end];
  }

  lemma DecodesTo(psz: string, start: nat, zeroes: nat, end: nat)
    requires Parsed(psz, start, zeroes, end) && (start < |psz| ==> !IsSpace(psz[start]))
    requires forall k :: end <= k < |psz| ==> IsSpace(psz[k])
    ensures Decoded(psz) == Some(Zeros(zeroes) + DigitsOf(256, Val(58, Indices(psz[start + zeroes..end]))))
  {
    hide IsSpace, Index, Indices, Below, Val, DigitsOf, Token, Body, TokenEnd, Canonical;
    WordIs(psz, start, end);
    assert OnlySpaces(psz[end..]);
    DigitsSplit(psz, start, zeroes, end);
    var digits := Indices(Token(psz));
    LeadingZerosSplit(digits);
    ValZeros(58, zeroes, digits[zeroes..]);
  }

  /** The word lies between the two places found. */
  lemma WordIs(psz: string, start: nat, end: nat)
    requires start <= end <= |psz|
    requires (forall k :: 0 <= k < start ==> IsSpace(psz[k])) && (start < |psz| ==> !IsSpace(psz[start]))
    requires (forall k :: start <= k < end ==> !IsSpace(psz[k])) && (end < |psz| ==> IsSpace(psz[end]))
    ensures Token(psz) == psz[start..end] && Body(psz)[TokenEnd(Body(psz))..] == psz[end..]
  {
    hide IsSpace, SpaceEnd, TokenEnd;
    SpaceEndIs(psz, start);
    TokenEndIs(psz[start..], end - start);
    ThreeParts(psz, start, end - start);
  }

  lemma BadCharacter(psz: string, start: nat, bad: nat)
    requires start <= bad < |psz|
    requires (forall k :: 0 <= k < start ==> IsSpace(psz[k])) && (start < |psz| ==> !IsSpace(psz[start]))
    requires (forall k :: start <= k <= bad ==> !IsSpace(psz[k])) && Index(psz[bad]) == 58
    ensures Decoded(psz) == None
  {
    hide IsSpace, SpaceEnd, TokenEnd, Index;
    SpaceEndIs(psz, start);
    var body := Body(psz);
    TokenReaches(body, bad - start);
    assert Indices(Token(psz))[bad - start] == 58;
  }

  lemma DigitsSplit(psz: string, start: nat, zeroes: nat, end: nat)
    requires start + zeroes <= end <= |psz| && Token(psz) == psz[start..end]
    requires (forall k :: start <= k < start + zeroes ==> psz[k] == '1') && (start + zeroes < |psz| ==> psz[start + zeroes] != '1')
    requires forall k :: start + zeroes <= k < end ==> Index(psz[k]) < 58
    ensures var digits := Indices(Token(psz));
            Below(digits, 58) && LeadingZeros(digits) == zeroes && digits[zeroes..] == Indices(psz[start + zeroes..end])
  {
    hide Index;
    OneIsZero();
    var digits := Indices(Token(psz));
    forall i | 0 <= i < |digits| ensures digits[i] == Index(psz[start + i]) {}
    if zeroes < |digits| { OnlyOneIsZero(psz[start + zeroes]); }
    LeadingZerosAre(digits, zeroes);
    assert digits[zeroes..] == Indices(psz[start + zeroes..end]);
  }

  lemma OnlyOneIsZero(ch: char)
    ensures Index(ch) == 0 <==> ch == '1'
  {
    hide Alphabet;
    AlphabetSorted(0);
    OneIsZero();
  }

  method CopyOut(zeroes: nat, b256: array<nat>, it0: nat) returns (vch: Bytes)
    requires it0 <= b256.Length && Below(b256[..], 256)
    ensures vch == Zeros(zeroes) + b256[..][it0..]
  {
    vch := seq(zeroes, _ => 0);
    var it := it0;
    while it < b256.Length
      invariant it0 <= it <= b256.Length && vch == Zeros(zeroes) + b256[it0..it]
    {
      assert b256[..][it] < 256;
      vch := vch + [b256[it]];
      it := it + 1;
    }
  }

  lemma OneIsZero()
    ensures Index('1') == 0 && !IsSpace('1')
  {
    hide Alphabet;
    AlphabetSize();
    AlphabetGood(0);
    AlphabetSorted(0);
  }

  lemma IndexBound(ch: char)
    ensures Index(ch) <= 58
  {}

  // ---------------------------------------------------------------- std::string arguments

  /** The C string of a std::string: what comes before the first NUL. */
  function CString(s: string): string { if s == "" || s[0] as int == 0 then "" else [s[0]] + CString(s[1..]) }

  /** The first `k` characters are the C string of `s`. */
  ghost predicate EndsAt(s: string, k: nat) {
    k <= |s| && (forall i :: 0 <= i < k ==> s[i] as int != 0) && (k == |s| || s[k] as int == 0)
  }

  lemma {:induction false} CStringEnds(s: string, k: nat)
    requires EndsAt(s, k)
    ensures CString(s) == s[..k]
  {
    if k > 0 {
      CStringEnds(s[1..], k - 1);
      assert s[..k] == [s[0]] + s[1..][..k - 1];
    }
  }

  lemma EncodedEnds(b: Bytes, s: string)
    requires Encoded(b) <= s && (|Encoded(b)| == |s| || s[|Encoded(b)|] as int == 0)
    ensures EndsAt(s, |Encoded(b)|)
  {
    hide Val, DigitsOf, LeadingZeros, Alphabet;
    DigitsOfAre(58, Val(256, b));
    var digits := Zeros(LeadingZeros(b)) + DigitsOf(58, Val(256, b));
    forall i | 0 <= i < |Encoded(b)| ensures s[i] as int != 0 {
      assert Encoded(b)[i] == Letter(digits[i]);
      AlphabetSorted(digits[i]);
    }
  }

  /** Of a std::string the characters before the first NUL count, so bytes that were encoded come back
      whatever follows one. */
  method DecodeBase58String(str: string) returns (r: Option<Bytes>)
    ensures forall k: nat :: EndsAt(str, k) ==> r == Decoded(str[..k])
    ensures forall b: Bytes :: Encoded(b) <= str && (|Encoded(b)| == |str| || str[|Encoded(b)|] as int == 0) ==> r == Some(b)
  {
    hide Encoded, Decoded;
    r := DecodeBase58(CString(str));
    forall k: nat | EndsAt(str, k) ensures r == Decoded(str[..k]) { CStringEnds(str, k); }
    forall b: Bytes | Encoded(b) <= str && (|Encoded(b)| == |str| || str[|Encoded(b)|] as int == 0) ensures r == Some(b) {
      EncodedEnds(b, str);
      DecodeEncoded(b);
      assert str[..|Encoded(b)|] == Encoded(b);
    }
  }

  // ---------------------------------------------------------------- with a checksum

  /** Hash, of which four bytes are used. */
  type Checksum = Bytes -> Bytes

  ghost predicate FourBytes(h: Checksum) { forall b: Bytes :: |h(b)| >= 4 }

  function Joined(a: Bytes, b: Bytes): Bytes { a + b }

  function EncodedCheck(h: Checksum, b: Bytes): string
    requires |h(b)| >= 4
  {
    Encoded(Joined(b, h(b)[..4]))
  }

  function DecodedCheck(h: Checksum, s: string): Option<Bytes>
    requires forall b: Bytes :: |h(b)| >= 4
  {
    var r := Decoded(s);
    if r.None? || |r.value| < 4 then None
    else
      var n := |r.value| - 4;
      BelowRest(r.value, n, 256);
      var b: Bytes := r.value[..n];
      if h(b)[..4] != r.value[n..] then None else Some(b)
  }

  method EncodeBase58Check(h: Checksum, vchIn: Bytes) returns (str: string)
    requires |h(vchIn)| >= 4
    ensures str == EncodedCheck(h, vchIn)
  {
    var vch := Joined(vchIn, h(vchIn)[..4]);
    str := EncodeBase58(vch);
  }

  /** Whatever is encoded with its checksum passes the check and comes back. */
  lemma DecodeEncodedCheck(h: Checksum, b: Bytes)
    requires FourBytes(h)
    ensures DecodedCheck(h, EncodedCheck(h, b)) == Some(b)
  {
    hide Encoded, Decoded;
    DecodeEncoded(Joined(b, h(b)[..4]));
    var v := Joined(b, h(b)[..4]);
    assert v[..|b|] == b && v[|b|..] == h(b)[..4];
  }

  /** Whatever passes the check is the encoding of what is returned, but for the spaces around it. */
  lemma EncodeDecodedCheck(h: Checksum, s: string)
    requires FourBytes(h) && DecodedCheck(h, s).Some?
    ensures EncodedCheck(h, DecodedCheck(h, s).value) == Token(s)
  {
    hide Encoded, Decoded, Token;
    EncodeDecoded(s);
    var v := Decoded(s).value;
    var b := DecodedCheck(h, s).value;
    assert v == v[..|v| - 4] + v[|v| - 4..];
    assert Joined(b, h(b)[..4]) == v;
  }
}
