/** Fixed-width unsigned integers in an array of 32-bit limbs, as operations modulo 2 to the width. */
module ArithUint {
  import opened Basics
  import opened Limbs
  import opened Products

  // ---------------------------------------------------------------- what the loops keep

  /** The next limb of a multiply-and-add, of which `r` holds the result. */
  lemma AddMulNext(p: seq<Limb>, b: seq<Limb>, x: nat, c: nat, i: nat, r: seq<Limb>)
    requires |p| == |b| == |r| && i < |p| && AddMul(p[i..], b[i..], x, c) == r[i..]
    ensures var n := c + p[i] + Times(x, b[i]);
            n >= 0 && r[i] == Low(n) && AddMul(p[i + 1..], b[i + 1..], x, Carry(n)) == r[i + 1..]
  {
    hide Times, Low, Carry;
    TimesPositive(x, b[i]);
    assert p[i..][1..] == p[i + 1..] && b[i..][1..] == b[i + 1..];
    assert r[i] == r[i..][0] && r[i + 1..] == r[i..][1..];
  }

  lemma AddMulWhole(p: seq<Limb>, b: seq<Limb>, x: nat, c: nat)
    requires |p| == |b|
    ensures var r := AddMul(p, b, x, c); AddMul(p[0..], b[0..], x, c) == r[0..]
  {
    assert p[0..] == p && b[0..] == b;
  }

  /** -n in two's complement. */
  function Inverted(s: seq<Limb>): (r: seq<Limb>)
    ensures |r| == |s|
  {
    seq(|s|, i requires 0 <= i < |s| => BASE - 1 - s[i])
  }

  lemma {:induction false} InvertedValue(s: seq<Limb>)
    ensures Num(Inverted(s)) == Pow2(32 * |s|) - 1 - Num(s)
  {
    hide Pow2;
    Pow2Base();
    if s != [] {
      InvertedValue(s[1..]);
      assert Inverted(s)[1..] == Inverted(s[1..]);
      Pow2Limb(|s| - 1);
    }
  }

  /** Adding one. */
  function Next(s: seq<Limb>): (r: seq<Limb>)
    ensures |r| == |s|
  {
    if s == [] then [] else if s[0] == BASE - 1 then [0] + Next(s[1..]) else [s[0] + 1] + s[1..]
  }

  /** Subtracting one. */
  function Previous(s: seq<Limb>): (r: seq<Limb>)
    ensures |r| == |s|
  {
    if s == [] then [] else if s[0] == 0 then [BASE - 1] + Previous(s[1..]) else [s[0] - 1] + s[1..]
  }

  lemma NextFrom(s: seq<Limb>, i: nat, r: seq<Limb>)
    requires |r| == |s| && i < |s| && Next(s[i..]) == r[i..]
    ensures r[i] == if s[i] == BASE - 1 then 0 else s[i] + 1
    ensures s[i] == BASE - 1 ==> Next(s[i + 1..]) == r[i + 1..]
    ensures s[i] != BASE - 1 ==> forall j :: i < j < |s| ==> r[j] == s[j]
  {
    if s[i] != BASE - 1 {
      forall j | i < j < |s| ensures r[j] == s[j] { assert r[i..][j - i] == s[i..][j - i]; }
    }
    assert s[i..][1..] == s[i + 1..] && r[i] == r[i..][0] && r[i + 1..] == r[i..][1..];
  }

  lemma PreviousFrom(s: seq<Limb>, i: nat, r: seq<Limb>)
    requires |r| == |s| && i < |s| && Previous(s[i..]) == r[i..]
    ensures r[i] == if s[i] == 0 then BASE - 1 else s[i] - 1
    ensures s[i] == 0 ==> Previous(s[i + 1..]) == r[i + 1..]
    ensures s[i] != 0 ==> forall j :: i < j < |s| ==> r[j] == s[j]
  {
    if s[i] != 0 {
      forall j | i < j < |s| ensures r[j] == s[j] { assert r[i..][j - i] == s[i..][j - i]; }
    }
    assert s[i..][1..] == s[i + 1..] && r[i] == r[i..][0] && r[i + 1..] == r[i..][1..];
  }

  lemma {:induction false} NextExact(s: seq<Limb>)
    ensures Num(Next(s)) == Num(s) + 1 || (Num(s) + 1 == Pow2(32 * |s|) && Num(Next(s)) == 0)
  {
    hide Pow2;
    if s == [] {
      Pow2Base();
    } else if s[0] == BASE - 1 {
      NextExact(s[1..]);
      assert Next(s)[1..] == Next(s[1..]);
      Pow2Limb(|s| - 1);
    } else {
      assert Next(s)[1..] == s[1..];
    }
  }

  lemma {:induction false} PreviousExact(s: seq<Limb>)
    ensures Num(Previous(s)) == Num(s) - 1 || (Num(s) == 0 && Num(Previous(s)) == Pow2(32 * |s|) - 1)
  {
    hide Pow2;
    if s == [] {
      Pow2Base();
    } else if s[0] == 0 {
      PreviousExact(s[1..]);
      assert Previous(s)[1..] == Previous(s[1..]);
      Pow2Limb(|s| - 1);
    } else {
      assert Previous(s)[1..] == s[1..];
    }
  }

  lemma NextValue(s: seq<Limb>)
    ensures Num(Next(s)) == Mod(Num(s) + 1, Pow2(32 * |s|))
  {
    hide Times, Div, Mod, Num, Next, Pow2;
    var m := Pow2(32 * |s|);
    NextExact(s);
    NumBound(s);
    NumBound(Next(s));
    TimesConst(m);
    if Num(Next(s)) == Num(s) + 1 { DivUnique(Num(s) + 1, m, 0, Num(s) + 1); } else {
      TimesComm(m, 1);
      DivUnique(Num(s) + 1, m, 1, 0);
    }
  }

  lemma PreviousValue(s: seq<Limb>)
    ensures Num(Previous(s)) == Mod(Num(s) - 1, Pow2(32 * |s|))
  {
    hide Times, Div, Mod, Num, Previous, Pow2;
    var m := Pow2(32 * |s|);
    PreviousExact(s);
    NumBound(s);
    NumBound(Previous(s));
    TimesConst(m);
    if Num(s) > 0 { DivUnique(Num(s) - 1, m, 0, Num(s) - 1); } else {
      TimesAdd(m, 1, -1);
      DivUnique(-1, m, -1, m - 1);
    }
  }

  /** Adding the negation is subtracting. */
  lemma SubtractValue(a: int, b: int, m: nat)
    requires m > 0
    ensures Mod(a + Mod(-b, m), m) == Mod(a - b, m)
  {
    hide Times, Div, Mod;
    DivMod(-b, m);
    TimesAdd(m, Div(-b, m), -Div(-b, m));
    TimesConst(m);
    ModAdd(a - b, m, -Div(-b, m));
  }

  lemma NegatedValue(n: int, m: int)
    requires 0 <= n < m
    ensures Mod(m - n, m) == Mod(-n, m)
  {
    hide Times, Div, Mod;
    TimesConst(m);
    ModAdd(-n, m, 1);
  }

  lemma SmallMod(n: int, m: nat)
    requires 0 <= n < m
    ensures Mod(n, m) == n && Div(n, m) == 0
  {
    hide Times, Div, Mod;
    TimesConst(m);
    DivUnique(n, m, 0, n);
  }

  // ---------------------------------------------------------------- one row of the schoolbook product

  /** `p` after adding x * b, shifted up by `j` limbs and cut to the width. */
  function Row(p: seq<Limb>, b: seq<Limb>, x: nat, j: nat): (r: seq<Limb>)
    requires |p| == |b| && j <= |p|
    ensures |r| == |p|
  {
    p[..j] + AddMul(p[j..], b[..|b| - j], x, 0)
  }

  /** The whole product so far is right modulo the width. */
  lemma RowValue(p: seq<Limb>, b: seq<Limb>, a: seq<Limb>, j: nat)
    requires |p| == |b| == |a| && j < |a|
    requires Num(p) == Mod(Times(Num(a[..j]), Num(b)), Pow2(32 * |p|))
    ensures Num(Row(p, b, a[j], j)) == Mod(Times(Num(a[..j + 1]), Num(b)), Pow2(32 * |p|))
  {
    hide Times, Div, Mod, Num, AddMul, CarryOut, Pow2;
    var w := |p|;
    var x := a[j];
    var m, pj, pr := Pow2(32 * w), Pow2(32 * j), Pow2(32 * (w - j));
    Pow2Add(32 * j, 32 * (w - j));
    // the limbs added to
    var r := AddMul(p[j..], b[..w - j], x, 0);
    var out := CarryOut(p[j..], b[..w - j], x, 0);
    AddMulValue(p[j..], b[..w - j], x, 0);
    NumAppend(p[..j], r);
    NumSplit(p, j);
    NumSplit(b, w - j);
    // the factor grows by its next limb
    assert a[..j + 1] == a[..j] + [x];
    NumAppend(a[..j], [x]);
    NumOne(x);
    TimesPositive(Num(a[..j]), Num(b));
    var d := Div(Times(Num(a[..j]), Num(b)), m);
    DivMod(Times(Num(a[..j]), Num(b)), m);
    NumBound(Row(p, b, x, j));
    RowArith(Num(p), Num(p[..j]), Num(p[j..]), Num(r), Num(b[..w - j]), Num(b[w - j..]), Num(b), Num(a[..j]), x, pj, pr, d, out);
    DivUnique(Times(Num(a[..j + 1]), Num(b)), m, d + out + Times(x, Num(b[w - j..])), Num(Row(p, b, x, j)));
  }

  lemma NumOne(x: Limb)
    ensures Num([x]) == x
  {}

  lemma RowArith(p: nat, pl: nat, ph: nat, r: nat, bl: nat, bh: nat, b: nat, a: nat, x: nat, pj: nat, pr: nat, d: nat, out: nat)
    requires p == pl + Times(pj, ph) && b == bl + Times(pr, bh)
    requires r + Times(pr, out) == ph + Times(x, bl)
    requires Times(a, b) == Times(Times(pj, pr), d) + p
    ensures Times(a + Times(pj, x), b) == Times(Times(pj, pr), d + out + Times(x, bh)) + (pl + Times(pj, r))
  {
    hide Times;
    var m := Times(pj, pr);
    TimesAdd(b, a, Times(pj, x));
    // pj * x * b == pj * (x * bl) + m * (x * bh)
    TimesAssoc(pj, x, b);
    TimesAdd(x, bl, Times(pr, bh));
    TimesAssoc(x, pr, bh);
    TimesComm(x, pr);
    TimesAssoc(pr, x, bh);
    TimesAdd(pj, Times(x, bl), Times(pr, Times(x, bh)));
    TimesAssoc(pj, pr, Times(x, bh));
    // pj * (ph + x * bl) == pj * r + m * out
    TimesAdd(pj, ph, Times(x, bl));
    TimesAdd(pj, r, Times(pr, out));
    TimesAssoc(pj, pr, out);
    TimesAdd(m, d + out, Times(x, bh));
    TimesAdd(m, d, out);
  }

  // ---------------------------------------------------------------- comparing

  /** The highest limb that differs decides. */
  lemma CompareFrom(a: seq<Limb>, b: seq<Limb>, i: nat)
    requires |a| == |b| && i < |a| && a[i + 1..] == b[i + 1..]
    ensures a[i] < b[i] ==> Num(a) < Num(b)
    ensures a[i] > b[i] ==> Num(a) > Num(b)
  {
    if a[i] < b[i] { LessAt(a, b, i); }
    if a[i] > b[i] { LessAt(b, a, i); }
  }

  lemma LessAt(a: seq<Limb>, b: seq<Limb>, i: nat)
    requires |a| == |b| && i < |a| && a[i + 1..] == b[i + 1..] && a[i] < b[i]
    ensures Num(a) < Num(b)
  {
    hide Times, Div, Mod, Pow2;
    NumSplit(a, i);
    NumSplit(b, i);
    NumBound(a[..i]);
    assert a[i..][1..] == a[i + 1..] && b[i..][1..] == b[i + 1..];
    var x, y := Num(a[i..]), Num(b[i..]);
    assert x + 1 <= y;
    TimesOrder(Pow2(32 * i), x + 1, y);
    TimesAdd(Pow2(32 * i), x, 1);
    TimesConst(Pow2(32 * i));
  }

  // ---------------------------------------------------------------- bit length

  function BitLen(n: nat): nat { if n == 0 then 0 else 1 + BitLen(n / 2) }

  lemma {:induction false} BitLenIs(n: nat)
    ensures n < Pow2(BitLen(n)) && (n > 0 <==> BitLen(n) > 0) && (n > 0 ==> Pow2(BitLen(n) - 1) <= n)
  {
    if n > 0 { BitLenIs(n / 2); }
  }

  lemma BitLenUnique(n: nat, k: nat)
    requires n < Pow2(k) && (k > 0 ==> Pow2(k - 1) <= n)
    ensures BitLen(n) == k
  {
    hide BitLen, Pow2;
    BitLenIs(n);
    Pow2Base();
    var l := BitLen(n);
    if l < k { Pow2Grows(l, k - 1); } else if k < l { Pow2Grows(k, l - 1); }
  }

  /** x & (1 << i) */
  predicate BitSet(x: nat, i: nat) { Div(x, Pow2(i)) % 2 == 1 }

  lemma TopBit(x: nat, i: nat)
    requires x < Pow2(i + 1)
    ensures BitSet(x, i) <==> x >= Pow2(i)
  {
    hide Times, Div, Mod;
    var p, q := Pow2(i), Div(x, Pow2(i));
    DivMod(x, p);
    TimesConst(p);
    TimesComm(2, p);
    TimesComm(1, p);
    TimesCancel(p, q, 2);
    TimesCancel(p, q, 1);
    TimesCancel(p, 0, q);
  }

  /** The bit length of a number whose highest limb in use is at `pos`. */
  lemma BitLenAt(s: seq<Limb>, pos: nat, bits: nat)
    requires pos < |s| && (forall i :: pos < i < |s| ==> s[i] == 0)
    requires s[pos] > 0 && bits < 32 && Pow2(bits) <= s[pos] < Pow2(bits + 1)
    ensures BitLen(Num(s)) == 32 * pos + bits + 1
  {
    hide Times, Div, Mod, Pow2, BitLen;
    NumSplit(s, pos);
    NumBound(s[..pos]);
    NumZeroIff(s[pos..][1..]);
    var n: int, p := s[pos], Pow2(32 * pos);
    assert Num(s[pos..]) == n;
    Pow2Add(32 * pos, bits);
    Pow2Add(32 * pos, bits + 1);
    TimesOrder(p, Pow2(bits), n);
    TimesOrder(p, n + 1, Pow2(bits + 1));
    TimesAdd(p, n, 1);
    TimesConst(p);
    TimesComm(p, 1);
    BitLenUnique(Num(s), 32 * pos + bits + 1);
  }

  // ---------------------------------------------------------------- long division

  /** The state of the division loop: the quotient's bits below `shift` are not set yet, and what is left of
      the number is less than twice the shifted divisor. */
  ghost predicate Dividing(n: nat, d: nat, q: nat, num: nat, shift: int) {
    && shift >= -1
    && n == Times(q, d) + num && num < Times(d, Pow2(shift + 1))
  }

  lemma DivideStart(n: nat, d: nat)
    requires d > 0 && BitLen(d) <= BitLen(n)
    ensures Dividing(n, d, 0, n, BitLen(n) - BitLen(d))
  {
    hide Times, Pow2, BitLen;
    BitLenIs(n);
    BitLenIs(d);
    TimesConst(d);
    var k := BitLen(n) - BitLen(d) + 1;
    NotZero(d);
    Pow2Add(k, BitLen(d) - 1);
    TimesComm(d, Pow2(k));
    TimesOrder(Pow2(k), Pow2(BitLen(d) - 1), d);
  }

  lemma NotZero(d: nat)
    requires d > 0
    ensures BitLen(d) > 0
  {}

  /** Aligning the divisor does not push any bit of it out. */
  lemma DivideFits(n: nat, d: nat, width: nat)
    requires d > 0 && BitLen(d) <= BitLen(n) && n < Pow2(width)
    ensures Times(d, Pow2(BitLen(n) - BitLen(d))) < Pow2(width)
  {
    hide Times, Pow2, BitLen;
    BitLenIs(n);
    BitLenIs(d);
    var k := BitLen(n) - BitLen(d);
    NotZero(d);
    Pow2Add(BitLen(d), k);
    TimesComm(Pow2(k), d);
    TimesComm(Pow2(k), Pow2(BitLen(d)));
    TimesCancel(Pow2(k), d, Pow2(BitLen(d)));
    if width < BitLen(n) {
      Pow2Grows(width, BitLen(n) - 1);
    } else {
      Pow2Grows(BitLen(n), width);
    }
  }

  lemma DivideStep(n: nat, d: nat, q: nat, num: nat, shift: nat)
    requires Dividing(n, d, q, num, shift)
    ensures var t := Times(d, Pow2(shift));
            if num >= t then Dividing(n, d, q + Pow2(shift), num - t, shift - 1) else Dividing(n, d, q, num, shift - 1)
  {
    hide Times;
    var p := Pow2(shift);
    TimesAdd(d, p, p);
    TimesAdd(d, q, p);
    TimesComm(d, p);
  }

  lemma DivideEnd(n: nat, d: nat, q: nat, num: nat)
    requires d > 0 && Dividing(n, d, q, num, -1)
    ensures q == Div(n, d) && num == Mod(n, d)
  {
    hide Times, Div, Mod;
    Pow2Base();
    TimesConst(d);
    TimesComm(q, d);
    TimesComm(d, 1);
    DivUnique(n, d, q, num);
  }

  /** The divisor halved is the divisor aligned one bit lower. */
  lemma HalfShifted(d: nat, shift: nat)
    ensures Div(Times(d, Pow2(shift + 1)), Pow2(1)) == Times(d, Pow2(shift))
  {
    hide Times, Div, Mod;
    Pow2Base();
    Pow2Add(shift, 1);
    TimesAssoc(d, Pow2(shift), 2);
    TimesComm(Times(d, Pow2(shift)), 2);
    ModOfMultiple(2, Times(d, Pow2(shift)));
  }

  /** All bits of the quotient below `low` are clear. */
  ghost predicate ClearBelow(q: seq<Limb>, low: nat) {
    forall i :: 0 <= i < |q| ==> Aligned(q[i], ClearBits(i, low))
  }

  function ClearBits(i: nat, low: nat): nat { if low <= 32 * i then 0 else if low - 32 * i >= 32 then 32 else low - 32 * i }

  lemma ClearMore(q: seq<Limb>, low: nat, low': nat)
    requires ClearBelow(q, low) && low' <= low
    ensures ClearBelow(q, low')
  {
    hide Aligned;
    forall i | 0 <= i < |q| ensures Aligned(q[i], ClearBits(i, low')) { AlignedLess(q[i], ClearBits(i, low'), ClearBits(i, low)); }
  }

  lemma ClearBitsAre(i: nat, s: nat, j: nat)
    requires s < 32
    ensures ClearBits(i, 32 * i + s + 1) == s + 1 && ClearBits(i, 32 * i + s) == s
    ensures ClearBits(j, 32 * i + s) <= ClearBits(j, 32 * i + s + 1)
  {}

  /** A bit above which a limb is clear fits into it. */
  lemma BitFits(x: Limb, s: nat)
    requires s < 32 && Aligned(x, s + 1)
    ensures Or(x, Pow2(s)) == x + Pow2(s) < BASE && Aligned(x + Pow2(s), s)
  {
    hide Times, Div, Mod, Pow2, Or, Aligned;
    Pow2Grows(s, s + 1);
    OrDisjoint(x, Pow2(s), s + 1);
    BelowBase(x, s + 1);
    RoomBelow(x, Pow2(s), s + 1, Pow2(31 - s));
    Pow2Split(s + 1);
    AlignedLess(x, s, s + 1);
    SumAligned(x, s);
  }

  /** Setting a bit of a quotient that is clear below it adds the power of two. */
  lemma SetBit(q: seq<Limb>, i: nat, s: nat)
    requires i < |q| && s < 32 && ClearBelow(q, 32 * i + s + 1)
    ensures Or(q[i], Pow2(s)) < BASE
    ensures var r := q[i := Or(q[i], Pow2(s))]; Num(r) == Num(q) + Pow2(32 * i + s) && ClearBelow(r, 32 * i + s)
  {
    hide Times, Div, Mod, Pow2, Or, Num, Aligned, ClearBits;
    ClearBitsAre(i, s, i);
    assert Aligned(q[i], ClearBits(i, 32 * i + s + 1));
    BitFits(q[i], s);
    var r := q[i := q[i] + Pow2(s)];
    // the value
    Pow2Add(32 * i, s);
    NumUpdate(q, i, q[i] + Pow2(s));
    TimesAdd(Pow2(32 * i), q[i], Pow2(s));
    // the bits
    forall j | 0 <= j < |r| ensures Aligned(r[j], ClearBits(j, 32 * i + s)) {
      ClearBitsAre(i, s, j);
      if j != i { AlignedLess(q[j], ClearBits(j, 32 * i + s), ClearBits(j, 32 * i + s + 1)); }
    }
  }

  lemma BelowBase(x: Limb, s: nat)
    requires s <= 32
    ensures x < Times(Pow2(s), Pow2(32 - s))
  {
    Pow2Split(s);
  }

  lemma SumAligned(x: nat, s: nat)
    requires Aligned(x, s)
    ensures Aligned(x + Pow2(s), s)
  {
    hide Times, Div, Mod;
    TimesConst(Pow2(s));
    ModAdd(x, Pow2(s), 1);
  }

  /** Changing one limb changes the value by the difference at its place. */
  lemma {:induction false} NumUpdate(q: seq<Limb>, i: nat, y: Limb)
    requires i < |q|
    ensures Num(q[i := y]) == Num(q) - Times(Pow2(32 * i), q[i]) + Times(Pow2(32 * i), y)
  {
    hide Times, Pow2;
    NumSplit(q, i);
    NumSplit(q[i := y], i);
    assert q[i := y][..i] == q[..i];
    assert q[i := y][i..][1..] == q[i..][1..];
    var p, n := Pow2(32 * i), BASE * Num(q[i..][1..]);
    TimesAdd(p, q[i], n);
    TimesAdd(p, y, n);
  }
}
