/** The compact form of a 256-bit number: a byte for its size and a mantissa of 23 bits. */
module Compact {
  import opened Basics
  import opened Limbs
  import opened Products
  import opened ArithUint
  import opened ArithUintClass

  function Size(c: nat): nat { c / 0x100_0000 }

  function Word(c: nat): nat { c % 0x80_0000 }

  /** The bit that denotes the sign. */
  predicate SignBit(c: nat) { c / 0x80_0000 % 2 == 1 }

  /** The mantissa, without the bytes that a size below 3 drops. */
  function Mantissa(c: nat): nat { if Size(c) <= 3 then MantissaOf(Word(c), 8 * (3 - Size(c))) else Word(c) }

  function MantissaOf(w: nat, shift: nat): nat {
    DivMod(w, Pow2(shift));
    Div(w, Pow2(shift))
  }

  /** What a compact form stands for: mantissa * 256^(size - 3), with no limit. */
  function Expanded(c: nat): nat {
    if Size(c) <= 3 then Mantissa(c)
    else
      TimesPositive(Word(c), Pow2(8 * (Size(c) - 3)));
      Times(Word(c), Pow2(8 * (Size(c) - 3)))
  }

  /** The number of bytes, and its 24 highest bits from a byte boundary on. */
  function Bytes(x: nat): nat { (BitLen(x) + 7) / 8 }

  function Top(x: nat): nat {
    if Bytes(x) <= 3 then
      TimesPositive(x, Pow2(8 * (3 - Bytes(x))));
      Times(x, Pow2(8 * (3 - Bytes(x))))
    else MantissaOf(x, 8 * (Bytes(x) - 3))
  }

  /** The compact form of a number: if the sign bit would be set, a byte less. */
  function Compacted(x: nat): nat {
    if Top(x) >= 0x80_0000 then Top(x) / 256 + 0x100_0000 * (Bytes(x) + 1) else Top(x) + 0x100_0000 * Bytes(x)
  }

  // ---------------------------------------------------------------- reading

  /** The overflow flag is right: it is set exactly when the number does not fit into 256 bits. */
  lemma OverflowIff(c: nat)
    ensures Expanded(c) >= Pow2(256) <==>
              Mantissa(c) != 0 && (Size(c) > 34 || (Mantissa(c) > 0xff && Size(c) > 33) || (Mantissa(c) > 0xffff && Size(c) > 32))
  {
    hide Times, Div, Mod, Pow2;
    var w, s := Word(c), Size(c);
    Pow2Base();
    if s <= 3 {
      MantissaSmall(w, 8 * (3 - s));
      Pow2Grows(32, 256);
    } else {
      var e := 8 * (s - 3);
      TimesConst(Pow2(e));
      if e >= 256 {
        Pow2Grows(256, e);
        TimesPositive(w, Pow2(e));
      } else {
        Pow2Add(256 - e, e);
        TimesComm(w, Pow2(e));
        TimesComm(Pow2(256 - e), Pow2(e));
        TimesCancel(Pow2(e), w, Pow2(256 - e));
        if s >= 33 { assert e == 240 || e == 248; } else { Pow2Grows(24, 256 - e); assert Pow2(24) == 0x100_0000 by { Pow2Add(8, 16); assert Times(256, 0x1_0000) == 0x100_0000 by { TimesDone(); } } }
      }
    }
  }

  lemma TimesDone()
    ensures Times(256, 0x1_0000) == 0x100_0000 && Times(0x8000, 0x100) == 0x80_0000 && Times(0x80, 0x1_0000) == 0x80_0000
  {}

  lemma MantissaSmall(w: nat, shift: nat)
    ensures MantissaOf(w, shift) <= w
  {
    hide Times, Div, Mod, Pow2;
    DivMod(w, Pow2(shift));
    TimesPositive(Pow2(shift), Div(w, Pow2(shift)));
  }

  // ---------------------------------------------------------------- powers used below

  lemma Powers()
    ensures Pow2(0) == 1 && Pow2(7) == 0x80 && Pow2(8) == 0x100 && Pow2(15) == 0x8000 && Pow2(16) == 0x1_0000 && Pow2(23) == 0x80_0000 && Pow2(24) == 0x100_0000
  {
    hide Times;
    Pow2Base();
    assert Pow2(7) == 0x80;
    TimesDone();
    Pow2Add(7, 8);
    Pow2Add(7, 16);
    Pow2Add(8, 16);
    assert Times(0x80, 0x100) == 0x8000 by { Doubled(); }
  }

  lemma Doubled()
    ensures Times(0x80, 0x100) == 0x8000
  {}

  // ---------------------------------------------------------------- the grain of the compact form

  /** The number of low bits that the compact form of `x` drops. */
  function Dropped(x: nat): nat {
    var n := if Top(x) >= 0x80_0000 then Bytes(x) + 1 else Bytes(x);
    if n <= 3 then 0 else 8 * (n - 3)
  }

  lemma TopRange(x: nat)
    requires x > 0
    ensures 0x1_0000 <= Top(x) < 0x100_0000 && Bytes(x) > 0 && BitLen(x) <= 8 * Bytes(x) < BitLen(x) + 8
  {
    hide Times, Div, Mod, Pow2, BitLen;
    BitLenIs(x);
    Powers();
    var l, n := BitLen(x), Bytes(x);
    Pow2Grows(8 * (n - 1), l - 1);
    Pow2Grows(l, 8 * n);
    if n <= 3 {
      var p := Pow2(8 * (3 - n));
      Pow2Add(8 * (n - 1), 8 * (3 - n));
      Pow2Add(8 * n, 8 * (3 - n));
      TimesComm(x, p);
      TimesComm(Pow2(8 * (n - 1)), p);
      TimesComm(Pow2(8 * n), p);
      TimesOrder(p, Pow2(8 * (n - 1)), x);
      TimesCancel(p, x, Pow2(8 * n));
    } else {
      DivRange(x, 8 * (n - 3), 16, 24);
    }
  }

  /** A quotient by a power of two lies between powers of two if the number does. */
  lemma DivRange(x: nat, e: nat, a: nat, b: nat)
    requires Pow2(e + a) <= x < Pow2(e + b)
    ensures Pow2(a) <= Div(x, Pow2(e)) < Pow2(b)
  {
    hide Times, Div, Mod, Pow2;
    var p, q := Pow2(e), Div(x, Pow2(e));
    DivMod(x, p);
    Pow2Add(e, a);
    Pow2Add(e, b);
    TimesCancel(p, q, Pow2(b));
    TimesAdd(p, q, 1);
    TimesConst(p);
    TimesComm(p, 1);
    TimesCancel(p, Pow2(a), q + 1);
  }

  /** Compacting and expanding cuts the dropped bits off and does nothing else. */
  lemma ExpandedCompacted(x: nat)
    requires x > 0
    ensures Expanded(Compacted(x)) == Times(Pow2(Dropped(x)), Div(x, Pow2(Dropped(x))))
  {
    hide Times, Div, Mod, Pow2, BitLen;
    TopRange(x);
    Powers();
    var n, m, c := Bytes(x), Top(x), Compacted(x);
    var e := Dropped(x);
    if m >= 0x80_0000 { PartsOf(m / 256, n + 1, c); } else { PartsOf(m, n, c); }
    if n > 3 {
      TimesComm(Word(c), Pow2(e));
      if m >= 0x80_0000 {
        DivDiv(x, Pow2(8 * (n - 3)), 256);
        Pow2Add(8 * (n - 3), 8);
        DivIs(m, 256);
      }
    } else {
      TimesConst(Div(x, 1));
      var p := Pow2(8 * (3 - n));
      TimesComm(x, p);
      ModOfMultiple(p, x);
      SmallMod1(x);
      if m >= 0x80_0000 {
        DivIs(m, 256);
        if n < 3 {
          Pow2Add(8, 8 * (2 - n));
          DivDiv(m, 256, Pow2(8 * (2 - n)));
        } else {
          assert m == x by { TimesConst(x); TimesComm(x, 1); }
          TimesComm(Word(c), 256);
        }
      }
    }
  }

  lemma SmallMod1(x: nat)
    ensures Div(x, 1) == x
  {}

  lemma DivIs(x: nat, m: nat)
    requires m > 0
    ensures Div(x, m) == x / m
  {}

  lemma PartsOf(w: nat, n: nat, c: nat)
    requires w < 0x80_0000 && c == w + 0x100_0000 * n
    ensures Size(c) == n && Word(c) == w && !SignBit(c)
  {
    assert c / 0x80_0000 == 2 * n;
  }

  /** The compact form is at most the number, and less than one part in 2^15 below it. */
  lemma CompactLoss(x: nat)
    ensures Expanded(Compacted(x)) <= x
    ensures x > 0 ==> 0x8000 * (x - Expanded(Compacted(x))) < x
  {
    hide Times, Div, Mod, Pow2, BitLen, Compacted, Expanded, Dropped;
    if x == 0 {
      NothingCompacted();
    } else {
      ExpandedCompacted(x);
      var p := Pow2(Dropped(x));
      DivMod(x, p);
      EnoughLeft(x);
      Powers();
      Pow2Add(Dropped(x), 15);
      TimesComm(p, 0x8000);
      TimesOrder(0x8000, Mod(x, p), p - 1);
      TimesIs(0x8000, p);
      TimesIs(0x8000, Mod(x, p));
      NoneDropped(x);
    }
  }

  lemma TimesIs(a: int, b: int)
    ensures Times(a, b) == a * b
  {}

  lemma NoneDropped(x: nat)
    ensures Dropped(x) == 0 ==> Mod(x, Pow2(Dropped(x))) == 0
  {
    Pow2Base();
  }

  lemma NothingCompacted()
    ensures Expanded(Compacted(0)) == 0
  {
    hide Times, Div, Mod;
    assert BitLen(0) == 0 && Bytes(0) == 0;
    TimesConst(Pow2(24));
    PartsOf(0, 0, 0);
    TimesConst(Pow2(24));
    DivUnique(0, Pow2(24), 0, 0);
  }

  /** At least 16 bits are kept when any are dropped. */
  lemma EnoughLeft(x: nat)
    requires x > 0
    ensures Dropped(x) > 0 ==> x >= Pow2(Dropped(x) + 15)
    ensures Dropped(x) < BitLen(x)
  {
    hide Times, Div, Mod, Pow2, BitLen;
    TopRange(x);
    BitLenIs(x);
    Powers();
    var n, l := Bytes(x), BitLen(x);
    if Top(x) >= 0x80_0000 {
      if n > 3 {
        // x / 2^(8(n-3)) has its highest bit set
        var p := Pow2(8 * (n - 3));
        DivMod(x, p);
        Pow2Add(8 * (n - 3), 23);
        TimesOrder(p, 0x80_0000, Top(x));
        if l - 1 < Dropped(x) + 15 { Pow2Grows(l, Dropped(x) + 15); }
      } else if n == 3 {
        TimesConst(x);
        TimesComm(x, 1);
        if l - 1 < 23 { Pow2Grows(l, 23); }
      }
    } else if n > 3 {
      Pow2Grows(Dropped(x) + 15, l - 1);
    }
  }

  /** Cutting low bits off below the highest one keeps the length. */
  lemma CutKeepsLength(x: nat, e: nat)
    requires x > 0 && e < BitLen(x)
    ensures var v := Times(Pow2(e), Div(x, Pow2(e))); v >= 0 && BitLen(v) == BitLen(x)
  {
    hide Times, Div, Mod, Pow2, BitLen;
    BitLenIs(x);
    var p, q, l := Pow2(e), Div(x, Pow2(e)), BitLen(x);
    DivMod(x, p);
    TimesPositive(p, q);
    DivRange(x, e, l - 1 - e, l - e);
    Pow2Add(e, l - 1 - e);
    TimesOrder(p, Pow2(l - 1 - e), q);
    BitLenUnique(Times(p, q), l);
  }

  /** Encoding what a compact form stands for gives the same form again. */
  lemma CompactStable(x: nat)
    ensures Compacted(Expanded(Compacted(x))) == Compacted(x)
  {
    hide Times, Div, Mod, Pow2, BitLen, Expanded;
    if x == 0 {
      NothingCompacted();
    } else {
      var e, v := Dropped(x), Expanded(Compacted(x));
      ExpandedCompacted(x);
      EnoughLeft(x);
      CutKeepsLength(x, e);
      if e > 0 {
        TopAfterCut(x, v);
      } else {
        Powers();
        TimesConst(x);
        SmallMod1(x);
        TimesConst(Div(x, 1));
      }
    }
  }

  /** The top of the number after the cut: the same, or the same without its low byte. */
  lemma TopAfterCut(x: nat, v: nat)
    requires x > 0 && Dropped(x) > 0 && BitLen(v) == BitLen(x)
    requires v == Times(Pow2(Dropped(x)), Div(x, Pow2(Dropped(x))))
    ensures Top(v) == if Top(x) >= 0x80_0000 then Top(x) / 256 * 256 else Top(x)
  {
    hide Times, Div, Mod, Pow2, BitLen;
    TopRange(x);
    Powers();
    var n, e := Bytes(x), Dropped(x);
    var q := Div(x, Pow2(e));
    if n > 3 {
      var p := Pow2(8 * (n - 3));
      if Top(x) >= 0x80_0000 {
        Pow2Add(8 * (n - 3), 8);
        DivDiv(x, p, 256);
        DivIs(Top(x), 256);
        TimesAssoc(p, 256, q);
        ModOfMultiple(p, Times(256, q));
        TimesIs(256, q);
      } else {
        ModOfMultiple(p, q);
      }
    } else {
      assert n == 3 && e == 8;
      TimesConst(x);
      TimesConst(v);
      TimesComm(x, 1);
      TimesComm(v, 1);
      DivIs(x, 256);
      TimesIs(256, q);
    }
  }

  // ---------------------------------------------------------------- the operations on the object

  lemma LowNum(s: seq<Limb>)
    requires |s| >= 2
    ensures Num(s) < BASE ==> Num(s) == s[0] && s[1] == 0
    ensures s[1] == 0 && Num(s[2..]) == 0 ==> Num(s) == s[0]
  {
    TwoLimbs(s);
  }

  /** operator=(uint64_t) for a 32-bit number */
  method AssignWord(x: BaseUint, b: Limb)
    requires x.pn.Length == 8
    modifies x.pn
    ensures x.Value() == b
  {
    x.SetZero();
    x.pn[0] := b;
    NumZeroIff(x.pn[..][2..]);
    LowNum(x.pn[..]);
  }

  method SetCompact(x: BaseUint, nCompact: Limb) returns (fNegative: bool, fOverflow: bool)
    requires x.pn.Length == 8
    modifies x.pn
    ensures x.Value() == Mod(Expanded(nCompact), Pow2(256))
    ensures fOverflow <==> Expanded(nCompact) >= Pow2(256)
    ensures fNegative <==> Mantissa(nCompact) != 0 && SignBit(nCompact)
  {
    hide Times, Div, Mod, Pow2;
    OverflowIff(nCompact);
    Pow2Base();
    Pow2Grows(32, 256);
    var nSize := Size(nCompact);
    var nWord := Word(nCompact);
    if nSize <= 3 {
      MantissaSmall(nWord, 8 * (3 - nSize));
      nWord := MantissaOf(nWord, 8 * (3 - nSize));
      AssignWord(x, nWord);
      SmallMod(nWord, Pow2(256));
    } else {
      AssignWord(x, nWord);
      x.ShlAssign(8 * (nSize - 3));
    }
    fNegative := nWord != 0 && SignBit(nCompact);
    fOverflow := nWord != 0 && (nSize > 34 || (nWord > 0xff && nSize > 33) || (nWord > 0xffff && nSize > 32));
  }

  method GetCompact(x: BaseUint, fNegative: bool) returns (nCompact: nat)
    requires x.pn.Length == 8
    ensures nCompact == Compacted(x.Value()) + if fNegative && Word(Compacted(x.Value())) != 0 then 0x80_0000 else 0
  {
    hide Times, Div, Mod, Pow2, BitLen, Num;
    ghost var v := x.Value();
    var bits := x.Bits();
    var nSize := (bits + 7) / 8;
    BitLenIs(v);
    Powers();
    NumBound(x.pn[..]);
    BytesBound(v);
    assert Top(v) < 0x100_0000 by { if v > 0 { TopRange(v); } else { TopOfZero(); } }
    if nSize <= 3 {
      Pow2Grows(bits, 24);
      LowNum(x.pn[..]);
      nCompact := Times(x.pn[0], Pow2(8 * (3 - nSize)));
    } else {
      var bn := new BaseUint.Copy(x);
      bn.ShrAssign(8 * (nSize - 3));
      LowNum(bn.pn[..]);
      nCompact := bn.pn[0];
    }
    assert nCompact == Top(v);
    if nCompact >= 0x80_0000 {
      nCompact := nCompact / 256;
      nSize := nSize + 1;
    }
    assert nCompact < 0x80_0000 && nSize < 256;
    PartsOf(nCompact, nSize, nCompact + 0x100_0000 * nSize);
    var mantissa := nCompact;
    nCompact := nCompact + 0x100_0000 * nSize;
    if fNegative && mantissa != 0 { nCompact := nCompact + 0x80_0000; }
  }

  lemma TopOfZero()
    ensures Top(0) == 0
  {
    hide Times;
    assert BitLen(0) == 0 && Bytes(0) == 0;
    TimesConst(Pow2(24));
  }

  lemma BytesBound(v: nat)
    requires v < Pow2(256)
    ensures Bytes(v) <= 32
  {
    hide Pow2, BitLen;
    BitLenIs(v);
    if BitLen(v) > 256 { Pow2Grows(256, BitLen(v) - 1); }
  }
}
