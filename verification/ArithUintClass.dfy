/** base_uint as an object: every operator works in place on its limbs. */
module ArithUintClass {
  import opened Basics
  import opened Limbs
  import opened Products
  import opened ArithUint

  class BaseUint {
    const pn: array<Limb>

    ghost function Value(): nat
      reads pn
    {
      Num(pn[..])
    }

    /** 2^BITS */
    ghost function Modulus(): nat { Pow2(32 * pn.Length) }

    constructor Zero(width: nat)
      ensures fresh(pn) && pn.Length == width && pn[..] == Zeros(width) && Value() == 0
    {
      pn := new Limb[width](_ => 0);
      new;
      NumZeros(width);
      assert pn[..] == Zeros(width);
    }

    constructor Copy(b: BaseUint)
      ensures fresh(pn) && pn.Length == b.pn.Length && pn[..] == b.pn[..]
    {
      pn := new Limb[b.pn.Length](i requires 0 <= i < b.pn.Length reads b.pn => b.pn[i]);
    }

    method SetZero()
      modifies pn
      ensures pn[..] == Zeros(pn.Length) && Value() == 0
    {
      for i := 0 to pn.Length
        invariant forall j :: 0 <= j < i ==> pn[j] == 0
      {
        pn[i] := 0;
      }
      assert pn[..] == Zeros(pn.Length);
      NumZeros(pn.Length);
    }

    // ---------------------------------------------------------------- shifts

    /** A multiplication by a power of two modulo the width, whatever the amount. */
    method ShlAssign(shift0: nat)
      modifies pn
      ensures Value() == Mod(Times(old(Value()), Pow2(shift0)), Modulus())
    {
      hide Or, Shl, Shr, Pow2, Num, Times, Mod;
      var a := new BaseUint.Copy(this);
      ghost var s := a.pn[..];
      SetZero();
      var k, shift := shift0 / 32, shift0 % 32;
      for i := 0 to pn.Length
        invariant a.pn[..] == s && |s| == pn.Length
        invariant forall m :: 0 <= m < pn.Length ==>
                    pn[m] == if m - k < 0 || m - k > i then 0
                             else if m - k == i then ShiftedIn(s, m - k, shift)
                             else ShlLimb(s, k, shift, m)
      {
        ShiftedInFits(s, i, shift);
        OrZero(if i + 1 < |s| then ShiftedIn(s, i + 1, shift) else 0);
        if i + k + 1 < pn.Length && shift != 0 {
          pn[i + k + 1] := Or(pn[i + k + 1], Shr(a.pn[i], 32 - shift));
        }
        if i + k < pn.Length {
          pn[i + k] := Or(pn[i + k], Shl(a.pn[i], shift));
        }
      }
      assert forall m :: 0 <= m < |s| ==> pn[..][m] == ShlLimb(s, k, shift, m);
      ShlValue(s, k, shift, pn[..]);
    }

    /** A floor division by a power of two, whatever the amount. */
    method ShrAssign(shift0: nat)
      modifies pn
      ensures Value() == Div(old(Value()), Pow2(shift0))
    {
      hide Or, Shl, Shr, Pow2, Num, Times, Div;
      var a := new BaseUint.Copy(this);
      ghost var s := a.pn[..];
      SetZero();
      var k, shift := shift0 / 32, shift0 % 32;
      ShrPartFirst(s, k, shift);
      hide ShrPart, ShrLimb;
      for i := 0 to pn.Length
        invariant a.pn[..] == s && |s| == pn.Length
        invariant forall m :: 0 <= m < pn.Length ==> pn[m] == ShrPart(s, k, shift, i, m)
      {
        forall m | 0 <= m < pn.Length { ShrPartNext(s, k, shift, i, m); }
        if i - k - 1 >= 0 && shift != 0 {
          pn[i - k - 1] := Or(pn[i - k - 1], Shl(a.pn[i], 32 - shift));
        }
        if i - k >= 0 {
          pn[i - k] := Or(pn[i - k], Shr(a.pn[i], shift));
        }
      }
      forall m | 0 <= m < |s| ensures pn[..][m] == ShrLimb(s, k, shift, m) { ShrPartLast(s, k, shift, m); }
      ShrValue(s, k, shift, pn[..]);
    }

    // ---------------------------------------------------------------- addition and subtraction

    method PlusAssign(b: BaseUint)
      requires b.pn.Length == pn.Length
      modifies pn
      ensures Value() == Mod(old(Value()) + old(b.Value()), Modulus())
    {
      hide Low, Carry, Times, Num, Mod, Pow2;
      ghost var p, s := pn[..], b.pn[..];
      ghost var r := AddMul(p, s, 1, 0);
      AddMulWhole(p, s, 1, 0);
      AddMulMod(p, s, 1, 0);
      hide AddMul;
      var carry := 0;
      for i := 0 to pn.Length
        invariant 0 <= carry < BASE && AddMul(p[i..], s[i..], 1, carry) == r[i..]
        invariant forall j :: 0 <= j < i ==> pn[j] == r[j]
        invariant forall j :: i <= j < pn.Length ==> pn[j] == p[j] && b.pn[j] == s[j]
      {
        AddMulNext(p, s, 1, carry, i, r);
        TimesConst(s[i]);
        CarryFits(p[i], s[i], 1, carry);
        var n: nat := carry + pn[i] + b.pn[i];
        pn[i] := Low(n);
        carry := Carry(n);
      }
      assert pn[..] == r;
      TimesConst(Num(s));
    }

    method Negated() returns (r: BaseUint)
      ensures fresh(r) && fresh(r.pn) && r.pn.Length == pn.Length && (var v: int := Value(); r.Value() == Mod(-v, Modulus()))
    {
      hide Num, Mod, Pow2, Next;
      r := new BaseUint.Zero(pn.Length);
      for i := 0 to pn.Length
        invariant fresh(r.pn) && r.pn != pn && forall j :: 0 <= j < i ==> r.pn[j] == BASE - 1 - pn[j]
      {
        r.pn[i] := BASE - 1 - pn[i];
      }
      assert r.pn[..] == Inverted(pn[..]);
      InvertedValue(pn[..]);
      NumBound(pn[..]);
      NegatedValue(Num(pn[..]), Pow2(32 * pn.Length));
      r.Increment();
    }

    method MinusAssign(b: BaseUint)
      requires b.pn.Length == pn.Length
      modifies pn
      ensures Value() == Mod(old(Value()) - old(b.Value()), Modulus())
    {
      hide Num, Mod, Pow2;
      SubtractValue(Value(), b.Value(), Modulus());
      var minus := b.Negated();
      PlusAssign(minus);
    }

    /** Prefix ++. */
    method Increment()
      modifies pn
      ensures pn[..] == Next(old(pn[..])) && Value() == Mod(old(Value()) + 1, Modulus())
    {
      hide Num, Mod, Pow2, Next;
      ghost var s := pn[..];
      NextValue(s);
      ghost var r := Next(s);
      assert s[0..] == s && r[0..] == r;
      var i := 0;
      while i < pn.Length
        invariant 0 <= i <= pn.Length && Next(s[i..]) == r[i..]
        invariant forall j :: 0 <= j < i ==> pn[j] == r[j]
        invariant forall j :: i <= j < pn.Length ==> pn[j] == s[j]
      {
        NextFrom(s, i, r);
        pn[i] := if pn[i] == BASE - 1 then 0 else pn[i] + 1;
        if pn[i] != 0 {
          assert pn[..] == r;
          return;
        }
        i := i + 1;
      }
      assert pn[..] == r;
    }

    /** Prefix --. */
    method Decrement()
      modifies pn
      ensures pn[..] == Previous(old(pn[..])) && Value() == Mod(old(Value()) - 1, Modulus())
    {
      hide Num, Mod, Pow2, Previous;
      ghost var s := pn[..];
      PreviousValue(s);
      ghost var r := Previous(s);
      assert s[0..] == s && r[0..] == r;
      var i := 0;
      while i < pn.Length
        invariant 0 <= i <= pn.Length && Previous(s[i..]) == r[i..]
        invariant forall j :: 0 <= j < i ==> pn[j] == r[j]
        invariant forall j :: i <= j < pn.Length ==> pn[j] == s[j]
      {
        PreviousFrom(s, i, r);
        pn[i] := if pn[i] == 0 then BASE - 1 else pn[i] - 1;
        if pn[i] != BASE - 1 {
          assert pn[..] == r;
          return;
        }
        i := i + 1;
      }
      assert pn[..] == r;
    }

    // ---------------------------------------------------------------- multiplication

    method TimesAssign32(b32: Limb)
      modifies pn
      ensures Value() == Mod(Times(b32, old(Value())), Modulus())
    {
      hide Low, Carry, Times, Num, Mod, Pow2;
      ghost var p := pn[..];
      ghost var zeros := Zeros(pn.Length);
      NumZeros(pn.Length);
      ghost var r := AddMul(zeros, p, b32, 0);
      AddMulWhole(zeros, p, b32, 0);
      AddMulMod(zeros, p, b32, 0);
      hide AddMul;
      var carry := 0;
      for i := 0 to pn.Length
        invariant 0 <= carry < BASE && AddMul(zeros[i..], p[i..], b32, carry) == r[i..]
        invariant forall j :: 0 <= j < i ==> pn[j] == r[j]
        invariant forall j :: i <= j < pn.Length ==> pn[j] == p[j]
      {
        AddMulNext(zeros, p, b32, carry, i, r);
        CarryFits(0, p[i], b32, carry);
        var n: nat := carry + Times(b32, pn[i]);
        assert n < BASE * BASE;  // fits in 64 bits
        pn[i] := Low(n);
        carry := Carry(n);
      }
      assert pn[..] == r;
    }

    /** The product, unless `b` is this very object: *this is zeroed before b is read, so `x *= x` makes 0. */
    method TimesAssign(b: BaseUint)
      requires b.pn.Length == pn.Length
      modifies pn
      ensures Value() == if b.pn == pn then 0 else Mod(Times(old(Value()), old(b.Value())), Modulus())
      ensures b.pn != pn ==> b.Value() == old(b.Value())
    {
      hide Low, Carry, Times, Num, Mod, Pow2, AddMul;
      var a := new BaseUint.Copy(this);
      ghost var sa, sb := a.pn[..], b.pn[..];
      SetZero();
      TimesConst(Num(sb));
      assert sa[..0] == [];
      assert Num([]) == 0 && Mod(0, Modulus()) == 0 by { NumNone([]); SmallMod(0, Modulus()); }
      for j := 0 to pn.Length
        invariant a.pn[..] == sa
        invariant if b.pn == pn then Value() == 0 else b.pn[..] == sb && Num(pn[..]) == Mod(Times(Num(sa[..j]), Num(sb)), Pow2(32 * pn.Length))
      {
        ghost var p := pn[..];
        if b.pn != pn { RowValue(p, sb, sa, j); }
        AddRow(a, b, j);
      }
      assert sa[..pn.Length] == sa;
    }

    /** The inner loop of the product, for limb `j` of `a`. */
    method AddRow(a: BaseUint, b: BaseUint, j: nat)
      requires a.pn.Length == b.pn.Length == pn.Length && a.pn != pn && j < pn.Length && (b.pn == pn ==> Value() == 0)
      modifies pn
      ensures pn[..] == if b.pn == pn then old(pn[..]) else Row(old(pn[..]), b.pn[..], a.pn[j], j)
    {
      hide Low, Carry, Times, AddMul, Num;
      NumZeroIff(pn[..]);
      ghost var p := pn[..];
      ghost var s := b.pn[..pn.Length - j];
      ghost var x, t := a.pn[j], p[j..];
      ghost var r := AddMul(t, s, x, 0);
      AddMulWhole(t, s, x, 0);
      assert b.pn[..][..pn.Length - j] == s;
      var carry := 0;
      for i := 0 to pn.Length - j
        invariant 0 <= carry < BASE && AddMul(t[i..], s[i..], x, carry) == r[i..]
        invariant b.pn == pn ==> carry == 0 && pn[..] == p && forall m :: 0 <= m < pn.Length ==> pn[m] == 0
        invariant forall m :: 0 <= m < j || j + i <= m < pn.Length ==> pn[m] == p[m]
        invariant forall m :: 0 <= m < i ==> pn[m + j] == r[m]
      {
        AddMulNext(t, s, x, carry, i, r);
        assert t[i] == p[j + i];
        CarryFits(t[i], s[i], x, carry);
        if b.pn == pn { TimesConst(x); LowCarryAre(0, 0, 0); }
        var n: nat := carry + pn[i + j] + Times(a.pn[j], b.pn[i]);
        assert n < BASE * BASE;  // fits in 64 bits
        pn[i + j] := Low(n);
        carry := Carry(n);
      }
      assert forall m :: j <= m < pn.Length ==> pn[m] == r[m - j] by {
        forall m | j <= m < pn.Length ensures pn[m] == r[m - j] { assert pn[m - j + j] == r[m - j]; }
      }
      assert pn[..] == p[..j] + r;
    }

    // ---------------------------------------------------------------- comparison

    method CompareTo(b: BaseUint) returns (r: int)
      requires b.pn.Length == pn.Length
      ensures r == if Value() < b.Value() then -1 else if Value() > b.Value() then 1 else 0
    {
      hide Num;
      var i := pn.Length;
      while i > 0
        invariant 0 <= i <= pn.Length && pn[i..] == b.pn[i..]
      {
        i := i - 1;
        assert pn[..][i + 1..] == b.pn[..][i + 1..];
        CompareFrom(pn[..], b.pn[..], i);
        if pn[i] < b.pn[i] { return -1; }
        if pn[i] > b.pn[i] { return 1; }
        assert pn[i..] == [pn[i]] + pn[i + 1..] && b.pn[i..] == [b.pn[i]] + b.pn[i + 1..];
      }
      assert pn[..] == b.pn[..];
      return 0;
    }

    method EqualTo(b: nat) returns (r: bool)
      requires pn.Length >= 2 && b < BASE * BASE
      ensures r == (Value() == b)
    {
      ghost var s := pn[..];
      TwoLimbs(s);
      var i := pn.Length;
      while i > 2
        invariant 2 <= i <= pn.Length && forall j :: i <= j < pn.Length ==> pn[j] == 0
      {
        i := i - 1;
        if pn[i] != 0 {
          assert s[2..][i - 2] != 0;
          NumZeroIff(s[2..]);
          return false;
        }
      }
      NumZeroIff(s[2..]);
      hide Num;
      LowCarry(b);
      LowCarryAre(s[0] + BASE * s[1], s[1], s[0]);
      if pn[1] != Carry(b) { return false; }
      if pn[0] != Low(b) { return false; }
      return true;
    }

    /** The number of bits up to the highest one set. */
    method Bits() returns (r: nat)
      ensures r == BitLen(Value())
    {
      hide Num, BitLen, Pow2, BitSet;
      var pos := pn.Length;
      while pos > 0
        invariant 0 <= pos <= pn.Length && forall i :: pos <= i < pn.Length ==> pn[i] == 0
      {
        pos := pos - 1;
        if pn[pos] != 0 {
          Pow2Base();
          var bits := 31;
          while bits > 0
            invariant 0 <= bits <= 31 && pn[pos] < Pow2(bits + 1)
          {
            TopBit(pn[pos], bits);
            if BitSet(pn[pos], bits) {
              BitLenAt(pn[..], pos, bits);
              return 32 * pos + bits + 1;
            }
            bits := bits - 1;
          }
          BitLenAt(pn[..], pos, 0);
          return 32 * pos + 1;
        }
      }
      NumZeroIff(pn[..]);
      BitLenIs(0);
      return 0;
    }

    // ---------------------------------------------------------------- division

    /** One round of the division: whether the shifted divisor fits decides the bit of the quotient. */
    method DivideBit(num: BaseUint, div: BaseUint, shift: nat, ghost n: nat, ghost d: nat)
      requires num.pn.Length == div.pn.Length == pn.Length && num.pn != pn && div.pn != pn && num.pn != div.pn
      requires shift < 32 * pn.Length && Dividing(n, d, Value(), num.Value(), shift) && ClearBelow(pn[..], shift + 1)
      requires div.Value() == Times(d, Pow2(shift))
      modifies pn, num.pn
      ensures Dividing(n, d, Value(), num.Value(), shift - 1) && ClearBelow(pn[..], shift)
    {
      hide Num, Div, Mod, Times, Pow2, Dividing, ClearBelow, Or;
      ghost var q := pn[..];
      DivideStep(n, d, Value(), num.Value(), shift);
      var c := num.CompareTo(div);
      if c >= 0 {
        NumBound(num.pn[..]);
        SmallMod(num.Value() - div.Value(), num.Modulus());
        num.MinusAssign(div);
        var i, s := shift / 32, shift % 32;
        SetBit(q, i, s);
        pn[i] := Or(pn[i], Pow2(s));
        assert pn[..] == q[i := Or(q[i], Pow2(s))];
      } else {
        ClearMore(q, shift + 1, shift);
      }
    }

    /** The result is false for a division by zero, which throws. `num` is the remainder. */
    method DivAssign(b: BaseUint) returns (ok: bool, num: BaseUint)
      requires b.pn.Length == pn.Length
      modifies pn
      ensures ok <==> old(b.Value()) > 0
      ensures ok ==> Value() == Div(old(Value()), old(b.Value()))
      ensures ok ==> num.pn.Length == pn.Length && num.Value() == Mod(old(Value()), old(b.Value()))
    {
      hide Num, Div, Mod, Times, Pow2, BitLen, Dividing, ClearBelow, Or;
      var div := new BaseUint.Copy(b);
      num := new BaseUint.Copy(this);
      ghost var n, d, width := Value(), b.Value(), 32 * pn.Length;
      SetZero();
      var num_bits := num.Bits();
      var div_bits := div.Bits();
      BitLenIs(d);
      BitLenIs(n);
      NumBound(num.pn[..]);
      if div_bits == 0 { return false, num; }
      ok := true;
      if div_bits > num_bits {
        Pow2Grows(num_bits, div_bits - 1);
        SmallMod(n, d);
        return;
      }
      var shift := num_bits - div_bits;
      DivideStart(n, d);
      DivideFits(n, d, width);
      TimesPositive(d, Pow2(shift));
      SmallMod(Times(d, Pow2(shift)), Modulus());
      div.ShlAssign(shift);
      ZerosClear(pn.Length, shift + 1);
      ShiftInside(n, d, width);
      while shift >= 0
        invariant -1 <= shift < width && fresh(num.pn) && fresh(div.pn) && num.pn != pn && div.pn != pn && num.pn != div.pn
        invariant num.pn.Length == div.pn.Length == pn.Length
        invariant Dividing(n, d, Value(), num.Value(), shift) && ClearBelow(pn[..], shift + 1)
        invariant shift >= 0 ==> div.Value() == Times(d, Pow2(shift))
        decreases shift
      {
        DivideBit(num, div, shift, n, d);
        if shift > 0 { HalfShifted(d, shift - 1); }
        div.ShrAssign(1);
        shift := shift - 1;
      }
      DivideEnd(n, d, Value(), num.Value());
    }
  }

  /** What the limb below shifts into limb `i`. */
  function ShiftedIn(s: seq<Limb>, i: nat, shift: nat): Limb
    requires i <= |s| && shift < 32
  {
    if i > 0 && shift != 0 then Shr(s[i - 1], 32 - shift) else 0
  }

  lemma ShiftedInFits(s: seq<Limb>, i: nat, shift: nat)
    requires i < |s| && shift < 32
    ensures Or(ShiftedIn(s, i, shift), Shl(s[i], shift)) < BASE
  {
    hide Or, Shl, Shr, Out, Times, Pow2, Low, Carry;
    var c := if i > 0 then Out(s[i - 1], shift) else 0;
    if i > 0 { ShiftedOut(s[i - 1], shift); }
    ShiftStep(s[i], c, shift);
  }

  /** Limb `m` of the right shift once the limbs below `i` are shifted in. */
  function ShrPart(s: seq<Limb>, k: nat, shift: nat, i: nat, m: nat): nat
    requires m < |s| && i <= |s| && shift < 32
  {
    if m + k >= i then 0 else if m + k == i - 1 then Shr(s[m + k], shift) else ShrLimb(s, k, shift, m)
  }

  lemma ShrPartFirst(s: seq<Limb>, k: nat, shift: nat)
    requires shift < 32
    ensures forall m :: 0 <= m < |s| ==> ShrPart(s, k, shift, 0, m) == 0
  {}

  lemma ShrPartNext(s: seq<Limb>, k: nat, shift: nat, i: nat, m: nat)
    requires m < |s| && i < |s| && shift < 32
    ensures ShrPart(s, k, shift, i + 1, m) ==
              if m == i - k - 1 && shift != 0 then Or(ShrPart(s, k, shift, i, m), Shl(s[i], 32 - shift))
              else if m == i - k then Or(ShrPart(s, k, shift, i, m), Shr(s[i], shift))
              else ShrPart(s, k, shift, i, m)
    ensures ShrPart(s, k, shift, i + 1, m) < BASE
  {
    hide Or, Shl, Shr;
    OrZero(Shr(s[i], shift));
    if m + k < i {
      OrZero(Shr(s[m + k], shift));
      if shift != 0 { ShiftedDown(s[m + k], s[m + k + 1], shift); }
    }
  }

  lemma ShrPartLast(s: seq<Limb>, k: nat, shift: nat, m: nat)
    requires m < |s| && shift < 32
    ensures ShrPart(s, k, shift, |s|, m) == ShrLimb(s, k, shift, m)
  {
    hide Or, Shl, Shr;
    if m + k == |s| - 1 { OrZero(Shr(s[m + k], shift)); }
  }

  lemma TwoLimbs(s: seq<Limb>)
    requires |s| >= 2
    ensures Num(s) == s[0] + BASE * s[1] + BASE * BASE * Num(s[2..])
  {
    assert s[1..][1..] == s[2..];
  }

  lemma ZerosClear(n: nat, low: nat)
    ensures ClearBelow(Zeros(n), low)
  {
    hide Times, Mod;
    forall i | 0 <= i < n ensures Aligned(Zeros(n)[i], ClearBits(i, low)) {
      TimesConst(Pow2(ClearBits(i, low)));
      ModOfMultiple(Pow2(ClearBits(i, low)), 0);
    }
  }

  lemma ShiftInside(n: nat, d: nat, width: nat)
    requires n < Pow2(width) && BitLen(d) > 0
    ensures BitLen(n) - BitLen(d) < width
  {
    hide BitLen, Pow2;
    BitLenIs(n);
    if BitLen(n) > width { Pow2Grows(width, BitLen(n) - 1); }
  }
}
