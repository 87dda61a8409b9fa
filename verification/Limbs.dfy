/** Numbers as sequences of 32-bit limbs, least significant first. */
module Limbs {
  import opened Basics
  import opened Products

  const BASE: nat := 0x1_0000_0000

  type Limb = x: int | 0 <= x < 0x1_0000_0000

  /** Products with the numbers that occur most. */
  lemma TimesConst(b: int)
    ensures Times(0, b) == 0 == Times(b, 0) && Times(1, b) == b == Times(b, 1) && Times(2, b) == 2 * b
    ensures Times(BASE, b) == BASE * b == Times(b, BASE)
  {}

  // ---------------------------------------------------------------- powers of two

  lemma {:induction false} Pow2Add(a: nat, b: nat)
    ensures Pow2(a + b) == Times(Pow2(a), Pow2(b))
    decreases a
  {
    hide Times;
    TimesConst(Pow2(b));
    if a > 0 {
      Pow2Add(a - 1, b);
      TimesAssoc(2, Pow2(a - 1), Pow2(b));
      TimesConst(Pow2(a - 1));
      TimesConst(Times(Pow2(a - 1), Pow2(b)));
    }
  }

  lemma Pow2Base()
    ensures Pow2(32) == BASE && Pow2(8) == 256 && Pow2(16) == 0x1_0000 && Pow2(0) == 1 && Pow2(1) == 2
  {
    assert Pow2(8) == 256;
    Pow2Add(8, 8);
    Pow2Add(16, 16);
  }

  lemma {:induction false} Pow2Grows(a: nat, b: nat)
    requires a <= b
    ensures Pow2(a) <= Pow2(b) && (a < b ==> 2 * Pow2(a) <= Pow2(b))
    decreases b
  {
    if a < b { Pow2Grows(a, b - 1); }
  }

  /** One limb more. */
  lemma Pow2Limb(n: nat)
    ensures Pow2(32 * (n + 1)) == BASE * Pow2(32 * n)
  {
    hide Times;
    Pow2Base();
    Pow2Add(32, 32 * n);
    TimesConst(Pow2(32 * n));
  }

  /** A limb split at bit `s`. */
  lemma Pow2Split(s: nat)
    requires s <= 32
    ensures Times(Pow2(s), Pow2(32 - s)) == BASE == Times(Pow2(32 - s), Pow2(s))
  {
    Pow2Base();
    Pow2Add(s, 32 - s);
    TimesComm(Pow2(s), Pow2(32 - s));
  }

  // ---------------------------------------------------------------- values

  function Num(s: seq<Limb>): nat { if s == [] then 0 else s[0] + BASE * Num(s[1..]) }

  lemma {:induction false} NumBound(s: seq<Limb>)
    ensures Num(s) < Pow2(32 * |s|)
  {
    hide Pow2;
    if s != [] {
      NumBound(s[1..]);
      Pow2Limb(|s| - 1);
    } else {
      Pow2Base();
    }
  }

  lemma {:induction false} NumAppend(s: seq<Limb>, t: seq<Limb>)
    ensures Num(s + t) == Num(s) + Times(Pow2(32 * |s|), Num(t))
  {
    hide Times, Pow2;
    Pow2Base();
    TimesConst(Num(t));
    if s == [] {
      assert s + t == t;
    } else {
      NumAppend(s[1..], t);
      assert (s + t)[1..] == s[1..] + t;
      Pow2Limb(|s| - 1);
      var p := Pow2(32 * (|s| - 1));
      TimesAssoc(BASE, p, Num(t));
      TimesConst(Times(p, Num(t)));
      TimesConst(p);
    }
  }

  /** Two limb sequences of the same length with the same value are the same. */
  lemma {:induction false} NumInjective(s: seq<Limb>, t: seq<Limb>)
    requires |s| == |t| && Num(s) == Num(t)
    ensures s == t
  {
    if s != [] {
      LowestLimb(s);
      LowestLimb(t);
      NumInjective(s[1..], t[1..]);
    }
  }

  lemma LowestLimb(s: seq<Limb>)
    requires s != []
    ensures Mod(Num(s), BASE) == s[0] && Div(Num(s), BASE) == Num(s[1..])
  {
    hide Times, Div, Mod;
    TimesConst(Num(s[1..]));
    DivUnique(Num(s), BASE, Num(s[1..]), s[0]);
  }

  function Zeros(n: nat): seq<Limb> { seq(n, _ => 0) }

  lemma {:induction false} NumZeros(n: nat)
    ensures Num(Zeros(n)) == 0
  {
    if n > 0 {
      NumZeros(n - 1);
      assert Zeros(n)[1..] == Zeros(n - 1);
    }
  }

  lemma {:induction false} NumZeroIff(s: seq<Limb>)
    ensures Num(s) == 0 <==> forall i :: 0 <= i < |s| ==> s[i] == 0
  {
    if s != [] { NumZeroIff(s[1..]); }
  }

  /** The low limbs are the value modulo, the high limbs the quotient. */
  lemma NumSplit(s: seq<Limb>, k: nat)
    requires k <= |s|
    ensures Num(s[..k]) == Mod(Num(s), Pow2(32 * k)) && Num(s[k..]) == Div(Num(s), Pow2(32 * k))
    ensures Num(s) == Num(s[..k]) + Times(Pow2(32 * k), Num(s[k..]))
  {
    hide Times, Div, Mod, Num, Pow2;
    assert s == s[..k] + s[k..];
    NumAppend(s[..k], s[k..]);
    NumBound(s[..k]);
    DivUnique(Num(s), Pow2(32 * k), Num(s[k..]), Num(s[..k]));
  }

  // ---------------------------------------------------------------- multiply and add

  function Low(n: nat): Limb { n % BASE }

  function Carry(n: nat): nat { n / BASE }

  lemma LowCarry(n: nat)
    ensures n == Low(n) + BASE * Carry(n)
  {}

  lemma LowCarryAre(n: nat, q: nat, r: nat)
    requires n == BASE * q + r && r < BASE
    ensures Low(n) == r && Carry(n) == q
  {}

  /** The limbs of p + x * b + c, and the carry out of the last of them. */
  function AddMul(p: seq<Limb>, b: seq<Limb>, x: nat, c: nat): (r: seq<Limb>)
    requires |p| == |b|
    ensures |r| == |p|
  {
    TimesPositive(x, if p == [] then 0 else b[0]);
    if p == [] then []
    else var n := c + p[0] + Times(x, b[0]); [Low(n)] + AddMul(p[1..], b[1..], x, Carry(n))
  }

  function CarryOut(p: seq<Limb>, b: seq<Limb>, x: nat, c: nat): nat
    requires |p| == |b|
  {
    TimesPositive(x, if p == [] then 0 else b[0]);
    if p == [] then c else CarryOut(p[1..], b[1..], x, Carry(c + p[0] + Times(x, b[0])))
  }

  lemma {:induction false} AddMulValue(p: seq<Limb>, b: seq<Limb>, x: nat, c: nat)
    requires |p| == |b|
    ensures Num(AddMul(p, b, x, c)) + Times(Pow2(32 * |p|), CarryOut(p, b, x, c)) == Num(p) + Times(x, Num(b)) + c
  {
    hide Low, Carry, Times, Pow2;
    Pow2Base();
    TimesConst(x);
    TimesConst(CarryOut(p, b, x, c));
    if p != [] {
      TimesPositive(x, b[0]);
      var n := c + p[0] + Times(x, b[0]);
      LowCarry(n);
      AddMulValue(p[1..], b[1..], x, Carry(n));
      Pow2Limb(|p| - 1);
      var r := AddMul(p[1..], b[1..], x, Carry(n));
      assert AddMul(p, b, x, c)[1..] == r;
      AddMulStep(x, b[0], Num(b[1..]), Pow2(32 * (|p| - 1)), CarryOut(p, b, x, c));
    }
  }

  lemma AddMulStep(x: nat, b0: nat, nb: nat, w: nat, out: nat)
    ensures Times(x, b0 + BASE * nb) == Times(x, b0) + BASE * Times(x, nb)
    ensures BASE * Times(w, out) == Times(BASE * w, out)
  {
    hide Times;
    TimesAdd(x, b0, BASE * nb);
    TimesConst(nb);
    TimesAssoc(x, nb, BASE);
    TimesConst(Times(x, nb));
    TimesAssoc(BASE, w, out);
    TimesConst(w);
    TimesConst(Times(w, out));
  }

  /** So the limbs are the value modulo the width. */
  lemma AddMulMod(p: seq<Limb>, b: seq<Limb>, x: nat, c: nat)
    requires |p| == |b|
    ensures Num(AddMul(p, b, x, c)) == Mod(Num(p) + Times(x, Num(b)) + c, Pow2(32 * |p|))
  {
    hide Times, Div, Mod, Num, AddMul, CarryOut, Pow2;
    AddMulValue(p, b, x, c);
    NumBound(AddMul(p, b, x, c));
    DivUnique(Num(p) + Times(x, Num(b)) + c, Pow2(32 * |p|), CarryOut(p, b, x, c), Num(AddMul(p, b, x, c)));
  }

  /** With 32-bit factors the carry stays below 2^32 and the accumulator below 2^64. */
  lemma CarryFits(p0: Limb, b0: Limb, x: nat, c: nat)
    requires x < BASE && c < BASE
    ensures 0 <= c + p0 + Times(x, b0) < BASE * BASE && Carry(c + p0 + Times(x, b0)) < BASE
  {
    hide Times;
    TimesPositive(x, b0);
    TimesOrder(x, b0, BASE - 1);
    TimesAdd(x, BASE, -1);
    TimesAdd(x, 1, -1);
    TimesConst(x);
    LowCarry(c + p0 + Times(x, b0));
  }

  // ---------------------------------------------------------------- bitwise or

  function Or(x: nat, y: nat): nat
    decreases x + y
  {
    if x == 0 && y == 0 then 0
    else (if x % 2 == 1 || y % 2 == 1 then 1 else 0) + 2 * Or(x / 2, y / 2)
  }

  lemma {:induction false} OrZero(x: nat)
    ensures Or(x, 0) == x && Or(0, x) == x
  {
    if x > 0 { OrZero(x / 2); }
  }

  /** `x` has no bits below `k`. */
  predicate Aligned(x: nat, k: nat) { Mod(x, Pow2(k)) == 0 }

  lemma HalfAligned(x: nat, k: nat)
    requires k > 0 && Aligned(x, k)
    ensures x % 2 == 0 && Aligned(x / 2, k - 1)
  {
    hide Times, Mod, Div;
    var q, h := Div(x, Pow2(k)), Pow2(k - 1);
    DivMod(x, Pow2(k));
    TimesConst(h);
    TimesAssoc(2, h, q);
    TimesConst(Times(h, q));
    DivUnique(Times(h, q), h, q, 0);
    assert x == 2 * Times(h, q);
  }

  /** Bits that do not overlap add up. */
  lemma {:induction false} OrDisjoint(x: nat, y: nat, k: nat)
    requires Aligned(x, k) && y < Pow2(k)
    ensures Or(x, y) == x + y && Or(y, x) == x + y
    decreases k
  {
    hide Aligned;
    if k == 0 {
      OrZero(x);
    } else {
      HalfAligned(x, k);
      OrDisjoint(x / 2, y / 2, k - 1);
    }
  }

  lemma AlignedMultiple(k: nat, q: nat)
    ensures Times(Pow2(k), q) >= 0 && Aligned(Times(Pow2(k), q), k)
  {
    hide Times, Mod;
    TimesPositive(Pow2(k), q);
    ModOfMultiple(Pow2(k), q);
  }

  lemma AlignedLess(x: nat, j: nat, k: nat)
    requires Aligned(x, k) && j <= k
    ensures Aligned(x, j)
  {
    hide Times, Div, Mod;
    DivMod(x, Pow2(k));
    Pow2Add(j, k - j);
    TimesAssoc(Pow2(j), Pow2(k - j), Div(x, Pow2(k)));
    ModOfMultiple(Pow2(j), Times(Pow2(k - j), Div(x, Pow2(k))));
  }

  // ---------------------------------------------------------------- shifts to the left

  /** `x << s` in 32 bits, and `x >> s`. */
  function Shl(x: Limb, s: nat): Limb {
    TimesPositive(x, Pow2(s));
    Low(Times(x, Pow2(s)))
  }

  function Shr(x: Limb, s: nat): Limb {
    ShrFits(x, s);
    Div(x, Pow2(s))
  }

  lemma ShrFits(x: Limb, s: nat)
    ensures 0 <= Div(x, Pow2(s)) < BASE
  {
    hide Times, Div, Mod, Pow2;
    DivMod(x, Pow2(s));
    TimesPositive(Pow2(s), Div(x, Pow2(s)));
  }

  /** What multiplying by 2^s carries out of a limb. */
  function Out(x: Limb, s: nat): nat {
    TimesPositive(x, Pow2(s));
    Carry(Times(x, Pow2(s)))
  }

  /** Limb `m` of the number shifted left. */
  function ShlLimb(a: seq<Limb>, k: nat, s: nat, m: nat): nat
    requires m < |a| && s < 32
  {
    if m < k then 0
    else Or(if m - k - 1 >= 0 && s != 0 then Shr(a[m - k - 1], 32 - s) else 0, Shl(a[m - k], s))
  }

  /** What a limb times 2^s carries over is what is shifted out of it. */
  lemma ShiftedOut(x: Limb, s: nat)
    requires s < 32
    ensures Out(x, s) == (if s == 0 then 0 else Shr(x, 32 - s)) && Out(x, s) < Pow2(s)
    ensures Aligned(Shl(x, s), s)
    ensures Times(x, Pow2(s)) == BASE * Out(x, s) + Shl(x, s)
  {
    hide Times, Div, Mod, Low, Carry, Pow2, Aligned;
    var p, h := Pow2(s), Pow2(32 - s);
    var q, r := Div(x, h), Mod(x, h);
    Pow2Split(s);
    DivMod(x, h);
    // x * p == BASE * q + p * r
    TimesComm(x, p);
    TimesAdd(p, Times(h, q), r);
    TimesAssoc(p, h, q);
    TimesConst(q);
    TimesOrder(p, r, h - 1);
    TimesAdd(p, h, -1);
    TimesAdd(p, 1, -1);
    TimesConst(p);
    TimesPositive(p, r);
    LowCarryAre(Times(x, p), q, Times(p, r));
    AlignedMultiple(s, r);
    // q < p
    TimesComm(h, q);
    TimesComm(h, p);
    TimesCancel(h, q, p);
    if s == 0 { Pow2Base(); }
  }

  /** One step of multiplying by 2^s puts the bits shifted in below those shifted up. */
  lemma ShiftStep(x: Limb, c: nat, s: nat)
    requires s < 32 && c < Pow2(s)
    ensures Times(Pow2(s), x) >= 0
    ensures Low(c + Times(Pow2(s), x)) == Or(c, Shl(x, s)) && Carry(c + Times(Pow2(s), x)) == Out(x, s) < Pow2(s)
  {
    hide Times, Low, Carry, Or, Shl, Out, Pow2, Aligned;
    ShiftedOut(x, s);
    TimesComm(Pow2(s), x);
    TimesPositive(x, Pow2(s));
    OrDisjoint(Shl(x, s), c, s);
    Pow2Split(s);
    RoomBelow(Shl(x, s), c, s, Pow2(32 - s));
    LowCarryAre(c + Times(x, Pow2(s)), Out(x, s), Shl(x, s) + c);
  }

  lemma RoomBelow(l: nat, c: nat, s: nat, h: nat)
    requires Aligned(l, s) && c < Pow2(s) && l < Times(Pow2(s), h)
    ensures l + c < Times(Pow2(s), h)
  {
    hide Times, Div, Mod, Pow2;
    var p := Pow2(s);
    DivMod(l, p);
    TimesCancel(p, Div(l, p), h);
    TimesOrder(p, Div(l, p) + 1, h);
    TimesAdd(p, Div(l, p), 1);
    TimesConst(p);
  }

  /** Shifting by less than a limb is multiplying by a power of two. */
  lemma {:induction false} ShlIsMul(a: seq<Limb>, s: nat, c: nat, m: nat)
    requires s < 32 && c < Pow2(s) && m < |a|
    ensures AddMul(Zeros(|a|), a, Pow2(s), c)[m] == Or(if m == 0 then c else Out(a[m - 1], s), Shl(a[m], s))
    decreases |a|
  {
    hide Low, Carry, Shl, Or, Out, Times, Pow2;
    ShiftStep(a[0], c, s);
    assert Zeros(|a|)[1..] == Zeros(|a| - 1);
    if m > 0 { ShlIsMul(a[1..], s, Out(a[0], s), m - 1); }
  }

  /** Shifting by whole limbs as well: the limbs of a * 2^(32k + s), cut to the width. */
  lemma ShlValue(a: seq<Limb>, k: nat, s: nat, r: seq<Limb>)
    requires s < 32 && |r| == |a| && forall m :: 0 <= m < |a| ==> r[m] == ShlLimb(a, k, s, m)
    ensures Num(r) == Mod(Times(Num(a), Pow2(32 * k + s)), Pow2(32 * |a|))
  {
    hide Times, Mod, Div, Or, Num, AddMul, Shl, Shr, Out, Pow2;
    var d := if k < |a| then |a| - k else 0;
    var b := a[..d];
    var t := AddMul(Zeros(d), b, Pow2(s), 0);
    ShlLimbs(a, k, s, r);
    NumZeros(|a| - d);
    NumZeros(d);
    NumAppend(Zeros(|a| - d), t);
    AddMulMod(Zeros(d), b, Pow2(s), 0);
    NumSplit(a, d);
    ShlMod(Num(a), Num(b), k, s, d, |a|, Num(t), Num(a[d..]));
  }

  lemma ShlLimbs(a: seq<Limb>, k: nat, s: nat, r: seq<Limb>)
    requires s < 32 && |r| == |a| && forall m :: 0 <= m < |a| ==> r[m] == ShlLimb(a, k, s, m)
    ensures var d := if k < |a| then |a| - k else 0;
            r == Zeros(|a| - d) + AddMul(Zeros(d), a[..d], Pow2(s), 0)
  {
    hide Or, AddMul, Shl, Shr, Out, Pow2;
    var d := if k < |a| then |a| - k else 0;
    var b := a[..d];
    var t := AddMul(Zeros(d), b, Pow2(s), 0);
    forall m | 0 <= m < |r| ensures r[m] == (Zeros(|a| - d) + t)[m] {
      assert r[m] == ShlLimb(a, k, s, m);
      if m >= k {
        ShlIsMul(b, s, 0, m - k);
        if m > k { ShiftedOut(a[m - k - 1], s); }
      }
    }
  }

  /** The arithmetic of a shift: cutting limbs off before or after makes no difference. */
  lemma ShlMod(n: nat, low: nat, k: nat, s: nat, d: nat, w: nat, t: nat, high: nat)
    requires d == (if k < w then w - k else 0) && n == low + Times(Pow2(32 * d), high)
    requires t == Mod(Times(Pow2(s), low), Pow2(32 * d))
    ensures Times(Pow2(32 * (w - d)), t) == Mod(Times(n, Pow2(32 * k + s)), Pow2(32 * w))
  {
    hide Times, Div, Mod, Pow2;
    var p, ps, pw := Pow2(32 * (w - d)), Pow2(s), Pow2(32 * d);
    Pow2Add(32 * (w - d), 32 * d);
    Pow2Add(32 * k, s);
    if k >= w {
      Pow2Base();
      DivMod(Times(ps, low), pw);
      TimesConst(p);
      Pow2Add(32 * w, 32 * k - 32 * w);
      var m, e := Pow2(32 * w), Pow2(32 * k - 32 * w);
      TimesAssoc(m, e, ps);
      TimesComm(n, Times(m, Times(e, ps)));
      TimesAssoc(m, Times(e, ps), n);
      ModOfMultiple(m, Times(Times(e, ps), n));
    } else {
      TimesPositive(ps, low);
      var q := Div(Times(ps, low), pw);
      DivMod(Times(ps, low), pw);
      ShlProduct(n, low, high, p, ps, pw, q, t);
      TimesPositive(p, t);
      TimesCancel(p, t, pw);
      DivUnique(Times(n, Pow2(32 * k + s)), Pow2(32 * w), q + Times(ps, high), Times(p, t));
    }
  }

  lemma ShlProduct(n: nat, low: nat, high: nat, p: nat, ps: nat, pw: nat, q: nat, t: nat)
    requires n == low + Times(pw, high) && Times(ps, low) == Times(pw, q) + t
    ensures Times(n, Times(p, ps)) == Times(Times(p, pw), q + Times(ps, high)) + Times(p, t)
  {
    hide Times;
    var h := Times(pw, high);
    TimesComm(n, Times(p, ps));
    TimesAssoc(p, ps, n);
    TimesAdd(ps, low, h);
    // ps * (pw * high) == pw * (ps * high)
    TimesAssoc(ps, pw, high);
    TimesComm(ps, pw);
    TimesAssoc(pw, ps, high);
    TimesAdd(pw, q, Times(ps, high));
    TimesAdd(p, Times(pw, q + Times(ps, high)), t);
    TimesAssoc(p, pw, q + Times(ps, high));
  }

  // ---------------------------------------------------------------- shifts to the right

  /** Limb `m` of the number shifted right. */
  function ShrLimb(a: seq<Limb>, k: nat, s: nat, m: nat): nat
    requires m < |a| && s < 32
  {
    if m + k >= |a| then 0
    else Or(Shr(a[m + k], s), if m + k + 1 < |a| && s != 0 then Shl(a[m + k + 1], 32 - s) else 0)
  }

  /** What comes down from the limb above. */
  lemma ShiftedDown(x: Limb, y: Limb, s: nat)
    requires 0 < s < 32
    ensures Or(Shr(x, s), Shl(y, 32 - s)) == Div(x, Pow2(s)) + Times(Pow2(32 - s), Mod(y, Pow2(s))) < BASE
  {
    hide Times, Div, Mod, Low, Carry, Or, Pow2, Aligned;
    var p, h := Pow2(s), Pow2(32 - s);
    var q, r := Div(y, p), Mod(y, p);
    Pow2Split(s);
    DivMod(y, p);
    TimesComm(y, h);
    TimesAdd(h, Times(p, q), r);
    TimesAssoc(h, p, q);
    TimesConst(q);
    TimesPositive(h, r);
    TimesCancel(h, r, p);
    TimesPositive(y, h);
    LowCarryAre(Times(y, h), q, Times(h, r));
    assert Shl(y, 32 - s) == Times(h, r);
    // the part of x
    DivMod(x, p);
    TimesCancel(p, Div(x, p), h);
    ShrFits(x, s);
    AlignedMultiple(32 - s, r);
    OrDisjoint(Times(h, r), Div(x, p), 32 - s);
    RoomBelow(Times(h, r), Div(x, p), 32 - s, p);
  }

  /** All limbs shifted right by less than a limb. */
  function ShrBits(a: seq<Limb>, s: nat): (r: seq<Limb>)
    requires s < 32
    ensures |r| == |a|
  {
    if a == [] then []
    else
      ShrLimbFits(a, s);
      [ShrLimb(a, 0, s, 0)] + ShrBits(a[1..], s)
  }

  lemma ShrLimbFits(a: seq<Limb>, s: nat)
    requires a != [] && s < 32
    ensures ShrLimb(a, 0, s, 0) < BASE
    ensures ShrLimb(a, 0, s, 0) == if s == 0 then a[0] else
              Div(a[0], Pow2(s)) + Times(Pow2(32 - s), Mod(if |a| > 1 then a[1] else 0, Pow2(s)))
  {
    hide Times, Div, Mod, Or, Shl, Shr;
    if s == 0 {
      OrZero(Shr(a[0], 0));
      ShrNone(a[0]);
    } else {
      ShiftedDown(a[0], if |a| > 1 then a[1] else 0, s);
      NothingDown(32 - s);
      OrZero(Shr(a[0], s));
      ShrIs(a[0], s);
    }
  }

  lemma ShrIs(x: Limb, s: nat)
    ensures Shr(x, s) == Div(x, Pow2(s))
  {}

  lemma ShrNone(x: Limb)
    ensures Shr(x, 0) == x
  {}

  lemma NothingDown(s: nat)
    ensures Shl(0, s) == 0
  {
    hide Times;
    TimesConst(Pow2(s));
  }

  lemma {:induction false} ShrBitsAt(a: seq<Limb>, s: nat, m: nat)
    requires s < 32 && m < |a|
    ensures ShrBits(a, s)[m] == ShrLimb(a, 0, s, m)
  {
    hide Or, Shl, Shr;
    if m > 0 { ShrBitsAt(a[1..], s, m - 1); }
  }

  lemma {:induction false} ShrBitsValue(a: seq<Limb>, s: nat)
    requires s < 32
    ensures Num(ShrBits(a, s)) == Div(Num(a), Pow2(s))
  {
    hide Times, Div, Mod, ShrLimb, Pow2;
    if a == [] {
      TimesConst(Pow2(s));
      DivUnique(0, Pow2(s), 0, 0);
    } else {
      ShrBitsValue(a[1..], s);
      ShrLimbFits(a, s);
      assert ShrBits(a, s)[1..] == ShrBits(a[1..], s);
      if s == 0 {
        Pow2Base();
        TimesConst(Num(a));
        TimesConst(Num(a[1..]));
        DivUnique(Num(a), 1, Num(a), 0);
        DivUnique(Num(a[1..]), 1, Num(a[1..]), 0);
      } else {
        LowBits(a[1..], s);
        ShrSum(a[0], Num(a[1..]), s);
      }
    }
  }

  /** The low bits of a number are those of its lowest limb. */
  lemma LowBits(a: seq<Limb>, s: nat)
    requires s < 32
    ensures Mod(Num(a), Pow2(s)) == Mod(if a == [] then 0 else a[0], Pow2(s))
  {
    hide Times, Div, Mod, Pow2;
    if a != [] {
      var h, n := Pow2(32 - s), Num(a[1..]);
      Pow2Split(s);
      TimesAssoc(Pow2(s), h, n);
      TimesConst(n);
      ModAdd(a[0], Pow2(s), Times(h, n));
    }
  }

  lemma ShrSum(x: nat, n: nat, s: nat)
    requires s < 32
    ensures Div(x + BASE * n, Pow2(s)) == Div(x, Pow2(s)) + Times(Pow2(32 - s), Mod(n, Pow2(s))) + BASE * Div(n, Pow2(s))
  {
    hide Times, Div, Mod, Pow2;
    var p, h := Pow2(s), Pow2(32 - s);
    var e, low := Div(n, p), Mod(n, p);
    Pow2Split(s);
    DivMod(x, p);
    DivMod(n, p);
    // BASE * n == p * (h * n), and h * n == BASE * e + h * low
    TimesAssoc(p, h, n);
    TimesConst(n);
    TimesAdd(h, Times(p, e), low);
    TimesAssoc(h, p, e);
    TimesConst(e);
    TimesAdd(p, Div(x, p), Times(h, n));
    DivUnique(x + BASE * n, p, Div(x, p) + Times(h, n), Mod(x, p));
  }

  /** Shifting right by any amount is floor division by the power of two. */
  lemma ShrValue(a: seq<Limb>, k: nat, s: nat, r: seq<Limb>)
    requires s < 32 && |r| == |a| && forall m :: 0 <= m < |a| ==> r[m] == ShrLimb(a, k, s, m)
    ensures Num(r) == Div(Num(a), Pow2(32 * k + s))
  {
    hide Times, Div, Mod, Or, Num, Shl, Shr, Pow2, ShrBits;
    var d := if k < |a| then k else |a|;
    var b := a[d..];
    var t := ShrBits(b, s);
    assert r == t + Zeros(d) by {
      forall m | 0 <= m < |r| ensures r[m] == (t + Zeros(d))[m] {
        assert r[m] == ShrLimb(a, k, s, m);
        if m < |b| { ShrBitsAt(b, s, m); }
      }
    }
    ShrBitsValue(b, s);
    NumZeros(d);
    NumAppend(t, Zeros(d));
    TimesConst(Pow2(32 * |t|));
    Pow2Add(32 * k, s);
    NumSplit(a, d);
    if k <= |a| {
      DivDiv(Num(a), Pow2(32 * k), Pow2(s));
    } else {
      NumBound(a);
      Pow2Grows(32 * |a|, 32 * k + s);
      TimesConst(Pow2(32 * k + s));
      DivUnique(Num(a), Pow2(32 * k + s), 0, Num(a));
      TimesConst(Pow2(s));
      NumNone(b);
      DivUnique(0, Pow2(s), 0, 0);
    }
  }

  lemma NumNone(b: seq<Limb>)
    requires |b| == 0
    ensures Num(b) == 0
  {}
}
