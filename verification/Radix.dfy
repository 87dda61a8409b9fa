/** Numbers as digits in any base, most significant first. */
module Radix {
  import opened Products

  function Pow(b: nat, e: nat): nat {
    if e == 0 then 1
    else
      TimesPositive(b, Pow(b, e - 1));
      Times(b, Pow(b, e - 1))
  }

  lemma {:induction false} PowAdd(b: nat, d: nat, e: nat)
    ensures Pow(b, d + e) == Times(Pow(b, d), Pow(b, e))
    decreases d
  {
    hide Times;
    TimesUnit(Pow(b, e));
    if d > 0 {
      PowAdd(b, d - 1, e);
      TimesAssoc(b, Pow(b, d - 1), Pow(b, e));
    }
  }

  lemma {:induction false} PowPositive(b: nat, e: nat)
    requires b > 0
    ensures Pow(b, e) > 0
  {
    hide Times;
    if e > 0 {
      PowPositive(b, e - 1);
      TimesPositive(b, Pow(b, e - 1));
    }
  }

  type Digits = seq<nat>

  predicate Below(s: Digits, base: nat) { forall i :: 0 <= i < |s| ==> s[i] < base }

  function Val(base: nat, s: Digits): nat {
    if s == [] then 0
    else
      TimesPositive(Val(base, s[..|s| - 1]), base);
      Times(Val(base, s[..|s| - 1]), base) + s[|s| - 1]
  }

  lemma ValAppend(base: nat, s: Digits, d: nat)
    ensures Val(base, s + [d]) == Times(Val(base, s), base) + d
  {
    assert (s + [d])[..|s|] == s;
  }

  /** A digit in front counts for a power of the base. */
  lemma {:induction false} ValFront(base: nat, d: nat, s: Digits)
    ensures Val(base, [d] + s) == Times(d, Pow(base, |s|)) + Val(base, s)
  {
    hide Times;
    TimesUnit(d);
    if s == [] {
      ValAppend(base, [], d);
      assert [] + [d] == [d] + s;
      TimesUnit(base);
    } else {
      var k := |s| - 1;
      ValFront(base, d, s[..k]);
      assert ([d] + s)[..|s|] == [d] + s[..k];
      TimesAdd(base, Times(d, Pow(base, k)), Val(base, s[..k]));
      TimesAssoc(d, Pow(base, k), base);
      TimesComm(Pow(base, k), base);
    }
  }

  lemma {:induction false} ValBound(base: nat, s: Digits)
    requires base > 0 && Below(s, base)
    ensures Val(base, s) < Pow(base, |s|)
  {
    hide Times;
    if s != [] {
      var k := |s| - 1;
      ValBound(base, s[..k]);
      TimesComm(base, Pow(base, k));
      TimesComm(base, Val(base, s[..k]) + 1);
      TimesComm(base, Pow(base, k));
      TimesOrder(base, Val(base, s[..k]) + 1, Pow(base, k));
      TimesAdd(base, Val(base, s[..k]), 1);
      TimesUnit(base);
      TimesComm(base, Val(base, s[..k]));
    }
  }

  function Zeros(n: nat): Digits { seq(n, _ => 0) }

  function LeadingZeros(s: Digits): (n: nat)
    ensures n <= |s|
  {
    if s == [] || s[0] != 0 then 0 else 1 + LeadingZeros(s[1..])
  }

  lemma {:induction false} LeadingZerosAre(s: Digits, n: nat)
    requires n <= |s| && (forall i :: 0 <= i < n ==> s[i] == 0) && (n < |s| ==> s[n] != 0)
    ensures LeadingZeros(s) == n
    decreases n
  {
    if n > 0 { LeadingZerosAre(s[1..], n - 1); }
  }

  lemma {:induction false} LeadingZerosSplit(s: Digits)
    ensures var n := LeadingZeros(s);
            s == Zeros(n) + s[n..] && (n < |s| ==> s[n] != 0) && forall i :: 0 <= i < n ==> s[i] == 0
  {
    if s != [] && s[0] == 0 {
      LeadingZerosSplit(s[1..]);
      var n := LeadingZeros(s);
      forall i | 0 <= i < n ensures s[i] == 0 { if i > 0 { assert s[i] == s[1..][i - 1]; } }
      ZerosFront(s, n);
      assert n < |s| ==> s[n] == s[1..][n - 1];
    } else {
      ZerosFront(s, 0);
    }
  }

  lemma ZerosFront(s: Digits, n: nat)
    requires n <= |s| && forall i :: 0 <= i < n ==> s[i] == 0
    ensures s == Zeros(n) + s[n..]
  {
    assert s == s[..n] + s[n..];
    assert s[..n] == Zeros(n);
  }

  /** Zeros in front do not count. */
  lemma {:induction false} ValZeros(base: nat, n: nat, s: Digits)
    ensures Val(base, Zeros(n) + s) == Val(base, s)
    decreases n
  {
    hide Times;
    if n == 0 {
      assert Zeros(0) + s == s;
    } else {
      assert Zeros(n) + s == [0] + (Zeros(n - 1) + s);
      ValFront(base, 0, Zeros(n - 1) + s);
      TimesUnit(Pow(base, |Zeros(n - 1) + s|));
      ValZeros(base, n - 1, s);
    }
  }

  /** No digit for zero, and no leading zero. */
  predicate Canonical(s: Digits) { s == [] || s[0] != 0 }

  lemma {:induction false} CanonicalPositive(base: nat, s: Digits)
    requires base > 0 && Canonical(s) && s != []
    ensures Val(base, s) > 0
  {
    hide Times;
    var t := s[1..];
    assert s == [s[0]] + t;
    ValFront(base, s[0], t);
    PowPositive(base, |t|);
    TimesPositive(s[0], Pow(base, |t|));
  }

  /** Digits without a leading zero are determined by their value. */
  lemma {:induction false} CanonicalUnique(base: nat, s: Digits, t: Digits)
    requires base > 1 && Below(s, base) && Below(t, base) && Canonical(s) && Canonical(t) && Val(base, s) == Val(base, t)
    ensures s == t
    decreases |s|
  {
    hide Times, Div, Mod;
    if s == [] {
      if t != [] { CanonicalPositive(base, t); }
    } else if t == [] {
      CanonicalPositive(base, s);
    } else {
      LastDigit(base, s);
      LastDigit(base, t);
      CanonicalUnique(base, s[..|s| - 1], t[..|t| - 1]);
      assert s == s[..|s| - 1] + [s[|s| - 1]] && t == t[..|t| - 1] + [t[|t| - 1]];
    }
  }

  lemma LastDigit(base: nat, s: Digits)
    requires base > 0 && s != [] && Below(s, base)
    ensures Mod(Val(base, s), base) == s[|s| - 1] && Div(Val(base, s), base) == Val(base, s[..|s| - 1])
  {
    hide Times, Div, Mod;
    TimesComm(base, Val(base, s[..|s| - 1]));
    DivUnique(Val(base, s), base, Val(base, s[..|s| - 1]), s[|s| - 1]);
  }

  /** Converting digits: without their leading zeros they are the only ones of their value. */
  lemma StrippedUnique(base: nat, s: Digits, t: Digits)
    requires base > 1 && Below(s, base) && Below(t, base) && Canonical(t) && Val(base, s) == Val(base, t)
    ensures s[LeadingZeros(s)..] == t
  {
    hide Val;
    LeadingZerosSplit(s);
    var n := LeadingZeros(s);
    ValZeros(base, n, s[n..]);
    CanonicalUnique(base, s[n..], t);
  }

  /** The digits of a number, none for zero. */
  function DigitsOf(base: nat, n: nat): Digits
    requires base > 1
    decreases n
  {
    if n == 0 then []
    else
      QuotientSmaller(n, base);
      DigitsOf(base, Div(n, base)) + [Mod(n, base)]
  }

  lemma QuotientSmaller(n: nat, base: nat)
    requires base > 1 && n > 0
    ensures 0 <= Div(n, base) < n && 0 <= Mod(n, base) < base
  {
    hide Times, Div, Mod;
    DivMod(n, base);
    var q := Div(n, base);
    TimesOrder(q, 2, base);
    TimesComm(q, base);
    TimesComm(q, 2);
    TimesUnit(q);
  }

  lemma {:induction false} DigitsOfAre(base: nat, n: nat)
    requires base > 1
    ensures var s := DigitsOf(base, n); Below(s, base) && Canonical(s) && Val(base, s) == n
    decreases n
  {
    hide Times, Div, Mod;
    if n > 0 {
      QuotientSmaller(n, base);
      DigitsOfAre(base, Div(n, base));
      DivMod(n, base);
      TimesComm(base, Div(n, base));
      ValAppend(base, DigitsOf(base, Div(n, base)), Mod(n, base));
      if Div(n, base) == 0 { TimesUnit(base); TimesComm(base, 0); }
    }
  }

  // ---------------------------------------------------------------- one step of a conversion in place

  /** Digits `k`.. of the buffer are done: they and the carry are what they were, times `factor`, plus `c`. */
  ghost predicate Stepped(base: nat, before: Digits, after: Digits, k: nat, factor: nat, c: nat, carry: nat) {
    && |after| == |before| && k <= |before| && Below(after, base) && after[..k] == before[..k]
    && Val(base, after[k..]) + Times(carry, Pow(base, |before| - k)) == Times(Val(base, before[k..]), factor) + c
  }

  lemma StepStart(base: nat, s: Digits, factor: nat, c: nat)
    requires Below(s, base)
    ensures Stepped(base, s, s, |s|, factor, c, c)
  {
    hide Times;
    TimesUnit(factor);
    TimesUnit(c);
  }

  lemma StepNext(base: nat, s: Digits, t: Digits, k: nat, factor: nat, c: nat, carry: nat)
    requires base > 0 && k > 0 && Stepped(base, s, t, k, factor, c, carry)
    ensures var n := carry + Times(factor, s[k - 1]);
            n >= 0 && Div(n, base) >= 0 && 0 <= Mod(n, base) < base
            && Stepped(base, s, t[k - 1 := Mod(n, base)], k - 1, factor, c, Div(n, base))
  {
    hide Times, Div, Mod, Val;
    TimesPositive(factor, s[k - 1]);
    var n := carry + Times(factor, s[k - 1]);
    DivMod(n, base);
    var d, q := Mod(n, base), Div(n, base);
    var u := t[k - 1 := d];
    var tail, before := t[k..], s[k..];
    assert u[k - 1..] == [d] + tail && s[k - 1..] == [s[k - 1]] + before;
    ValFront(base, d, tail);
    ValFront(base, s[k - 1], before);
    var p := Pow(base, |s| - k);
    // (d + q * base) * p, with d + q * base == n
    TimesAdd(p, Times(base, q), d);
    TimesComm(base, q);
    TimesAssoc(q, base, p);
    TimesAdd(p, carry, Times(factor, s[k - 1]));
    TimesAdd(factor, Times(s[k - 1], p), Val(base, before));
    TimesAssoc(factor, s[k - 1], p);
    TimesComm(factor, Times(s[k - 1], p));
    assert u[..k - 1] == s[..k - 1] by { assert forall i :: 0 <= i < k - 1 ==> t[..k][i] == s[..k][i]; }
  }

  /** With room for the result nothing is carried out. */
  lemma StepEnd(base: nat, s: Digits, t: Digits, factor: nat, c: nat, carry: nat)
    requires base > 0 && Stepped(base, s, t, 0, factor, c, carry)
    requires Times(Val(base, s), factor) + c < Pow(base, |s|)
    ensures carry == 0 && Val(base, t) == Times(Val(base, s), factor) + c
  {
    hide Times, Val;
    assert s[0..] == s && t[0..] == t;
    TimesPositive(carry, Pow(base, |s|));
    TimesUnit(Pow(base, |s|));
  }
}
