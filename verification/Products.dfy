/** Products and quotients by name, so that proofs can hide them and use these laws instead. */
module Products {
  function Times(a: int, b: int): int { a * b }

  function Div(x: int, m: int): int
    requires m > 0
  {
    x / m
  }

  function Mod(x: int, m: int): int
    requires m > 0
  {
    x % m
  }

  lemma TimesComm(a: int, b: int)
    ensures Times(a, b) == Times(b, a)
  {}

  lemma TimesAssoc(a: int, b: int, c: int)
    ensures Times(Times(a, b), c) == Times(a, Times(b, c))
  {}

  lemma TimesAdd(a: int, b: int, c: int)
    ensures Times(a, b + c) == Times(a, b) + Times(a, c) && Times(b + c, a) == Times(b, a) + Times(c, a)
  {}

  lemma TimesUnit(b: int)
    ensures Times(0, b) == 0 == Times(b, 0) && Times(1, b) == b == Times(b, 1) && Times(2, b) == 2 * b
  {}

  lemma TimesPositive(a: int, b: int)
    requires a >= 0 && b >= 0
    ensures Times(a, b) >= 0 && (a > 0 && b > 0 ==> Times(a, b) >= a && Times(a, b) >= b)
  {}

  lemma TimesOrder(a: int, b: int, c: int)
    requires a >= 0 && b <= c
    ensures Times(a, b) <= Times(a, c)
  {}

  /** Cancelling a positive factor. */
  lemma TimesCancel(a: int, b: int, c: int)
    requires a > 0
    ensures Times(a, b) < Times(a, c) <==> b < c
  {}

  lemma DivMod(x: int, m: int)
    requires m > 0
    ensures x == Times(m, Div(x, m)) + Mod(x, m) && 0 <= Mod(x, m) < m
    ensures x >= 0 ==> Div(x, m) >= 0
  {}

  /** The quotient and the remainder are the only ones. */
  lemma DivUnique(x: int, m: int, q: int, r: int)
    requires m > 0 && x == Times(m, q) + r && 0 <= r < m
    ensures Div(x, m) == q && Mod(x, m) == r
  {
    hide Times, Div, Mod;
    DivMod(x, m);
    var k := q - Div(x, m);
    TimesAdd(m, Div(x, m), k);
    SmallMultiple(m, k);
    TimesUnit(m);
  }

  lemma SmallMultiple(m: int, k: int)
    requires -m < Times(m, k) < m
    ensures k == 0
  {}

  lemma ModAdd(x: int, m: int, k: int)
    requires m > 0
    ensures Mod(x + Times(m, k), m) == Mod(x, m)
  {
    hide Times, Div, Mod;
    DivMod(x, m);
    TimesAdd(m, Div(x, m), k);
    DivUnique(x + Times(m, k), m, Div(x, m) + k, Mod(x, m));
  }

  lemma ModOfMultiple(m: int, k: int)
    requires m > 0
    ensures Mod(Times(m, k), m) == 0 && Div(Times(m, k), m) == k
  {
    hide Times, Div, Mod;
    DivUnique(Times(m, k), m, k, 0);
  }

  lemma DivDiv(n: int, a: int, b: int)
    requires a > 0 && b > 0
    ensures Times(a, b) > 0 && Div(Div(n, a), b) == Div(n, Times(a, b))
  {
    hide Times, Div, Mod;
    TimesPositive(a, b);
    var q := Div(n, a);
    var u, v := Div(q, b), Mod(q, b);
    DivMod(n, a);
    DivMod(q, b);
    TimesAdd(a, Times(b, u), v);
    TimesAssoc(a, b, u);
    TimesOrder(a, v, b - 1);
    TimesAdd(a, b, -1);
    TimesPositive(a, v);
    TimesAdd(a, 1, -1);
    TimesUnit(a);
    TimesOrder(a, 0, v);
    DivUnique(n, Times(a, b), u, Times(a, v) + Mod(n, a));
  }
}
