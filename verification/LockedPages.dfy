/** Stacking memory locks: a counter per page, over any number of overlapping address ranges. */
module LockedPages {
  import opened Basics
  import opened Products
  import L = Limbs

  /** The number of values of size_t. */
  const SIZE_T_BITS: nat := 64

  // ---------------------------------------------------------------- the page mask

  /** x & y */
  function And(x: nat, y: nat): nat {
    if x == 0 || y == 0 then 0 else (if x % 2 == 1 && y % 2 == 1 then 1 else 0) + 2 * And(x / 2, y / 2)
  }

  ghost predicate IsPower(n: nat) { exists k: nat :: n == Pow2(k) }

  lemma IsPowerIff(n: nat)
    requires n > 0
    ensures IsPower(n) <==> n == 1 || (n % 2 == 0 && IsPower(n / 2))
  {
    if k: nat :| n == Pow2(k) {
      if k > 0 { assert n / 2 == Pow2(k - 1); }
    }
    if n == 1 {
      assert n == Pow2(0);
    } else if n % 2 == 0 && IsPower(n / 2) {
      var k: nat :| n / 2 == Pow2(k);
      assert n == Pow2(k + 1);
    }
  }

  /** The test of the assert on the page size. */
  lemma {:induction false} PowerTest(n: nat)
    requires n > 0
    ensures And(n, n - 1) == 0 <==> IsPower(n)
  {
    hide IsPower;
    IsPowerIff(n);
    if n % 2 == 0 {
      PowerTest(n / 2);
      assert (n - 1) / 2 == n / 2 - 1;
    } else if n > 1 {
      assert (n - 1) / 2 == n / 2;
      AndSelf(n / 2);
    }
  }

  lemma {:induction false} AndSelf(n: nat)
    ensures And(n, n) == n
  {
    if n > 0 { AndSelf(n / 2); }
  }

  /** ~(2^k - 1) in `w` bits */
  function MaskOf(w: nat, k: nat): nat
    requires k <= w
  {
    L.Pow2Grows(k, w);
    Pow2(w) - Pow2(k)
  }

  lemma MaskHalf(w: nat, k: nat)
    requires 0 < k <= w
    ensures MaskOf(w, k) == 2 * MaskOf(w - 1, k - 1)
  {}

  /** Masking clears the bits below `k`. */
  lemma {:induction false} MaskClears(x: nat, k: nat, w: nat)
    requires k <= w && x < Pow2(w)
    ensures And(x, MaskOf(w, k)) == x - Mod(x, Pow2(k))
    decreases w
  {
    if k == 0 {
      AllOnes(x, w);
      assert Mod(x, 1) == 0;
    } else {
      MaskHalf(w, k);
      MaskClears(x / 2, k - 1, w - 1);
      HalfMod(x, k);
      hide Mod, MaskOf, Pow2;
      AndEven(x, MaskOf(w - 1, k - 1));
    }
  }

  lemma AndEven(x: nat, m: nat)
    ensures And(x, 2 * m) == 2 * And(x / 2, m)
  {}

  lemma {:induction false} AllOnes(x: nat, w: nat)
    requires x < Pow2(w)
    ensures And(x, Pow2(w) - 1) == x
    decreases w
  {
    if x > 0 {
      AllOnes(x / 2, w - 1);
      assert (Pow2(w) - 1) / 2 == Pow2(w - 1) - 1;
    }
  }

  lemma HalfMod(x: nat, k: nat)
    requires k > 0
    ensures x - Mod(x, Pow2(k)) == 2 * (x / 2 - Mod(x / 2, Pow2(k - 1)))
  {
    hide Times, Div, Mod;
    var h := Pow2(k - 1);
    DivMod(x / 2, h);
    TimesAssoc(2, h, Div(x / 2, h));
    TimesUnit(h);
    TimesUnit(Times(h, Div(x / 2, h)));
    DivUnique(x, 2 * h, Div(x / 2, h), 2 * Mod(x / 2, h) + x % 2);
  }

  // ---------------------------------------------------------------- ranges and pages

  datatype Range = Range(addr: nat, size: nat)

  /** The page that an address lies in. */
  function PageOf(a: nat, ps: nat): nat
    requires ps > 0
  {
    DivMod(a, ps);
    TimesPositive(ps, Div(a, ps));
    a - Mod(a, ps)
  }

  predicate IsPage(page: nat, ps: nat)
    requires ps > 0
  {
    Mod(page, ps) == 0
  }

  predicate On(a: nat, page: nat, r: Range, ps: nat) { page <= a < page + ps && r.addr <= a < r.addr + r.size }

  /** A page and a range have an address in common. */
  ghost predicate Intersects(page: nat, r: Range, ps: nat)
    requires ps > 0
  {
    IsPage(page, ps) && exists a: nat :: On(a, page, r, ps)
  }

  /** Pages are `ps` apart. */
  lemma PagesApart(x: nat, y: nat, ps: nat)
    requires ps > 0 && IsPage(x, ps) && IsPage(y, ps) && x < y
    ensures x + ps <= y
  {
    hide Times, Div, Mod;
    DivMod(x, ps);
    DivMod(y, ps);
    TimesCancel(ps, Div(x, ps), Div(y, ps));
    TimesOrder(ps, Div(x, ps) + 1, Div(y, ps));
    TimesAdd(ps, Div(x, ps), 1);
    TimesUnit(ps);
  }

  lemma NextIsPage(x: nat, ps: nat)
    requires ps > 0 && IsPage(x, ps)
    ensures IsPage(x + ps, ps)
  {
    hide Times, Div, Mod;
    TimesUnit(ps);
    ModAdd(x, ps, 1);
  }

  lemma PageOfIs(a: nat, ps: nat)
    requires ps > 0
    ensures var p := PageOf(a, ps); IsPage(p, ps) && p <= a < p + ps
  {
    hide Times, Div, Mod;
    DivMod(a, ps);
    ModOfMultiple(ps, Div(a, ps));
  }

  /** The pages from the first to the last address of a range are exactly those it intersects. */
  lemma IntersectsIff(page: nat, r: Range, ps: nat)
    requires ps > 0 && r.size > 0
    ensures Intersects(page, r, ps) <==> IsPage(page, ps) && PageOf(r.addr, ps) <= page <= PageOf(r.addr + r.size - 1, ps)
  {
    var first, last := PageOf(r.addr, ps), PageOf(r.addr + r.size - 1, ps);
    PageOfIs(r.addr, ps);
    PageOfIs(r.addr + r.size - 1, ps);
    hide PageOf, IsPage;
    if IsPage(page, ps) {
      if page < first { PagesApart(page, first, ps); }
      if last < page { PagesApart(last, page, ps); }
      if first <= page <= last {
        var a := if page <= r.addr then r.addr else page;
        if first < page { PagesApart(first, page, ps); }
        assert On(a, page, r, ps);
      }
    }
  }

  /** How many of the live ranges intersect a page. */
  ghost function Count(live: seq<Range>, page: nat, ps: nat): nat
    requires ps > 0
  {
    if live == [] then 0
    else Count(live[..|live| - 1], page, ps) + if Intersects(page, live[|live| - 1], ps) then 1 else 0
  }

  function Without(live: seq<Range>, i: nat): seq<Range>
    requires i < |live|
  {
    live[..i] + live[i + 1..]
  }

  lemma {:induction false} CountWithout(live: seq<Range>, i: nat, page: nat, ps: nat)
    requires ps > 0 && i < |live|
    ensures Count(Without(live, i), page, ps) == Count(live, page, ps) - if Intersects(page, live[i], ps) then 1 else 0
    decreases |live|
  {
    hide Intersects;
    var n := |live| - 1;
    var w := Without(live, i);
    if i == n {
      assert w == live[..n];
    } else {
      assert w[..|w| - 1] == Without(live[..n], i) && w[|w| - 1] == live[n];
      CountWithout(live[..n], i, page, ps);
    }
  }

  lemma CountWith(live: seq<Range>, r: Range, page: nat, ps: nat)
    requires ps > 0
    ensures Count(live + [r], page, ps) == Count(live, page, ps) + if Intersects(page, r, ps) then 1 else 0
  {
    assert (live + [r])[..|live|] == live;
  }

  lemma {:induction false} CountPositive(live: seq<Range>, page: nat, ps: nat)
    requires ps > 0
    ensures Count(live, page, ps) > 0 <==> exists i :: 0 <= i < |live| && Intersects(page, live[i], ps)
  {
    hide Intersects;
    if live != [] {
      var n := |live| - 1;
      CountPositive(live[..n], page, ps);
      if Intersects(page, live[n], ps) {
      } else if i :| 0 <= i < |live| && Intersects(page, live[i], ps) {
        assert live[..n][i] == live[i];
      }
    }
  }

  // ---------------------------------------------------------------- the manager

  function At(h: map<nat, int>, page: nat): int { if page in h then h[page] else 0 }

  /** Each page is counted by the live ranges on it, and pages that count nothing are not listed. */
  ghost predicate Counts(h: map<nat, int>, live: seq<Range>, ps: nat)
    requires ps > 0
  {
    forall page: nat :: At(h, page) == Count(live, page, ps) && (page in h ==> h[page] > 0)
  }

  function Raised(h: map<nat, int>, page: nat): map<nat, int> { if page in h then h[page := h[page] + 1] else h[page := 1] }

  function Lowered(h: map<nat, int>, page: nat): map<nat, int>
    requires page in h
  {
    if h[page] == 1 then h - {page} else h[page := h[page] - 1]
  }

  /** The counts of `live`, and one more on the pages of a range from `from` up to but excluding `to`. */
  ghost predicate Partly(h: map<nat, int>, live: seq<Range>, ps: nat, from: nat, to: nat)
    requires ps > 0
  {
    forall q: nat :: (q in h ==> h[q] > 0) && At(h, q) == Count(live, q, ps) + if IsPage(q, ps) && from <= q < to then 1 else 0
  }

  lemma PartlyRaised(h: map<nat, int>, live: seq<Range>, ps: nat, from: nat, page: nat)
    requires ps > 0 && IsPage(page, ps) && from <= page && Partly(h, live, ps, from, page)
    ensures IsPage(page + ps, ps) && Partly(Raised(h, page), live, ps, from, page + ps)
  {
    NextIsPage(page, ps);
    hide Count, IsPage;
    var t := Raised(h, page);
    forall q: nat ensures (q in t ==> t[q] > 0) && At(t, q) == Count(live, q, ps) + if IsPage(q, ps) && from <= q < page + ps then 1 else 0 {
      if IsPage(q, ps) && page < q { PagesApart(page, q, ps); }
      assert At(h, q) == Count(live, q, ps) + if IsPage(q, ps) && from <= q < page then 1 else 0;
    }
  }

  lemma PartlyLowered(h: map<nat, int>, live: seq<Range>, ps: nat, page: nat, to: nat)
    requires ps > 0 && IsPage(page, ps) && page < to && Partly(h, live, ps, page, to)
    ensures page in h && IsPage(page + ps, ps) && Partly(Lowered(h, page), live, ps, page + ps, to)
  {
    NextIsPage(page, ps);
    hide Count, IsPage;
    assert At(h, page) == Count(live, page, ps) + 1;
    var t := Lowered(h, page);
    forall q: nat ensures (q in t ==> t[q] > 0) && At(t, q) == Count(live, q, ps) + if IsPage(q, ps) && page + ps <= q < to then 1 else 0 {
      if IsPage(q, ps) && page < q { PagesApart(page, q, ps); }
      assert At(h, q) == Count(live, q, ps) + if IsPage(q, ps) && page <= q < to then 1 else 0;
    }
  }

  /** With all its pages counted, a range counts as live. */
  lemma PartlyWhole(h: map<nat, int>, live: seq<Range>, more: seq<Range>, r: Range, ps: nat)
    requires ps > 0 && r.size > 0
    requires forall q: nat :: Count(more, q, ps) == Count(live, q, ps) + if Intersects(q, r, ps) then 1 else 0
    ensures Partly(h, live, ps, PageOf(r.addr, ps), PageOf(r.addr + r.size - 1, ps) + ps) <==> Counts(h, more, ps)
  {
    var first, last := PageOf(r.addr, ps), PageOf(r.addr + r.size - 1, ps);
    PageOfIs(r.addr + r.size - 1, ps);
    hide PageOf, IsPage, Count, Intersects;
    forall q: nat ensures Count(more, q, ps) == Count(live, q, ps) + if IsPage(q, ps) && first <= q < last + ps then 1 else 0 {
      IntersectsIff(q, r, ps);
      if IsPage(q, ps) && last < q { PagesApart(last, q, ps); }
    }
  }

  lemma PartlyNone(h: map<nat, int>, live: seq<Range>, ps: nat, from: nat, to: nat)
    requires ps > 0 && from >= to
    ensures Partly(h, live, ps, from, to) <==> Counts(h, live, ps)
  {
    hide Count, IsPage;
  }

  /** Past the last page of a range nothing of it is counted. */
  lemma PartlyPast(h: map<nat, int>, live: seq<Range>, ps: nat, page: nat, last: nat)
    requires ps > 0 && IsPage(page, ps) && IsPage(last, ps) && page > last && Partly(h, live, ps, page, last + ps)
    ensures Counts(h, live, ps)
  {
    PagesApart(last, page, ps);
    PartlyNone(h, live, ps, page, last + ps);
  }

  lemma PageOrder(a: nat, b: nat, ps: nat)
    requires ps > 0 && a <= b
    ensures PageOf(a, ps) <= PageOf(b, ps)
  {
    PageOfIs(a, ps);
    PageOfIs(b, ps);
    if PageOf(b, ps) < PageOf(a, ps) { PagesApart(PageOf(b, ps), PageOf(a, ps), ps); }
  }

  class LockedPageManager {
    const page_size: nat
    const page_mask: nat
    var histogram: map<nat, int>
    /** the pages that the locker holds locked */
    var locked: set<nat>
    /** the ranges that are locked and not unlocked yet */
    ghost var live: seq<Range>

    ghost predicate Paged()
    {
      && page_size > 0 && page_size <= Pow2(SIZE_T_BITS) && page_mask == Pow2(SIZE_T_BITS) - page_size
      && exists k: nat :: k <= SIZE_T_BITS && page_size == Pow2(k)
    }

    ghost predicate Valid()
      reads this
    {
      Paged() && Counts(histogram, live, page_size) && locked == histogram.Keys
    }

    /** The assert on the page size is the precondition. */
    constructor (page_size: nat)
      requires 0 < page_size < Pow2(SIZE_T_BITS) && And(page_size, page_size - 1) == 0
      ensures Valid() && live == [] && this.page_size == page_size
    {
      PowerTest(page_size);
      var mask: int := Pow2(SIZE_T_BITS) - page_size;
      this.page_size, page_mask := page_size, mask;
      histogram, locked, live := map[], {}, [];
      new;
      var k: nat :| page_size == Pow2(k);
      if k > SIZE_T_BITS { L.Pow2Grows(SIZE_T_BITS, k); }
    }

    /** A range that neither wraps around nor touches the last page of the address space. */
    ghost predicate Addressable(r: Range)
      requires page_size > 0
    {
      r.size > 0 ==> PageOf(r.addr + r.size - 1, page_size) + page_size < Pow2(SIZE_T_BITS)
    }

    lemma Masked(a: nat)
      requires Paged() && a < Pow2(SIZE_T_BITS)
      ensures And(a, page_mask) == PageOf(a, page_size)
    {
      hide Pow2, And, Mod;
      var k: nat :| k <= SIZE_T_BITS && page_size == Pow2(k);
      MaskClears(a, k, SIZE_T_BITS);
    }

    lemma InAddressSpace(r: Range)
      requires Paged() && Addressable(r) && r.size > 0
      ensures r.addr + r.size - 1 < Pow2(SIZE_T_BITS)
    {
      PageOfIs(r.addr + r.size - 1, page_size);
    }

    /** The pages of a range that both loops step through. */
    method PageBounds(r: Range) returns (start_page: nat, end_page: nat)
      requires Paged() && Addressable(r) && r.size > 0
      ensures start_page == PageOf(r.addr, page_size) && end_page == PageOf(r.addr + r.size - 1, page_size)
      ensures IsPage(start_page, page_size) && IsPage(end_page, page_size) && start_page <= end_page
    {
      hide Pow2, And, PageOf, IsPage;
      InAddressSpace(r);
      Masked(r.addr);
      Masked(r.addr + r.size - 1);
      PageOfIs(r.addr, page_size);
      PageOfIs(r.addr + r.size - 1, page_size);
      PageOrder(r.addr, r.addr + r.size - 1, page_size);
      start_page := And(r.addr, page_mask);
      end_page := And(r.addr + r.size - 1, page_mask);
    }

    method RaisePages(start_page: nat, end_page: nat)
      requires page_size > 0 && IsPage(start_page, page_size) && IsPage(end_page, page_size) && start_page <= end_page
      requires Counts(histogram, live, page_size) && locked == histogram.Keys
      modifies this`histogram, this`locked
      ensures Partly(histogram, live, page_size, start_page, end_page + page_size) && locked == histogram.Keys
    {
      hide Count, IsPage, Partly, Counts;
      var page := start_page;
      PartlyNone(histogram, live, page_size, page, page);
      while page <= end_page
        invariant IsPage(page, page_size) && start_page <= page <= end_page + page_size && locked == histogram.Keys
        invariant Partly(histogram, live, page_size, start_page, page) && (page > end_page ==> page == end_page + page_size)
        decreases end_page + page_size - page
      {
        PartlyRaised(histogram, live, page_size, start_page, page);
        if page < end_page { PagesApart(page, end_page, page_size); }
        if page !in histogram {
          locked := locked + {page};
          histogram := histogram[page := 1];
        } else {
          histogram := histogram[page := histogram[page] + 1];
        }
        page := page + page_size;
      }
    }

    method LockRange(r: Range)
      requires Valid() && Addressable(r)
      modifies this
      ensures Valid() && live == (if r.size == 0 then old(live) else old(live) + [r])
    {
      if r.size == 0 { return; }
      hide Count, IsPage, Partly, Counts, PageOf, Intersects;
      var start_page, end_page := PageBounds(r);
      RaisePages(start_page, end_page);
      forall q: nat { CountWith(live, r, q, page_size); }
      PartlyWhole(histogram, live, live + [r], r, page_size);
      live := live + [r];
    }

    /** The assert that the page is locked always holds. */
    method LowerPages(start_page: nat, end_page: nat, ghost rest: seq<Range>)
      requires page_size > 0 && IsPage(start_page, page_size) && IsPage(end_page, page_size) && start_page <= end_page
      requires Partly(histogram, rest, page_size, start_page, end_page + page_size) && locked == histogram.Keys
      modifies this`histogram, this`locked
      ensures Counts(histogram, rest, page_size) && locked == histogram.Keys
    {
      hide Count, IsPage, Partly, Counts;
      var page := start_page;
      while page <= end_page
        invariant IsPage(page, page_size) && page <= end_page + page_size && locked == histogram.Keys
        invariant Partly(histogram, rest, page_size, page, end_page + page_size)
        decreases end_page + page_size - page
      {
        PartlyLowered(histogram, rest, page_size, page, end_page + page_size);
        assert page in histogram;
        if histogram[page] == 1 {
          locked := locked - {page};
          histogram := histogram - {page};
        } else {
          histogram := histogram[page := histogram[page] - 1];
        }
        page := page + page_size;
      }
      PartlyPast(histogram, rest, page_size, page, end_page);
    }

    /** `i` says which of the live ranges is unlocked. */
    method UnlockRange(r: Range, ghost i: nat)
      requires Valid() && Addressable(r) && (r.size > 0 ==> i < |live| && live[i] == r)
      modifies this
      ensures Valid() && live == (if r.size == 0 then old(live) else Without(old(live), i))
    {
      if r.size == 0 { return; }
      hide Count, IsPage, Partly, Counts, PageOf, Intersects, Without;
      var start_page, end_page := PageBounds(r);
      ghost var rest := Without(live, i);
      forall q: nat { CountWithout(live, i, q, page_size); }
      PartlyWhole(histogram, rest, live, r, page_size);
      LowerPages(start_page, end_page, rest);
      live := rest;
    }

    method GetLockedPageCount() returns (n: nat)
      requires Valid()
      ensures n == |locked|
    {
      assert |histogram| == |histogram.Keys|;
      n := |histogram|;
    }

    /** A page is locked exactly when a live range has an address on it. */
    lemma LockedIff(page: nat)
      requires Valid()
      ensures page in locked <==> exists i :: 0 <= i < |live| && Intersects(page, live[i], page_size)
    {
      CountPositive(live, page, page_size);
      assert At(histogram, page) == Count(live, page, page_size);
    }
  }
}
