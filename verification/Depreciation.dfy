/**
 The monthly depreciation of one asset, in integer cents, and how it ends.
 */
module Depreciation {
  import opened Common

  datatype Method = STRAIGHT_LINE | DECLINING_BALANCE | NONE

  datatype AssetStatus = ACTIVE | IDLE | FULLY_DEPRECIATED | DISPOSED | SOLD

  datatype Terms = Terms(cost: int, salvage: int, years: int, how: Method)

  datatype Book = Book(terms: Terms, accumulated: int, status: AssetStatus) {
    /** What may be written off in all. */
    function Depreciable(): int { terms.cost - terms.salvage }

    function Remaining(): int { Depreciable() - accumulated }

    function BookValue(): int { terms.cost - accumulated }
  }

  /** Half up, as `Math.round` does. */
  function Round(x: real): int { (x + 0.5).Floor }

  function MinReal(x: real, y: real): real { if x <= y then x else y }

  /** The month's amount before rounding. */
  function MonthlyAmount(a: Book): real {
    if a.terms.how.NONE? || !a.status.ACTIVE? then 0.0
    else if a.terms.years <= 0 || a.terms.cost <= a.terms.salvage || a.Remaining() <= 0 then 0.0
    else
      var months := (12 * a.terms.years) as real;
      var monthly :=
        if a.terms.how.DECLINING_BALANCE? then (2 * a.BookValue()) as real / months
        else a.Depreciable() as real / months;
      MinReal(monthly, a.Remaining() as real)
  }

  function MonthCents(a: Book): int { Round(MonthlyAmount(a)) }

  /** One month; a month whose amount rounds to nothing or less leaves the asset alone. */
  function Charge(a: Book): Book {
    var amount := MonthCents(a);
    if amount <= 0 then a
    else
      var accumulated := a.accumulated + amount;
      a.(accumulated := accumulated,
         status := if accumulated >= a.Depreciable() then FULLY_DEPRECIATED else a.status)
  }

  /** `k` months. */
  function Charged(a: Book, k: nat): Book {
    if k == 0 then a else Charge(Charged(a, k - 1))
  }

  // ---------- rounding in integers ----------

  lemma MulBound(q: int, r: int, s: int)
    requires q > 0 && q * r < q * s
    ensures r < s
  {
  }

  lemma FloorIs(x: real, n: int)
    requires n as real <= x < n as real + 1.0
    ensures x.Floor == n
  {
    var f := x.Floor;
    assert f as real <= x < f as real + 1.0;
    assert (f - n) as real < 1.0 && (n - f) as real < 1.0;
  }

  function Mul(x: real, y: real): real { x * y }

  lemma MulRises(q: real, x: real, y: real)
    requires q > 0.0
    ensures (x < y ==> Mul(q, x) < Mul(q, y)) && (x <= y ==> Mul(q, x) <= Mul(q, y))
  {
  }

  lemma MulPlus(q: real, x: real, d: real)
    ensures Mul(q, x + d) == Mul(q, x) + Mul(q, d)
  {
  }

  lemma MulOfInts(q: int, r: int)
    ensures Mul(q as real, r as real) == (q * r) as real
    ensures Mul(q as real, 0.5) == 0.5 * q as real && Mul(q as real, 1.0) == q as real
  {
  }

  /** `r` is the quotient rounded half up, seen from the reals. */
  lemma RealQuotient(p: int, q: int, x: real, r: int)
    requires q > 0 && Mul(q as real, x) == p as real && 2 * (q * r) <= 2 * p + q < 2 * (q * r) + 2 * q
    ensures r as real <= x + 0.5 < r as real + 1.0
  {
    hide Mul;
    var y, z, product := q as real, r as real, q * r;
    MulOfInts(q, r);
    MulPlus(y, x, 0.5);
    MulPlus(y, z, 1.0);
    assert 2.0 * product as real <= 2.0 * p as real + y < 2.0 * product as real + 2.0 * y;
    MulRises(y, x + 0.5, z);
    MulRises(y, z + 1.0, x + 0.5);
  }

  lemma RoundIsRoundDiv(p: int, q: int)
    requires q > 0
    ensures Round(p as real / q as real) == RoundDiv(p, q)
  {
    var x, r := p as real / q as real, RoundDiv(p, q);
    assert q as real * x == p as real;
    assert 2 * q * r == 2 * (q * r);
    RealQuotient(p, q, x, r);
    FloorIs(x + 0.5, r);
  }

  lemma RoundOfInt(n: int)
    ensures Round(n as real) == n
  {
    FloorIs(n as real + 0.5, n);
  }

  lemma RoundMin(x: real, n: int)
    ensures Round(MinReal(x, n as real)) == Min(Round(x), n)
  {
    RoundOfInt(n);
    if x <= n as real {
      assert Round(x) <= n;
    } else {
      assert Round(x) >= n;
    }
  }

  predicate Depreciates(a: Book) {
    !a.terms.how.NONE? && a.status.ACTIVE? && a.terms.years > 0 && a.terms.cost > a.terms.salvage && a.Remaining() > 0
  }

  /** The rounded amount in integers: the nearest cent of the formula, but never past the remainder. */
  lemma AmountInCents(a: Book)
    ensures MonthCents(a) ==
      if !Depreciates(a) then 0
      else
        var dividend := if a.terms.how.DECLINING_BALANCE? then 2 * a.BookValue() else a.Depreciable();
        Min(RoundDiv(dividend, 12 * a.terms.years), a.Remaining())
  {
    if Depreciates(a) {
      var p := if a.terms.how.DECLINING_BALANCE? then 2 * a.BookValue() else a.Depreciable();
      RoundIsRoundDiv(p, 12 * a.terms.years);
      RoundMin(p as real / (12 * a.terms.years) as real, a.Remaining());
    } else {
      RoundOfInt(0);
    }
  }

  /** What the database also demands of every asset row. */
  predicate InBounds(a: Book) {
    0 <= a.accumulated && (a.accumulated <= a.Depreciable() || a.accumulated == 0)
  }

  /** A month never takes an asset below its salvage value. */
  lemma ChargeKeepsBounds(a: Book)
    requires InBounds(a)
    ensures InBounds(Charge(a)) && Charge(a).terms == a.terms && Charge(a).accumulated >= a.accumulated
  {
    AmountInCents(a);
  }

  // ---------- straight line ----------

  /** The straight-line rate in cents. */
  function Rate(t: Terms): int
    requires t.years > 0
  {
    RoundDiv(t.cost - t.salvage, 12 * t.years)
  }

  predicate ActiveStraightLine(a: Book) {
    a.terms.how.STRAIGHT_LINE? && a.status.ACTIVE? && a.terms.years > 0 && 0 <= a.accumulated < a.Depreciable()
  }

  predicate FreshStraightLine(a: Book) { ActiveStraightLine(a) && a.accumulated == 0 }

  lemma RateNonNegative(a: Book)
    requires ActiveStraightLine(a)
    ensures Rate(a.terms) >= 0
  {
    MulBound(2 * (12 * a.terms.years), -1, Rate(a.terms));
  }

  /** `k` months write off exactly `k` rates more, the last one cut to fit. */
  lemma {:induction false} StraightLineAfter(a: Book, k: nat)
    requires ActiveStraightLine(a)
    ensures var b := Charged(a, k);
      && b.terms == a.terms
      && b.accumulated == Min(a.accumulated + k * Rate(a.terms), a.Depreciable())
      && b.status == if k * Rate(a.terms) >= a.Remaining() then FULLY_DEPRECIATED else ACTIVE
  {
    RateNonNegative(a);
    if k > 0 {
      hide MonthCents, RoundDiv;
      StraightLineAfter(a, k - 1);
      RateStep(k, Rate(a.terms));
      StraightLineMonth(a, Charged(a, k - 1));
    }
  }

  lemma RateStep(k: nat, rate: int)
    requires k > 0
    ensures k * rate == (k - 1) * rate + rate && (k - 1) * rate >= 0 <== rate >= 0
  {
    if rate >= 0 { MulLe(0, k - 1, rate); }
  }

  /** One more month of an asset on its way: a rate, cut to what remains, or nothing if it is done. */
  lemma StraightLineMonth(a: Book, b: Book)
    requires ActiveStraightLine(a) && b.terms == a.terms && 0 <= b.accumulated <= a.Depreciable()
    requires b.status == if b.accumulated == a.Depreciable() then FULLY_DEPRECIATED else ACTIVE
    requires Rate(a.terms) >= 0
    ensures var c := Charge(b);
      && c.terms == a.terms && c.accumulated == Min(b.accumulated + Rate(a.terms), a.Depreciable())
      && c.status == if c.accumulated == a.Depreciable() then FULLY_DEPRECIATED else ACTIVE
  {
    hide MonthCents, RoundDiv;
    AmountInCents(b);
  }

  /** If the rate rounds to nothing the asset is never written off at all. */
  lemma StraightLineNeverEnds(a: Book, k: nat)
    requires ActiveStraightLine(a)
    ensures Rate(a.terms) == 0 <==> a.Depreciable() < 6 * a.terms.years
    ensures Rate(a.terms) == 0 ==> Charged(a, k) == a
  {
    RateNonNegative(a);
    StraightLineAfter(a, k);
    var n := 12 * a.terms.years;
    if a.Depreciable() < 6 * a.terms.years {
      MulBound(2 * n, Rate(a.terms), 1);
    }
  }

  /** The month that finishes `d` cents at `m` a month when `m` is the nearest cent to d / n. */
  function LastMonth(n: int, m: int, d: int): int { if n * m >= d then n else n + 1 }

  lemma LastMonthFinishes(n: int, m: int, d: int)
    requires n > 0 && 2 * n * m <= 2 * d + n < 2 * n * m + 2 * n && 2 * m > n
    ensures LastMonth(n, m, d) * m >= d && (LastMonth(n, m, d) - 1) * m < d
  {
    var p := n * m;
    assert 2 * n * m == 2 * p && (n + 1) * m == p + m && (n - 1) * m == p - m;
  }

  lemma MulLe(x: int, y: int, m: int)
    requires x <= y && 0 <= m
    ensures x * m <= y * m
  {
  }

  /** The rate exceeds half the number of months, so one rate covers all the rounding. */
  lemma RateIsLarge(n: int, m: int, d: int)
    requires n > 0 && 2 * d >= n * (n + 1) && 2 * d + n < 2 * n * m + 2 * n
    ensures 2 * m > n
  {
    MulBound(n, n, 2 * m);
  }

  /**
   With N = 12 * years months and at least N(N+1)/2 cents to write off, the asset is done after
   exactly N months if the rate was rounded up, and after exactly N + 1 if it was rounded down.
   */
  lemma StraightLineEnds(a: Book)
    requires FreshStraightLine(a)
    requires 2 * a.Depreciable() >= (12 * a.terms.years) * (12 * a.terms.years + 1)
    ensures var n := 12 * a.terms.years; var last := if n * Rate(a.terms) >= a.Depreciable() then n else n + 1;
      && Charged(a, last).status == FULLY_DEPRECIATED && Charged(a, last).accumulated == a.Depreciable()
      && forall k: nat :: k < last ==> Charged(a, k).status == ACTIVE
  {
    var n, m, d := 12 * a.terms.years, Rate(a.terms), a.Depreciable();
    RateIsLarge(n, m, d);
    LastMonthFinishes(n, m, d);
    FinishesExactly(a, LastMonth(n, m, d));
  }

  lemma FinishesExactly(a: Book, last: nat)
    requires FreshStraightLine(a) && last > 0
    requires last * Rate(a.terms) >= a.Depreciable() && (last - 1) * Rate(a.terms) < a.Depreciable()
    ensures Charged(a, last).status == FULLY_DEPRECIATED && Charged(a, last).accumulated == a.Depreciable()
    ensures forall k: nat :: k < last ==> Charged(a, k).status == ACTIVE
  {
    RateNonNegative(a);
    StraightLineAfter(a, last);
    forall k: nat | k < last ensures Charged(a, k).status == ACTIVE {
      StraightLineAfter(a, k);
      MulLe(k, last - 1, Rate(a.terms));
    }
  }

  // ---------- declining balance ----------

  /** N, the useful life in months. */
  function Months(a: Book): int { 12 * a.terms.years }

  predicate ActiveDeclining(a: Book) {
    a.terms.how.DECLINING_BALANCE? && a.status.ACTIVE? && a.terms.years > 0 && a.Remaining() > 0 && a.accumulated >= 0
  }

  /** Nothing more will happen: written off, or so small that a month rounds to nothing. */
  predicate Settled(a: Book) {
    a.status == FULLY_DEPRECIATED || 4 * a.BookValue() < Months(a)
  }

  /** The unrounded amount is 2B/N: its rounding loses at most half a cent. */
  lemma DecliningRate(n: int, v: int)
    requires n > 0
    ensures var r := RoundDiv(2 * v, n); (r >= 1 <==> 4 * v >= n) && 2 * (n * r) > 4 * v - n
  {
    var r := RoundDiv(2 * v, n);
    assert 2 * n * r == 2 * (n * r);
    if 4 * v < n {
      MulBound(2 * n, r, 1);
    } else {
      MulBound(2 * n, 0, r);
    }
  }

  lemma DecliningStep(a: Book)
    requires ActiveDeclining(a)
    ensures var b := Charge(a);
      && b.terms == a.terms && (b.status == FULLY_DEPRECIATED || ActiveDeclining(b))
      && (Settled(a) ==> b == a)
      && (!Settled(a) ==> b.BookValue() < a.BookValue())
      && b.BookValue() <= a.BookValue()
      && (!Settled(a) && b.status != FULLY_DEPRECIATED ==>
            2 * (Months(a) * (a.BookValue() - b.BookValue())) > 4 * a.BookValue() - Months(a))
  {
    AmountInCents(a);
    DecliningRate(Months(a), a.BookValue());
  }

  lemma {:induction false} ChargedSplits(a: Book, j: nat, k: nat)
    ensures Charged(a, j + k) == Charged(Charged(a, j), k)
  {
    if k > 0 { ChargedSplits(a, j, k - 1); }
  }

  /** Once settled, an asset stays as it is. */
  lemma {:induction false} SettledStays(a: Book, k: nat)
    requires Settled(a) && a.terms.years > 0 && (a.status == FULLY_DEPRECIATED || ActiveDeclining(a))
    ensures Charged(a, k) == a
  {
    if k > 0 {
      SettledStays(a, k - 1);
      if a.status == FULLY_DEPRECIATED { RoundOfInt(0); } else { DecliningStep(a); }
    }
  }

  lemma {:induction false} DecliningAfter(a: Book, k: nat)
    requires ActiveDeclining(a)
    ensures var b := Charged(a, k);
      b.terms == a.terms && (b.status == FULLY_DEPRECIATED || ActiveDeclining(b)) && b.BookValue() <= a.BookValue()
  {
    if k > 0 {
      DecliningAfter(a, k - 1);
      var b := Charged(a, k - 1);
      if b.status == FULLY_DEPRECIATED { RoundOfInt(0); } else { DecliningStep(b); }
    }
  }

  lemma DropArithmetic(n: int, start: int, v: int, w: int, k: int)
    requires n * (start - v) >= (k - 1) * start
    requires 2 * (n * (v - w)) > 4 * v - n && v >= w && 4 * w > 2 * start + n
    ensures n * (start - w) >= k * start
  {
    assert n * (start - w) == n * (start - v) + n * (v - w);
    assert k * start == (k - 1) * start + start;
  }

  lemma FullyStays(b: Book)
    requires b.status == FULLY_DEPRECIATED
    ensures Charge(b) == b && Settled(b)
  {
    RoundOfInt(0);
  }

  /** As long as the value is above half plus N/4, each month takes at least a share of the start. */
  lemma {:induction false} DecliningDrops(a: Book, k: nat)
    requires ActiveDeclining(a) && a.BookValue() >= 0
    ensures var b := Charged(a, k);
      || Settled(b)
      || 4 * b.BookValue() <= 2 * a.BookValue() + Months(a)
      || Months(a) * (a.BookValue() - b.BookValue()) >= k * a.BookValue()
  {
    hide Charge;
    if k > 0 {
      DecliningDrops(a, k - 1);
      DecliningAfter(a, k - 1);
      var b := Charged(a, k - 1);
      var c := Charge(b);
      if b.status == FULLY_DEPRECIATED {
        FullyStays(b);
      } else {
        DecliningStep(b);
        if !Settled(b) && !Settled(c) && 4 * c.BookValue() > 2 * a.BookValue() + Months(a) {
          DropArithmetic(Months(a), a.BookValue(), b.BookValue(), c.BookValue(), k);
        }
      }
    }
  }

  lemma HalfArithmetic(half: int, v: int, w: int)
    requires half > 0 && (2 * half) * (v - w) >= half * v
    ensures 2 * w <= v
  {
    assert (2 * half) * (v - w) == half * (2 * (v - w));
    if 2 * (v - w) < v {
      MulBound2(half, 2 * (v - w), v);
    }
  }

  lemma MulBound2(q: int, r: int, s: int)
    requires q > 0 && r < s
    ensures q * r < q * s
  {
  }

  /** Half the useful life at least halves what the book value has above N/2 cents. */
  lemma DecliningHalves(a: Book)
    requires ActiveDeclining(a) && a.BookValue() >= 0
    ensures var b := Charged(a, 6 * a.terms.years);
      Settled(b) || 2 * (2 * b.BookValue() - Months(a)) <= 2 * a.BookValue() - Months(a)
  {
    var half := 6 * a.terms.years;
    var b := Charged(a, half);
    DecliningDrops(a, half);
    if Months(a) * (a.BookValue() - b.BookValue()) >= half * a.BookValue() {
      HalfArithmetic(half, a.BookValue(), b.BookValue());
    }
  }

  /** `t` half lives. */
  function HalfLives(a: Book, t: nat): nat
    requires a.terms.years > 0
  {
    if t == 0 then 0 else HalfLives(a, t - 1) + 6 * a.terms.years
  }

  /** What the book value, doubled, has above N. */
  function Excess(a: Book): int { 2 * a.BookValue() - Months(a) }

  lemma {:induction false} DecliningExcess(a: Book, t: nat)
    requires ActiveDeclining(a)
    ensures var b := Charged(a, HalfLives(a, t)); Settled(b) || Pow2(t) * Excess(b) <= Excess(a)
  {
    if t > 0 {
      var half, before := 6 * a.terms.years, HalfLives(a, t - 1);
      DecliningExcess(a, t - 1);
      DecliningAfter(a, before);
      var b := Charged(a, before);
      ChargedSplits(a, before, half);
      assert Charged(a, HalfLives(a, t)) == Charged(b, half);
      ExcessHalves(a, b, t);
    }
  }

  lemma ExcessHalves(a: Book, b: Book, t: nat)
    requires t > 0 && a.terms.years > 0 && b.terms == a.terms
    requires b.status == FULLY_DEPRECIATED || ActiveDeclining(b)
    requires Settled(b) || Pow2(t - 1) * Excess(b) <= Excess(a)
    ensures var c := Charged(b, 6 * a.terms.years); Settled(c) || Pow2(t) * Excess(c) <= Excess(a)
  {
    var half := 6 * a.terms.years;
    if Settled(b) {
      SettledStays(b, half);
    } else {
      DecliningHalves(b);
      DecliningAfter(b, half);
      var c := Charged(b, half);
      if !Settled(c) {
        PowStep(t, Excess(c), Excess(b));
      }
    }
  }

  lemma PowStep(t: nat, y: int, x: int)
    requires t > 0 && 2 * y <= x
    ensures Pow2(t) * y <= Pow2(t - 1) * x
  {
    assert Pow2(t) * y == Pow2(t - 1) * (2 * y);
    MulLe(2 * y, x, Pow2(t - 1));
  }

  /** Every unsettled month takes at least a cent. */
  lemma {:induction false} DecliningCents(a: Book, k: nat)
    requires ActiveDeclining(a)
    ensures Settled(Charged(a, k)) || Charged(a, k).BookValue() <= a.BookValue() - k
  {
    if k > 0 {
      DecliningCents(a, k - 1);
      DecliningAfter(a, k - 1);
      var b := Charged(a, k - 1);
      if Settled(b) {
        SettledStays(b, 1);
        assert Charged(b, 1) == Charge(Charged(b, 0));
      } else {
        DecliningStep(b);
      }
    }
  }

  /**
   Declining balance always ends: if 2^t exceeds twice the book value less N, then after t half
   lives, a quarter of N more months, and one, the asset is either written off or rests at a book
   value below N/4 cents, and no later month changes it.
   */
  lemma DecliningEnds(a: Book, t: nat, later: nat)
    requires ActiveDeclining(a)
    requires Pow2(t) > Excess(a)
    ensures var months := HalfLives(a, t) + 3 * a.terms.years + 1;
      && Settled(Charged(a, months))
      && Charged(a, months + later) == Charged(a, months)
  {
    hide Charged, HalfLives, Pow2;
    var half, tail := HalfLives(a, t), 3 * a.terms.years + 1;
    DecliningExcess(a, t);
    DecliningAfter(a, half);
    var b := Charged(a, half);
    ChargedSplits(a, half, tail);
    if Settled(b) {
      SettledStays(b, tail);
    } else {
      ExcessGone(t, Excess(b), Excess(a));
      DecliningCents(b, tail);
    }
    DecliningAfter(a, half + tail);
    SettledStays(Charged(a, half + tail), later);
    ChargedSplits(a, half + tail, later);
  }

  lemma ExcessGone(t: nat, y: int, x: int)
    requires Pow2(t) * y <= x < Pow2(t)
    ensures y <= 0
  {
    if y >= 1 { MulLe(1, y, Pow2(t)); }
  }
}
