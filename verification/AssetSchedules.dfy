/**
 The depreciation of one asset inside the register: how long it can go on, whatever else is bought,
 sold, revised or posted meanwhile.
 */
module AssetSchedules {
  import opened Common
  import opened Depreciation
  import opened Assets
  import opened AssetRuns

  // ---------- one asset between two moments ----------

  /** `later` is `from` charged once for each row its table has gained, and each charge took something. */
  ghost predicate ChargedSince(from: Asset, later: Asset) {
    && |from.charges| <= |later.charges|
    && (var k := |later.charges| - |from.charges|;
        && later.book.terms == from.book.terms
        && (later.Live() ==> later.book == Charged(from.book, k))
        && (k > 0 ==> MonthCents(Charged(from.book, k - 1)) > 0))
  }

  lemma NothingSince(a: Asset)
    ensures ChargedSince(a, a)
  {
    assert Charged(a.book, 0) == a.book;
  }

  lemma OneMoreCharge(from: Asset, a: Asset, period: int)
    requires ChargedSince(from, a)
    ensures ChargedSince(from, ChargeFor(a, period))
  {
  }

  lemma GoneSince(from: Asset, a: Asset, status: AssetStatus)
    requires ChargedSince(from, a) && (status.SOLD? || status.DISPOSED?)
    ensures ChargedSince(from, a.(book := a.book.(status := status)))
  {
  }

  lemma {:induction false} ChargedAt(assets: seq<Asset>, period: int, id: nat)
    requires id < |assets|
    ensures |ChargeAll(assets, period)| == |assets| && ChargeAll(assets, period)[id] == ChargeFor(assets[id], period)
  {
    hide ChargeFor;
    var k := |assets| - 1;
    if id < k {
      ChargedAt(assets[..k], period, id);
    } else if k > 0 {
      ChargedAt(assets[..k], period, 0);
    }
  }

  predicate Revises(op: CompanyOp, id: nat) { op.Rework? && op.asset == id }

  lemma PerformChargesOnly(from: Asset, c: Company, op: CompanyOp, today: int, id: nat)
    requires id < |c.assets| && ChargedSince(from, c.assets[id]) && !Revises(op, id) && Perform(c, op, today).Ok?
    ensures id < |Perform(c, op, today).value.assets| && ChargedSince(from, Perform(c, op, today).value.assets[id])
  {
    hide ChargedSince, PostAuto, ChargeFor;
    match op
    case Buy(terms, m, purchased, inService) =>
    case Depreciate(period) =>
      ChargedAt(c.assets, period, id);
      OneMoreCharge(from, c.assets[id], period);
    case Sell(i, proceeds) =>
      if i == id { GoneSince(from, c.assets[id], if proceeds > 0 then SOLD else DISPOSED); }
    case Rework(_, _, _) =>
    case LedgerWork(_) =>
  }

  /** Through any run that does not revise it, an asset is only charged, sold or thrown away. */
  lemma {:induction false} RunChargesOnly(c: Company, ops: seq<(CompanyOp, int)>, id: nat)
    requires id < |c.assets| && forall x :: x in ops ==> !Revises(x.0, id)
    ensures id < |Run(c, ops).assets| && ChargedSince(c.assets[id], Run(c, ops).assets[id])
  {
    hide ChargedSince, Perform;
    if ops == [] {
      NothingSince(c.assets[id]);
    } else {
      var k := |ops| - 1;
      assert ops[k] in ops && forall x :: x in ops[..k] ==> x in ops;
      RunChargesOnly(c, ops[..k], id);
      if Perform(Run(c, ops[..k]), ops[k].0, ops[k].1).Ok? {
        PerformChargesOnly(c.assets[id], Run(c, ops[..k]), ops[k].0, ops[k].1, id);
      }
    }
  }

  /** The months an asset was charged for in the run. */
  function MonthsCharged(c: Company, ops: seq<(CompanyOp, int)>, id: nat): int
    requires id < |c.assets|
  {
    if id < |Run(c, ops).assets| then |Run(c, ops).assets[id].charges| - |c.assets[id].charges| else 0
  }

  // ---------- straight line ----------

  /**
   From any moment on, new or revised, a straight-line asset that still has between `last - 1` and
   `last` rates to write off is charged for at most `last` distinct months, and as long as it is there
   it is fully depreciated exactly when it has had them all.
   */
  lemma StraightLineInRegister(c: Company, ops: seq<(CompanyOp, int)>, id: nat, last: nat)
    requires id < |c.assets| && ActiveStraightLine(c.assets[id].book) && last > 0
    requires forall x :: x in ops ==> !Revises(x.0, id)
    requires var b := c.assets[id].book; (last - 1) * Rate(b.terms) < b.Remaining() <= last * Rate(b.terms)
    ensures var months := MonthsCharged(c, ops, id);
      && id < |Run(c, ops).assets| && 0 <= months <= last
      && (var a := Run(c, ops).assets[id]; a.Live() ==> (a.book.status == FULLY_DEPRECIATED <==> months == last))
  {
    hide Run, Charged, MonthCents, RoundDiv;
    RunChargesOnly(c, ops, id);
    var b, months := c.assets[id].book, MonthsCharged(c, ops, id);
    RateNonNegative(b);
    StraightLineAfter(b, months);
    if months > last {
      StraightLineAfter(b, months - 1);
      MulLe(last, months - 1, Rate(b.terms));
      FullyTakesNothing(Charged(b, months - 1));
    } else if months < last {
      MulLe(months, last - 1, Rate(b.terms));
    }
  }

  lemma FullyTakesNothing(b: Book)
    requires b.status == FULLY_DEPRECIATED
    ensures MonthCents(b) == 0
  {
    RoundOfInt(0);
  }

  /** A new straight-line asset with at least N(N+1)/2 cents to write off takes exactly N or N + 1 months. */
  lemma WrittenOffOnTime(c: Company, ops: seq<(CompanyOp, int)>, id: nat)
    requires id < |c.assets| && FreshStraightLine(c.assets[id].book)
    requires forall x :: x in ops ==> !Revises(x.0, id)
    requires var b := c.assets[id].book; 2 * b.Depreciable() >= (12 * b.terms.years) * (12 * b.terms.years + 1)
    ensures var b := c.assets[id].book; var n := 12 * b.terms.years;
      var last := if n * Rate(b.terms) >= b.Depreciable() then n else n + 1;
      var months := MonthsCharged(c, ops, id);
      && id < |Run(c, ops).assets| && months <= last
      && (var a := Run(c, ops).assets[id]; a.Live() ==> (a.book.status == FULLY_DEPRECIATED <==> months == last))
  {
    hide Run, RoundDiv;
    var b := c.assets[id].book;
    var n, m, d := 12 * b.terms.years, Rate(b.terms), b.Depreciable();
    RateBounds(b.terms);
    RateIsLarge(n, m, d);
    LastMonthFinishes(n, m, d);
    StraightLineInRegister(c, ops, id, LastMonth(n, m, d));
  }

  lemma RateBounds(t: Terms)
    requires t.years > 0
    ensures var n, m, d := 12 * t.years, Rate(t), t.cost - t.salvage; 2 * n * m <= 2 * d + n < 2 * n * m + 2 * n
  {
  }

  // ---------- declining balance ----------

  /** The months a declining balance can take: `t` half lives, a quarter of N, and one. */
  function DecliningLimit(b: Book, t: nat): nat
    requires b.terms.years > 0
  {
    HalfLives(b, t) + 3 * b.terms.years + 1
  }

  /**
   From any moment on, a declining balance whose doubled book value less N is under 2^t is charged for
   at most that many distinct months; if it had them all and is still there, it is written off or
   rests below N/4 cents.
   */
  lemma DecliningInRegister(c: Company, ops: seq<(CompanyOp, int)>, id: nat, t: nat)
    requires id < |c.assets| && ActiveDeclining(c.assets[id].book) && Pow2(t) > Excess(c.assets[id].book)
    requires forall x :: x in ops ==> !Revises(x.0, id)
    ensures var months, limit := MonthsCharged(c, ops, id), DecliningLimit(c.assets[id].book, t);
      && id < |Run(c, ops).assets| && 0 <= months <= limit
      && (var a := Run(c, ops).assets[id]; a.Live() && months == limit ==> Settled(a.book))
  {
    hide Run, Charged, MonthCents, HalfLives, Settled, Pow2;
    RunChargesOnly(c, ops, id);
    var b, months := c.assets[id].book, MonthsCharged(c, ops, id);
    var limit := DecliningLimit(b, t);
    DecliningEnds(b, t, if months > limit then months - 1 - limit else 0);
    if months > limit {
      DecliningAfter(b, limit);
      SettledTakesNothing(Charged(b, limit));
    }
  }

  lemma SettledTakesNothing(b: Book)
    requires Settled(b) && (b.status == FULLY_DEPRECIATED || ActiveDeclining(b))
    ensures MonthCents(b) <= 0
  {
    if b.status == FULLY_DEPRECIATED {
      FullyTakesNothing(b);
    } else {
      AmountInCents(b);
      DecliningRate(Months(b), b.BookValue());
    }
  }
}
