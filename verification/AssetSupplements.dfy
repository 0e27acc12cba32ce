/**
 Supplementary depreciation runs of one month: numbered by counting the live entries, and so refused
 when an earlier entry was reversed.
 */
module AssetSupplements {
  import opened Common
  import opened Journal
  import opened Posting
  import opened PostingRules
  import opened Depreciation
  import opened Assets
  import opened AssetRuns
  import opened AssetKeys
  import Invariant = LedgerInvariant
  import LedgerRuns
  import FiscalYears

  // ---------- the numbers after a reversal ----------


  /** The newest of the numbered entries bears the last number. */
  lemma {:induction false} LastNumberUsed(entries: seq<Entry>, period: int) returns (j: nat)
    requires Numbered(entries, period) && PriorRuns(entries, period) > 0
    requires NoneReversed(entries, period)
    ensures j < |entries| && IsRunFor(entries[j], period)
    ensures entries[j].source.doc.part == Part(PriorRuns(entries, period) - 1)
  {
    var k := |entries| - 1;
    assert entries[k] in entries;
    if IsRunFor(entries[k], period) {
      j := k;
    } else {
      assert forall x :: x in entries[..k] ==> x in entries;
      j := LastNumberUsed(entries[..k], period);
    }
  }

  lemma {:induction false} PriorRunsRise(entries: seq<Entry>, i: nat, period: int)
    requires i <= |entries|
    ensures PriorRuns(entries[..i], period) <= PriorRuns(entries, period)
    decreases |entries| - i
  {
    if i < |entries| {
      PriorRunsRise(entries, i + 1, period);
      assert entries[..i + 1][..i] == entries[..i];
    } else {
      assert entries[..i] == entries;
    }
  }

  lemma {:induction false} NumberedPrefix(entries: seq<Entry>, i: nat, period: int)
    requires i <= |entries| && Numbered(entries, period)
    ensures Numbered(entries[..i], period)
    decreases |entries| - i
  {
    if i < |entries| {
      NumberedPrefix(entries, i + 1, period);
      assert entries[..i + 1][..i] == entries[..i];
    } else {
      assert entries[..i] == entries;
    }
  }

  /** A later entry of the period bears a higher number. */
  lemma NumbersDiffer(entries: seq<Entry>, period: int, i: nat, j: nat)
    requires NoneReversed(entries, period) && Numbered(entries, period) && i < j < |entries|
    requires IsRunFor(entries[i], period) && IsRunFor(entries[j], period)
    ensures entries[i].source.doc.part != entries[j].source.doc.part
  {
    hide Numbered, PriorRuns;
    NumberedPrefix(entries, j, period);
    NumberedPrefix(entries, j + 1, period);
    NumberedLast(entries, j, period);
    assert entries[..j][i] == entries[i];
    forall e | e in entries[..j] ensures e in entries {}
    NumbersUsed(entries[..j], period, entries[i]);
  }

  lemma NumberedLast(entries: seq<Entry>, j: nat, period: int)
    requires j < |entries| && Numbered(entries[..j + 1], period) && IsRunFor(entries[j], period)
    ensures entries[j].source.doc.part == Part(PriorRuns(entries[..j], period))
  {
    assert entries[..j + 1][..j] == entries[..j];
  }

  lemma {:induction false} PriorRunsMarked(entries: seq<Entry>, i: nat, period: int)
    requires i < |entries| && IsRunFor(entries[i], period) && !entries[i].status.REVERSED?
    ensures PriorRuns(entries[i := entries[i].(status := REVERSED)], period) == PriorRuns(entries, period) - 1
  {
    var t, k := entries[i := entries[i].(status := REVERSED)], |entries| - 1;
    if i == k {
      assert t[..k] == entries[..k];
    } else {
      assert t[..k] == entries[..k][i := entries[i].(status := REVERSED)];
      PriorRunsMarked(entries[..k], i, period);
    }
  }

  /** The journal after entry `i` of the period was reversed by `e`. */
  lemma NumberAfterReversal(entries: seq<Entry>, e: Entry, period: int, i: nat)
    requires NoneReversed(entries, period) && Numbered(entries, period)
    requires i < |entries| && IsRunFor(entries[i], period) && !e.source.External?
    ensures var t := (entries + [e])[i := entries[i].(status := REVERSED)]; var n := PriorRuns(entries, period);
      && n > 0 && PriorRuns(t, period) == n - 1
      && (NumberInUse(t, period, Part(n - 1)) <==> entries[i].source.doc.part != Part(n - 1))
  {
    hide Numbered, PriorRuns;
    var marked := entries[i].(status := REVERSED);
    var t := (entries + [e])[i := marked];
    var n := PriorRuns(entries, period);
    assert entries[i] in entries;
    assert t == entries[i := marked] + [e];
    PriorRunsMarked(entries, i, period);
    PriorRunsAppend(entries[i := marked], e, period);
    var j := LastNumberUsed(entries, period);
    assert entries[j] in entries;
    if i != j {
      NumbersDiffer(entries, period, if i < j then i else j, if i < j then j else i);
      assert t[j] == entries[j] && t[j] in t;
    } else {
      forall x | x in t && x.source == External(AssetDepreciation(period, Part(n - 1))) ensures x.status.REVERSED? {
        var k :| 0 <= k < |t| && t[k] == x;
        if k != i { NumbersDiffer(entries, period, if i < k then i else k, if i < k then k else i); }
      }
    }
  }

  lemma PriorRunsAppend(entries: seq<Entry>, e: Entry, period: int)
    ensures PriorRuns(entries + [e], period)
         == PriorRuns(entries, period) + (if IsRunFor(e, period) && !e.status.REVERSED? then 1 else 0)
  {
    assert (entries + [e])[..|entries|] == entries;
  }

  lemma NumberedWhileNoneReversed(entries: seq<Entry>, period: int)
    requires RunsNumbered(entries) && NoneReversed(entries, period)
    ensures Numbered(entries, period)
  {
  }

  lemma ReversalEntries(s: State, i: nat, today: int) returns (e: Entry)
    requires Invariant.Inv(s) && Reverse(s, i, today).Ok?
    ensures i < |s.entries| && e.source == ReversalOf(i)
    ensures Reverse(s, i, today).value.entries == (s.entries + [e])[i := s.entries[i].(status := REVERSED)]
  {
    hide Invariant.Inv, Reverse;
    var p;
    e, p := Invariant.ReverseAppends(s, i, today);
  }

  /**
   Reversing one of a period's entries gives the next supplementary run a number that is still in use,
   so that it is refused, exactly when the entry reversed was not the last of them.
   */
  lemma ReversalBlocksSupplement(c: Company, period: int, i: nat, today: int)
    requires CompanyOK(c) && NoneReversed(c.ledger.entries, period)
    requires i < |c.ledger.entries| && IsRunFor(c.ledger.entries[i], period) && Reverse(c.ledger, i, today).Ok?
    ensures var t := Reverse(c.ledger, i, today).value.entries;
      NumberInUse(t, period, NextPart(t, period)) <==>
      c.ledger.entries[i].source.doc.part != LastPart(c.ledger.entries, period)
  {
    hide CompanyOK, NoneReversed, Numbered, PriorRuns, Reverse, NumberInUse;
    CompanyParts(c);
    var e := ReversalEntries(c.ledger, i, today);
    NumberedWhileNoneReversed(c.ledger.entries, period);
    NumberAfterReversal(c.ledger.entries, e, period, i);
  }

  // ---------- one furniture shop, two reversals ----------

  /** Ten years at ten cents a month. */
  const DESK := Terms(1200, 0, 10, STRAIGHT_LINE)

  function BuyDesk(day: int): CompanyOp { Buy(DESK, CashPay, Some(day), Some(day)) }

  ghost predicate Ready(c: Company, day: int) {
    && CompanyOK(c) && KeysOK(c.ledger.entries, c.assets) && Invariant.YearOpenOn(c.ledger, day)
    && Usable(c.ledger, FIXED_ASSET) && Usable(c.ledger, CASH)
    && Usable(c.ledger, DEPRECIATION_EXPENSE) && Usable(c.ledger, ACCUMULATED)
  }

  /** One entry more, with the years and the accounts still open to postings. */
  ghost predicate OneMore(s: State, e: Entry, t: State) {
    && t.entries == s.entries + [e] && e.status == POSTED
    && t.years == s.years
    && forall code :: Usable(s, code) ==> Usable(t, code)
  }

  lemma PostIsOneMore(c: Company, p: Request, today: int) returns (e: Entry)
    requires c.ledgerEnabled && p.lines != [] && PostAuto(c, p, today).Ok?
    ensures OneMore(c.ledger, e, PostAuto(c, p, today).value) && e.source == p.source
  {
    hide Posted, SideTotal;
    e := PostAppends(c.ledger, p, today);
  }

  lemma OneMoreStaysReady(c: Company, t: Company, e: Entry, day: int)
    requires Ready(c, day) && OneMore(c.ledger, e, t.ledger)
    requires CompanyOK(t) && KeysOK(t.ledger.entries, t.assets)
    ensures Ready(t, day)
  {
    hide CompanyOK, KeysOK, Usable;
  }

  lemma DeskIsDue(day: int, today: int)
    ensures Due(NewAsset(DESK, Some(day), Some(day), today), day) == 10
  {
    AmountInCents(Book(DESK, 0, ACTIVE));
  }

  lemma DeskBought(c: Company, day: int, today: int) returns (t: Company, e: Entry)
    requires Ready(c, day)
    ensures Perform(c, BuyDesk(day), today) == Ok(t)
    ensures Ready(t, day) && OneMore(c.ledger, e, t.ledger) && e.source == External(AssetAcquisition(|c.assets|))
    ensures TotalDue(t.assets, day) > 0
  {
    hide CompanyOK, KeysOK, Usable, Invariant.YearOpenOn, PostAuto, OneMore, Due, NewAsset, AcquisitionLines;
    CreateExactly(c, DESK, CashPay, Some(day), Some(day), today);
    t := Create(c, DESK, CashPay, Some(day), Some(day), today).value;
    PerformKeepsOK(c, BuyDesk(day), today);
    PerformKeepsKeys(c, BuyDesk(day), today);
    AcquisitionNeeds(c.ledger, 1200, CashPay);
    CompanyParts(c);
    e := PostIsOneMore(c, AcquisitionRequest(|c.assets|, 1200, CashPay, Some(day)), today);
    OneMoreStaysReady(c, t, e, day);
    DeskIsDue(day, today);
    var desk := NewAsset(DESK, Some(day), Some(day), today);
    assert (c.assets + [desk])[..|c.assets|] == c.assets;
    ChargeAllMovesTotal(c.assets, day);
  }

  lemma MonthCharged(c: Company, day: int, today: int) returns (t: Company, e: Entry)
    requires Ready(c, day) && TotalDue(c.assets, day) > 0
    requires !NumberInUse(c.ledger.entries, day, NextPart(c.ledger.entries, day))
    ensures Perform(c, Depreciate(day), today) == Ok(t)
    ensures Ready(t, day) && OneMore(c.ledger, e, t.ledger)
    ensures e.source == External(AssetDepreciation(day, NextPart(c.ledger.entries, day)))
  {
    hide CompanyOK, KeysOK, Usable, Invariant.YearOpenOn, PostAuto, OneMore, DepreciationLines, NumberInUse,
        PriorRuns, Part;
    RunDepreciationExactly(c, day, today);
    t := RunDepreciation(c, day, today).value;
    PerformKeepsOK(c, Depreciate(day), today);
    PerformKeepsKeys(c, Depreciate(day), today);
    DepreciationNeeds(c.ledger, TotalDue(c.assets, day));
    CompanyParts(c);
    e := PostIsOneMore(c, RunRequest(c, day), today);
    OneMoreStaysReady(c, t, e, day);
  }

  lemma EntryUndone(c: Company, i: nat, day: int, today: int) returns (t: Company, e: Entry)
    requires Ready(c, day) && i < |c.ledger.entries| && c.ledger.entries[i].status == POSTED
    requires c.ledger.years == [Year("1403", 1, 400, false)] && 1 <= today <= 400
    ensures Reverse(c.ledger, i, today) == Ok(t.ledger)
    ensures Perform(c, LedgerWork(LedgerRuns.Undo(i)), today) == Ok(t) && t.assets == c.assets
    ensures Ready(t, day) && e.source == ReversalOf(i) && t.ledger.years == c.ledger.years
    ensures t.ledger.entries == (c.ledger.entries + [e])[i := c.ledger.entries[i].(status := REVERSED)]
  {
    hide CompanyOK, KeysOK, Invariant.Inv, Reverse, RunsNumbered, Agrees, AssetsOK;
    CompanyParts(c);
    UndoGoesThrough(c.ledger, i, today);
    t := c.(ledger := Reverse(c.ledger, i, today).value);
    e := ReversalEntries(c.ledger, i, today);
    PerformKeepsOK(c, LedgerWork(LedgerRuns.Undo(i)), today);
    PerformKeepsKeys(c, LedgerWork(LedgerRuns.Undo(i)), today);
    UndoKeepsUsable(c.ledger, i, today);
  }

  lemma UndoGoesThrough(s: State, i: nat, today: int)
    requires Invariant.Inv(s) && i < |s.entries| && s.entries[i].status == POSTED
    requires s.years == [Year("1403", 1, 400, false)] && 1 <= today <= 400
    ensures Reverse(s, i, today).Ok?
  {
    hide Reverse;
    Invariant.ReverseExactly(s, i, today);
    assert Invariant.EntryOK(s, s.entries[i]);
    assert YearOf(s.years, today) == Some(0);
  }

  lemma UndoKeepsUsable(s: State, i: nat, today: int)
    requires Invariant.Inv(s) && Reverse(s, i, today).Ok?
    ensures Reverse(s, i, today).value.years == s.years
    ensures forall code :: Usable(s, code) ==> Usable(Reverse(s, i, today).value, code)
  {
    hide Invariant.Inv, Reverse, Posted, SideTotal;
    var _, _ := Invariant.ReverseAppends(s, i, today);
  }

  lemma OtherEntryKeepsNumbers(entries: seq<Entry>, e: Entry, period: int, part: nat)
    requires !IsRunFor(e, period)
    ensures PriorRuns(entries + [e], period) == PriorRuns(entries, period)
    ensures NumberInUse(entries + [e], period, part) <==> NumberInUse(entries, period, part)
  {
    hide PriorRuns;
    PriorRunsAppend(entries, e, period);
    assert forall x :: x in entries + [e] <==> x in entries || x == e;
  }

  /** A key in use is the only thing that stands in the way of this posting. */
  lemma RefusedAsDuplicate(c: Company, p: Request, today: int)
    requires c.ledgerEnabled && p.lines != [] && !p.allowClosedYear && Taken(c.ledger.entries, p.source)
    requires Invariant.YearOpenOn(c.ledger, p.date.GetOr(today)) && AllUsable(c.ledger, p.lines)
    requires AllOneSided(p.lines) && BalancedLines(p.lines)
    ensures PostAuto(c, p, today) == Err(DuplicateSource)
  {
    hide SideTotal, Taken;
    TotalsNonNegative(p.lines);
  }

  lemma MonthRefused(c: Company, day: int, today: int)
    requires Ready(c, day) && TotalDue(c.assets, day) > 0
    requires NumberInUse(c.ledger.entries, day, NextPart(c.ledger.entries, day))
    ensures Perform(c, Depreciate(day), today) == Err(DuplicateSource)
  {
    hide CompanyOK, KeysOK, Usable, Invariant.YearOpenOn, PostAuto, AllUsable, AllOneSided, BalancedLines,
        DepreciationLines;
    CompanyParts(c);
    DepreciationNeeds(c.ledger, TotalDue(c.assets, day));
    RefusedAsDuplicate(c, RunRequest(c, day), today);
  }

  const CHART: State := State(
    [FIXED_ASSET, ACCUMULATED, CASH, DEPRECIATION_EXPENSE, FiscalYears.RETAINED],
    map[FIXED_ASSET := Account(ASSET, true, 0), ACCUMULATED := Account(ASSET, true, 0), CASH := Account(ASSET, true, 0),
        DEPRECIATION_EXPENSE := Account(EXPENSE, true, 0), FiscalYears.RETAINED := Account(EQUITY, true, 0)],
    [Year("1403", 1, 400, false)], [])

  const SHOP := Company(CHART, true, [])

  /** A desk is bought and the month depreciated, then another desk and the month's supplement. */
  const TWO_DESKS: seq<(CompanyOp, int)> :=
    [(BuyDesk(100), 100), (Depreciate(100), 130), (BuyDesk(100), 140), (Depreciate(100), 150)]

  /** Then one entry is reversed and a third desk bought. */
  function AfterUndoing(i: nat): seq<(CompanyOp, int)> {
    TWO_DESKS + [(LedgerWork(LedgerRuns.Undo(i)), 160), (BuyDesk(100), 170)]
  }

  lemma CodesOfChart()
    ensures Distinct(CHART.codes)
  {
    assert FIXED_ASSET[0] == '1' && CASH[0] == '1' && ACCUMULATED[0] == '1' && DEPRECIATION_EXPENSE[0] == '5';
    assert FiscalYears.RETAINED[0] == '3' && FIXED_ASSET[1] == '2' && ACCUMULATED[1] == '2' && CASH[1] == '1';
    assert FIXED_ASSET[3] == '1' && ACCUMULATED[3] == '2';
  }

  lemma ChartIsSound()
    ensures Invariant.Inv(CHART)
  {
    CodesOfChart();
  }

  lemma ShopStarts()
    ensures Start(SHOP) && Ready(SHOP, 100)
  {
    hide Invariant.Inv, CompanyOK, KeysOK;
    CodesOfChart();
    ChartIsSound();
    assert YearOf(CHART.years, 100) == Some(0);
    assert Run(SHOP, []) == SHOP;
    RunKeepsKeys(SHOP, []);
  }

  lemma RunOneMore(c: Company, ops: seq<(CompanyOp, int)>, k: nat, t: Company)
    requires k < |ops| && Run(c, ops[..k]) == t
    ensures Run(c, ops[..k + 1]) == Step(t, ops[k].0, ops[k].1)
  {
    assert ops[..k + 1][..k] == ops[..k];
  }

  lemma RunNothing(c: Company, ops: seq<(CompanyOp, int)>)
    ensures Run(c, ops[..0]) == c
  {
  }

  const YEARS: seq<Year> := [Year("1403", 1, 400, false)]

  /** A desk and the month's charge, the period's number `n` being free. */
  lemma DeskAndMonth(c: Company, n: nat, today: int, later: int)
      returns (mid: Company, t: Company, e: Entry, run: Entry)
    requires Ready(c, 100) && PriorRuns(c.ledger.entries, 100) == n && !NumberInUse(c.ledger.entries, 100, Part(n))
    ensures Perform(c, BuyDesk(100), today) == Ok(mid) && Perform(mid, Depreciate(100), later) == Ok(t)
    ensures Ready(t, 100) && t.ledger.years == c.ledger.years
    ensures t.ledger.entries == c.ledger.entries + [e, run] && e.status == POSTED && run.status == POSTED
    ensures !IsRunFor(e, 100) && run.source == External(AssetDepreciation(100, Part(n)))
    ensures PriorRuns(t.ledger.entries, 100) == n + 1
  {
    hide Perform, Ready, Usable, BuyDesk, PriorRuns, NumberInUse, Part;
    mid, e := DeskBought(c, 100, today);
    OtherEntryKeepsNumbers(c.ledger.entries, e, 100, Part(n));
    t, run := MonthCharged(mid, 100, later);
    PriorRunsAppend(mid.ledger.entries, run, 100);
    assert c.ledger.entries + [e] + [run] == c.ledger.entries + [e, run];
  }

  /** After the two desks entries 1 and 3 of the journal are the month's, numbered 0 and 2. */
  ghost predicate TwoDesks(c: Company) {
    && Ready(c, 100) && c.ledger.years == YEARS && |c.ledger.entries| == 4
    && (forall e :: e in c.ledger.entries ==> e.status == POSTED)
    && PriorRuns(c.ledger.entries, 100) == 2
    && c.ledger.entries[1].source == External(AssetDepreciation(100, 0))
    && c.ledger.entries[3].source == External(AssetDepreciation(100, 2))
  }

  lemma TwoDesksBought(shop: Company, ops: seq<(CompanyOp, int)>) returns (c: Company)
    requires Ready(shop, 100) && shop.ledger.entries == [] && shop.ledger.years == YEARS
    requires |ops| >= 4 && ops[..4] == TWO_DESKS
    ensures Run(shop, ops[..4]) == c && TwoDesks(c)
  {
    hide Run, Perform, Ready, Usable, BuyDesk, PriorRuns;
    assert forall k :: 0 <= k < 4 ==> ops[k] == ops[..4][k];
    NoRuns();
    var a, b, e0, e1 := DeskAndMonth(shop, 0, 100, 130);
    assert b.ledger.entries == [e0, e1];
    var d, f, e2, e3 := DeskAndMonth(b, 1, 140, 150);
    assert f.ledger.entries == [e0, e1, e2, e3];
    RunNothing(shop, ops);
    RunOneMore(shop, ops, 0, shop);
    RunOneMore(shop, ops, 1, a);
    RunOneMore(shop, ops, 2, b);
    RunOneMore(shop, ops, 3, d);
    c := f;
  }

  lemma NoRuns()
    ensures PriorRuns([], 100) == 0
  {
  }

  /** The company after one of the two entries was reversed, and a third desk bought. */
  lemma ThirdDesk(c: Company, i: nat) returns (u: Company, t: Company)
    requires TwoDesks(c) && (i == 1 || i == 3)
    ensures Perform(c, LedgerWork(LedgerRuns.Undo(i)), 160) == Ok(u) && Perform(u, BuyDesk(100), 170) == Ok(t)
    ensures Ready(t, 100) && TotalDue(t.assets, 100) > 0
    ensures NumberInUse(t.ledger.entries, 100, NextPart(t.ledger.entries, 100)) <==> i == 1
  {
    hide Perform, Ready, PriorRuns, NumberInUse, BuyDesk, Numbered, Reverse, TotalDue, Usable;
    var r, e;
    u, r := EntryUndone(c, i, 100, 160);
    t, e := DeskBought(u, 100, 170);
    ReadyNumbered(c, 100);
    NumberAfterReversal(c.ledger.entries, r, 100, i);
    OtherEntryKeepsNumbers(u.ledger.entries, e, 100, 2);
  }

  lemma OneUndone(shop: Company, i: nat) returns (t: Company)
    requires Ready(shop, 100) && shop.ledger.entries == [] && shop.ledger.years == YEARS && (i == 1 || i == 3)
    ensures Run(shop, AfterUndoing(i)) == t && Ready(t, 100) && TotalDue(t.assets, 100) > 0
    ensures NumberInUse(t.ledger.entries, 100, NextPart(t.ledger.entries, 100)) <==> i == 1
  {
    hide Run, Perform, Ready, NextPart, NumberInUse, BuyDesk, TwoDesks, TotalDue;
    var ops := AfterUndoing(i);
    assert ops[..4] == TWO_DESKS && ops[..6] == ops;
    var c := TwoDesksBought(shop, ops);
    var u;
    u, t := ThirdDesk(c, i);
    RunOneMore(shop, ops, 4, c);
    RunOneMore(shop, ops, 5, u);
  }

  lemma ReadyNumbered(c: Company, day: int)
    requires Ready(c, day) && forall e :: e in c.ledger.entries ==> e.status == POSTED
    ensures NoneReversed(c.ledger.entries, day) && Numbered(c.ledger.entries, day)
  {
    hide CompanyOK, KeysOK, Usable, Numbered;
    CompanyParts(c);
    NumberedWhileNoneReversed(c.ledger.entries, day);
  }

  /**
   In one and the same shop: after the month's first entry is reversed the third desk cannot be charged,
   after the second it can, although neither time the month is free of reversals.
   */
  lemma SupplementCanBeRefused()
    ensures Start(SHOP)
    ensures Perform(Run(SHOP, AfterUndoing(1)), Depreciate(100), 180) == Err(DuplicateSource)
    ensures Perform(Run(SHOP, AfterUndoing(3)), Depreciate(100), 180).Ok?
  {
    hide Run, Perform, Ready, PriorRuns, NumberInUse, Start, AfterUndoing;
    ShopStarts();
    var first := OneUndone(SHOP, 1);
    var second := OneUndone(SHOP, 3);
    MonthRefused(first, 100, 180);
    var _, _ := MonthCharged(second, 100, 180);
  }

  // ---------- a negative price ----------

  const GIFT := Terms(-500, 0, 10, STRAIGHT_LINE)

  const GIFT_BOUGHT: seq<(CompanyOp, int)> := [(Buy(GIFT, CashPay, Some(100), Some(100)), 100)]

  function Gift(): Asset { NewAsset(GIFT, Some(100), Some(100), 100) }

  lemma GiftAccepted(c: Company)
    ensures Perform(c, GIFT_BOUGHT[0].0, 100) == Ok(c.(assets := c.assets + [Gift()]))
  {
    hide PostAuto;
  }

  lemma NothingOwned()
    ensures TotalBookValue([]) == 0 == FixedAssetNet([])
  {
  }

  /**
   The same shop takes a desk in at minus five: the purchase is accepted and posts nothing, the register
   then shows minus five where the ledger shows nothing, and no disposal of the desk goes through.
   */
  lemma NegativePriceStays(proceeds: int)
    ensures Perform(SHOP, GIFT_BOUGHT[0].0, 100).Ok?
    ensures var t := Run(SHOP, GIFT_BOUGHT);
      && t == SHOP.(assets := [Gift()])
      && TotalBookValue(t.assets) == -500 && FixedAssetNet(t.ledger.entries) == 0
      && Perform(t, Sell(0, proceeds), 130).Err?
  {
    hide Run, Create, Dispose, TotalBookValue, FixedAssetNet;
    RunNothing(SHOP, GIFT_BOUGHT);
    GiftAccepted(SHOP);
    RunOneMore(SHOP, GIFT_BOUGHT, 0, SHOP);
    assert GIFT_BOUGHT[..1] == GIFT_BOUGHT && [] + [Gift()] == [Gift()];
    NothingOwned();
    BookValueAppend([], Gift());
    NegativeCostStays(SHOP.(assets := [Gift()]), 0, proceeds, 130);
  }
}
