/**
 Which assets a depreciation run charges, and what it posts for them.
 */
module AssetCharges {
  import opened Common
  import opened Journal
  import opened Posting
  import opened PostingRules
  import opened Depreciation
  import opened Assets
  import opened AssetRuns
  import opened AssetKeys
  import opened AssetSchedules
  import LedgerRuns

  // ---------- one run ----------

  /**
   A run charges an asset if and only if it is active with a method and a positive life, has no row for
   the period, is in service by then, and its rounded amount is positive. It then gains the row and the
   amount, and is fully depreciated when nothing remains; any other asset is as it was.
   */
  lemma RunChargesExactly(c: Company, period: int, today: int, id: nat)
    requires RunDepreciation(c, period, today).Ok? && id < |c.assets|
    ensures |RunDepreciation(c, period, today).value.assets| == |c.assets|
    ensures var a, b := c.assets[id], RunDepreciation(c, period, today).value.assets[id];
      var amount := MonthCents(a.book);
      var charged :=
        && a.book.status == ACTIVE && a.book.terms.how != NONE && a.book.terms.years > 0
        && (forall r :: r in a.charges ==> r.period != period)
        && (a.inService == None || a.inService.value <= period)
        && amount > 0;
      var sum := a.book.accumulated + amount;
      b == if charged then
             a.(charges := a.charges + [Charging(period, amount)],
                book := a.book.(accumulated := sum,
                                status := if sum >= a.book.terms.cost - a.book.terms.salvage
                                          then FULLY_DEPRECIATED else ACTIVE))
           else a
  {
    hide MonthCents, PostAuto, TotalDue;
    ChargedAt(c.assets, period, id);
  }

  /** What has been written off all assets together. */
  function WrittenOff(assets: seq<Asset>): int {
    if assets == [] then 0 else WrittenOff(assets[..|assets| - 1]) + assets[|assets| - 1].book.accumulated
  }

  lemma ChargeWritesOff(a: Asset, period: int)
    ensures ChargeFor(a, period).book.accumulated == a.book.accumulated + Due(a, period)
  {
  }

  lemma {:induction false} ChargingWritesOff(assets: seq<Asset>, period: int)
    ensures WrittenOff(ChargeAll(assets, period)) == WrittenOff(assets) + TotalDue(assets, period)
  {
    hide ChargeFor, Due;
    if assets != [] {
      var k := |assets| - 1;
      ChargingWritesOff(assets[..k], period);
      ChargeWritesOff(assets[k], period);
      var t := ChargeAll(assets[..k], period);
      assert (t + [ChargeFor(assets[k], period)])[..|t|] == t;
    }
  }

  lemma DepreciationPostsBoth(amount: int, code: string)
    ensures PostedNet(DepreciationLines(amount), code)
         == (if code == DEPRECIATION_EXPENSE then amount else 0) - (if code == ACCUMULATED then amount else 0)
  {
    hide Posted;
    CodesDiffer();
    PostedPush([], Line(DEPRECIATION_EXPENSE, amount, 0), code);
    PostedPush(Push([], Line(DEPRECIATION_EXPENSE, amount, 0)), Line(ACCUMULATED, 0, amount), code);
    NoPosts(code);
  }

  lemma NoPosts(code: string)
    ensures PostedNet([], code) == 0
  {
  }

  /**
   With the ledger on, a run that wrote anything off posts one entry, dated the first day of the period,
   for exactly what it wrote off: debit to depreciation expense, credit to accumulated depreciation.
   */
  lemma RunPostsWhatItWritesOff(c: Company, period: int, today: int)
    requires c.ledgerEnabled && RunDepreciation(c, period, today).Ok?
    ensures var t := RunDepreciation(c, period, today).value; var sum := WrittenOff(t.assets) - WrittenOff(c.assets);
      if sum == 0 then t.ledger == c.ledger
      else
        && |t.ledger.entries| == |c.ledger.entries| + 1 && t.ledger.entries[..|c.ledger.entries|] == c.ledger.entries
        && (var e := t.ledger.entries[|c.ledger.entries|];
            && sum > 0 && e.date == period && IsRunFor(e, period) && e.status == POSTED
            && forall code :: PostedNet(e.lines, code)
                 == (if code == "5205" then sum else 0) - (if code == "1202" then sum else 0))
  {
    hide Posted, WrittenOff, TotalDue, ChargeAll, PriorRuns, SideTotal;
    ChargingWritesOff(c.assets, period);
    ChargeAllMovesTotal(c.assets, period);
    var total := TotalDue(c.assets, period);
    if total > 0 {
      DepreciationNeeds(c.ledger, total);
      var e := PostAppends(c.ledger, RunRequest(c, period), today);
      forall code ensures PostedNet(e.lines, code)
        == (if code == DEPRECIATION_EXPENSE then total else 0) - (if code == ACCUMULATED then total else 0)
      {
        DepreciationPostsBoth(total, code);
      }
    }
  }

  // ---------- never before it is in service ----------

  /** The same in-service date, and no row for a period before it. */
  ghost predicate ServedSince(a: Asset, day: int) {
    a.inService == Some(day) && forall r :: r in a.charges ==> day <= r.period
  }

  lemma PerformKeepsService(c: Company, op: CompanyOp, today: int, id: nat, day: int)
    requires id < |c.assets| && ServedSince(c.assets[id], day) && Perform(c, op, today).Ok?
    ensures id < |Perform(c, op, today).value.assets| && ServedSince(Perform(c, op, today).value.assets[id], day)
  {
    hide PostAuto, MonthCents;
    match op
    case Buy(_, _, _, _) =>
    case Depreciate(period) => ChargedAt(c.assets, period, id);
    case Sell(_, _) =>
    case Rework(_, _, _) =>
    case LedgerWork(_) =>
  }

  lemma {:induction false} RunKeepsService(c: Company, ops: seq<(CompanyOp, int)>, id: nat, day: int)
    requires id < |c.assets| && ServedSince(c.assets[id], day)
    ensures id < |Run(c, ops).assets| && ServedSince(Run(c, ops).assets[id], day)
  {
    hide ServedSince, Perform;
    if ops != [] {
      var k := |ops| - 1;
      RunKeepsService(c, ops[..k], id, day);
      if Perform(Run(c, ops[..k]), ops[k].0, ops[k].1).Ok? {
        PerformKeepsService(Run(c, ops[..k]), ops[k].0, ops[k].1, id, day);
      }
    }
  }

  /**
   Whatever runs after a purchase, the asset is never charged for a period before its in-service date,
   or, where none was given, its purchase date, or the day it was entered.
   */
  lemma NeverChargedBeforeService(
      c: Company, terms: Terms, m: PayMethod, purchased: Option<int>, inService: Option<int>, today: int,
      ops: seq<(CompanyOp, int)>)
    requires Perform(c, Buy(terms, m, purchased, inService), today).Ok?
    ensures var t := Run(Perform(c, Buy(terms, m, purchased, inService), today).value, ops); var id := |c.assets|;
      var day := if inService.Some? then inService.value else if purchased.Some? then purchased.value else today;
      && id < |t.assets| && t.assets[id].inService == Some(day)
      && forall r :: r in t.assets[id].charges ==> day <= r.period
  {
    hide PostAuto, Run;
    var bought := Perform(c, Buy(terms, m, purchased, inService), today).value;
    var day := if inService.Some? then inService.value else if purchased.Some? then purchased.value else today;
    assert bought.assets[|c.assets|] == NewAsset(terms, purchased, inService, today);
    RunKeepsService(bought, ops, |c.assets|, day);
  }

  // ---------- what a purchase does ----------

  lemma AcquisitionPostsBoth(cost: int, m: PayMethod, code: string)
    ensures PostedNet(AcquisitionLines(cost, m), code)
         == (if code == FIXED_ASSET then cost else 0) - (if code == AccountForMethod(m) then cost else 0)
  {
    hide Posted, Push, AccountForMethod;
    NoPosts(code);
    PostedPush([], Line(FIXED_ASSET, cost, 0), code);
    PostedPush(Push([], Line(FIXED_ASSET, cost, 0)), Line(AccountForMethod(m), 0, cost), code);
  }

  /**
   A purchase adds one asset with nothing written off. With a positive price it posts one entry on its
   own day, or today: the price to fixed assets, from cash, the bank, cheques or the suppliers' account
   as it was paid. Without one it posts nothing.
   */
  lemma PurchaseDoes(c: Company, terms: Terms, m: PayMethod, purchased: Option<int>, inService: Option<int>, today: int)
    requires c.ledgerEnabled && Create(c, terms, m, purchased, inService, today).Ok?
    ensures var t := Create(c, terms, m, purchased, inService, today).value;
      var paidFrom := match m
        case CashPay => "1101"
        case CardPay | PosPay | BankTransferPay | OnlinePay => "1102"
        case ChequePay => "1105"
        case CreditPay | OtherPay => "1103";
      && |t.assets| == |c.assets| + 1 && t.assets[..|c.assets|] == c.assets
      && (var a := t.assets[|c.assets|]; a.book == Book(terms, 0, ACTIVE) && a.charges == [])
      && if terms.cost <= 0 then t.ledger == c.ledger else
           && |t.ledger.entries| == |c.ledger.entries| + 1
           && var e := t.ledger.entries[|c.ledger.entries|];
              && e.date == (if purchased.Some? then purchased.value else today)
              && forall code :: PostedNet(e.lines, code)
                   == (if code == "1201" then terms.cost else 0) - (if code == paidFrom then terms.cost else 0)
  {
    hide Posted, SideTotal, AcquisitionLines;
    if terms.cost > 0 {
      AcquisitionNeeds(c.ledger, terms.cost, m);
      var e := PostAppends(c.ledger, AcquisitionRequest(|c.assets|, terms.cost, m, purchased), today);
      forall code { AcquisitionPostsBoth(terms.cost, m, code); }
    }
  }

  // ---------- what a disposal does ----------

  lemma DisposalPostsEach(cost: int, accumulated: int, proceeds: int, code: string)
    ensures PostedNet(DisposalLines(cost, accumulated, proceeds), code) ==
      if code == ACCUMULATED then accumulated
      else if code == CASH then proceeds
      else if code == FIXED_ASSET then -cost
      else if code == DISPOSAL_RESULT then cost - accumulated - proceeds
      else 0
  {
    hide Posted, Push;
    CodesDiffer();
    DisposalCodes();
    NoPosts(code);
    var one := Push([], Line(ACCUMULATED, accumulated, 0));
    var two := Push(one, Line(CASH, proceeds, 0));
    var three := Push(two, Line(FIXED_ASSET, 0, cost));
    PostedPush([], Line(ACCUMULATED, accumulated, 0), code);
    PostedPush(one, Line(CASH, proceeds, 0), code);
    PostedPush(two, Line(FIXED_ASSET, 0, cost), code);
    PostedPush(three, ResultLine(proceeds - (cost - accumulated)), code);
  }

  lemma DisposalCodes()
    ensures CASH != DISPOSAL_RESULT
  {
    assert CASH[0] == '1' && DISPOSAL_RESULT[0] == '4';
  }

  /**
   A disposal marks the asset sold if it brought anything and thrown away otherwise, touches no other
   asset, and posts today: price and accumulated depreciation leave the books, the proceeds come in, and
   what they differ from the book value by is gain (credit) or loss (debit).
   */
  lemma DisposalDoes(c: Company, id: nat, proceeds: int, today: int)
    requires c.ledgerEnabled && Dispose(c, id, proceeds, today).Ok?
    ensures id < |c.assets|
    ensures var t, a := Dispose(c, id, proceeds, today).value, c.assets[id];
      && t.assets == c.assets[id := a.(book := a.book.(status := if proceeds > 0 then SOLD else DISPOSED))]
      && (if a.book.terms.cost == 0 && a.book.accumulated == 0 && proceeds == 0 then t.ledger == c.ledger else
          (&& |t.ledger.entries| == |c.ledger.entries| + 1
           && var e := t.ledger.entries[|c.ledger.entries|];
              && e.date == today
              && PostedNet(e.lines, "1201") == -a.book.terms.cost
              && PostedNet(e.lines, "1202") == a.book.accumulated
              && PostedNet(e.lines, "1101") == proceeds
              && PostedNet(e.lines, "4105") == a.book.terms.cost - a.book.accumulated - proceeds))
  {
    hide Posted, SideTotal, DisposalLines;
    var b := c.assets[id].book;
    CodesDiffer();
    DisposalCodes();
    DisposalPostsEach(b.terms.cost, b.accumulated, proceeds, FIXED_ASSET);
    DisposalPostsEach(b.terms.cost, b.accumulated, proceeds, ACCUMULATED);
    DisposalPostsEach(b.terms.cost, b.accumulated, proceeds, CASH);
    DisposalPostsEach(b.terms.cost, b.accumulated, proceeds, DISPOSAL_RESULT);
    DisposalIsEmpty(b.terms.cost, b.accumulated, proceeds);
    if DisposalLines(b.terms.cost, b.accumulated, proceeds) != [] {
      var e := PostAppends(c.ledger, DisposalRequest(id, b, proceeds), today);
    }
  }
}
