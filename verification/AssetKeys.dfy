/**
 The document keys of the asset register: which are free when it wants to post, and so exactly when
 a purchase, a depreciation run and a disposal go through.
 */
module AssetKeys {
  import opened Common
  import opened Journal
  import opened Posting
  import opened PostingRules
  import opened Depreciation
  import opened Assets
  import opened AssetRuns
  import Invariant = LedgerInvariant
  import LedgerRuns

  predicate Usable(s: State, code: string) { code in s.accounts && s.accounts[code].postable }

  // ---------- purchases and disposals ----------

  /** Purchase keys belong to assets in the table, disposal keys to assets that are gone. */
  ghost predicate KeysOK(entries: seq<Entry>, assets: seq<Asset>) {
    forall e :: e in entries && e.source.External? ==> KeyOK(e.source.doc, assets)
  }

  predicate KeyOK(d: Document, assets: seq<Asset>) {
    match d
    case AssetAcquisition(i) => i < |assets|
    case AssetDisposal(i) => i < |assets| && !assets[i].Live()
    case _ => true
  }

  /** Assets are never removed, and one that is gone never comes back. */
  ghost predicate AssetsGrow(a: seq<Asset>, b: seq<Asset>) {
    |a| <= |b| && forall i :: 0 <= i < |a| && !a[i].Live() ==> !b[i].Live()
  }

  lemma KeysStay(a: seq<Entry>, b: seq<Entry>, before: seq<Asset>, after: seq<Asset>)
    requires KeysOK(a, before) && AssetsGrow(before, after) && |a| <= |b|
    requires forall i :: 0 <= i < |a| ==> b[i].source == a[i].source
    requires forall i :: |a| <= i < |b| && b[i].source.External? ==> KeyOK(b[i].source.doc, after)
    ensures KeysOK(b, after)
  {
    forall e | e in b && e.source.External? ensures KeyOK(e.source.doc, after) {
      var i :| 0 <= i < |b| && b[i] == e;
      if i < |a| { assert a[i] in a; }
    }
  }

  /** Posting a document of the register whose key is in order. */
  lemma PostKeepsKeys(c: Company, p: Request, today: int, after: seq<Asset>)
    requires KeysOK(c.ledger.entries, c.assets) && AssetsGrow(c.assets, after)
    requires PostAuto(c, p, today).Ok? && p.source.External? && KeyOK(p.source.doc, after)
    ensures KeysOK(PostAuto(c, p, today).value.entries, after)
  {
    hide KeysOK, AssetsGrow, KeyOK;
    if p.lines != [] && c.ledgerEnabled {
      var e := PostAppends(c.ledger, p, today);
      KeysStay(c.ledger.entries, c.ledger.entries + [e], c.assets, after);
    } else {
      KeysStay(c.ledger.entries, c.ledger.entries, c.assets, after);
    }
  }

  lemma LedgerWorkKeepsKeys(c: Company, op: LedgerRuns.Op, today: int)
    requires Invariant.Inv(c.ledger) && KeysOK(c.ledger.entries, c.assets)
    requires LedgerRuns.Perform(c.ledger, op, today).Ok? && (op.Post? ==> !AssetDocument(op.doc))
    ensures KeysOK(LedgerRuns.Perform(c.ledger, op, today).value.entries, c.assets)
  {
    hide Invariant.Inv, LedgerRuns.Perform, KeysOK;
    var t := LedgerRuns.Perform(c.ledger, op, today).value;
    LedgerRuns.PerformGrows(c.ledger, op, today);
    AddsNoAssetEntry(c.ledger, op, today);
    forall i | 0 <= i < |c.ledger.entries| ensures t.entries[i].source == c.ledger.entries[i].source {
      assert LedgerRuns.SameOrMarked(c.ledger.entries[i], t.entries[i]);
    }
    KeysStay(c.ledger.entries, t.entries, c.assets, c.assets);
  }

  lemma PerformKeepsKeys(c: Company, op: CompanyOp, today: int)
    requires CompanyOK(c) && KeysOK(c.ledger.entries, c.assets) && Allowed(op) && Perform(c, op, today).Ok?
    ensures var t := Perform(c, op, today).value; KeysOK(t.ledger.entries, t.assets)
  {
    hide CompanyOK, KeysOK, PostAuto, LedgerRuns.Perform;
    var t := Perform(c, op, today).value;
    match op
    case Buy(terms, m, purchased, inService) =>
      if terms.cost > 0 {
        PostKeepsKeys(c, AcquisitionRequest(|c.assets|, terms.cost, m, purchased), today, t.assets);
      } else {
        KeysStay(c.ledger.entries, c.ledger.entries, c.assets, t.assets);
      }
    case Depreciate(period) =>
      ChargingKeepsGone(c.assets, period);
      if TotalDue(c.assets, period) > 0 {
        PostKeepsKeys(c, RunRequest(c, period), today, t.assets);
      } else {
        KeysStay(c.ledger.entries, c.ledger.entries, c.assets, t.assets);
      }
    case Sell(id, proceeds) =>
      PostKeepsKeys(c, DisposalRequest(id, c.assets[id].book, proceeds), today, t.assets);
    case Rework(id, years, how) =>
      KeysStay(c.ledger.entries, c.ledger.entries, c.assets, t.assets);
    case LedgerWork(l) =>
      CompanyParts(c);
      LedgerWorkKeepsKeys(c, l, today);
  }

  lemma CompanyParts(c: Company)
    requires CompanyOK(c)
    ensures Invariant.Inv(c.ledger) && AssetsOK(c.assets) && c.ledgerEnabled && RunsNumbered(c.ledger.entries)
  {
    hide Invariant.Inv, AssetsOK, RunsNumbered, Agrees;
  }

  lemma {:induction false} ChargingKeepsGone(assets: seq<Asset>, period: int)
    ensures AssetsGrow(assets, ChargeAll(assets, period)) && |ChargeAll(assets, period)| == |assets|
  {
    if assets != [] { ChargingKeepsGone(assets[..|assets| - 1], period); }
  }

  /** In every company that a run can reach, the keys are in order. */
  lemma {:induction false} RunKeepsKeys(c: Company, ops: seq<(CompanyOp, int)>)
    requires Start(c) && forall x :: x in ops ==> Allowed(x.0)
    ensures var t := Run(c, ops); CompanyOK(t) && KeysOK(t.ledger.entries, t.assets)
  {
    hide CompanyOK, Perform;
    RunKeepsCompanyOK(c, ops);
    if ops != [] {
      var k := |ops| - 1;
      assert ops[k] in ops && forall x :: x in ops[..k] ==> x in ops;
      RunKeepsKeys(c, ops[..k]);
      if Perform(Run(c, ops[..k]), ops[k].0, ops[k].1).Ok? {
        PerformKeepsKeys(Run(c, ops[..k]), ops[k].0, ops[k].1);
      }
    }
  }

  lemma KeyIsFree(entries: seq<Entry>, assets: seq<Asset>, d: Document)
    requires KeysOK(entries, assets) && !KeyOK(d, assets)
    ensures !Taken(entries, External(d))
  {
  }

  // ---------- what the lines of an asset document need ----------

  ghost predicate AllUsable(s: State, lines: seq<Line>) { forall l :: l in lines ==> Usable(s, l.account) }

  lemma PushNeeds(s: State, lines: seq<Line>, l: Line)
    ensures AllUsable(s, Push(lines, l)) <==> AllUsable(s, lines) && (l.debit + l.credit != 0 ==> Usable(s, l.account))
  {
    if AllUsable(s, lines + [l]) {
      assert l in lines + [l];
      assert forall x :: x in lines ==> x in lines + [l];
    }
  }

  lemma NothingNeeded(s: State)
    ensures AllUsable(s, []) && AllOneSided([]) && SideTotal([], DebitSide) == 0 == SideTotal([], CreditSide)
  {
  }

  /** What a posting of the register needs once its key is free. */
  lemma RegisterPostsExactly(c: Company, p: Request, today: int)
    requires c.ledgerEnabled && !Taken(c.ledger.entries, p.source) && BalancedLines(p.lines)
    ensures PostAuto(c, p, today).Ok? <==>
      || p.lines == []
      || (&& Invariant.YearOpenOn(c.ledger, p.date.GetOr(today))
          && AllUsable(c.ledger, p.lines) && AllOneSided(p.lines))
  {
    hide SideTotal;
    PostInExactly(c.ledger, p, today);
  }

  lemma AcquisitionNeeds(s: State, cost: int, m: PayMethod)
    requires cost > 0
    ensures var lines := AcquisitionLines(cost, m);
      && lines != [] && BalancedLines(lines) && AllOneSided(lines)
      && (AllUsable(s, lines) <==> Usable(s, FIXED_ASSET) && Usable(s, AccountForMethod(m)))
  {
    hide SideTotal, AllUsable, AllOneSided, Usable, AccountForMethod;
    var a, b := Line(FIXED_ASSET, cost, 0), Line(AccountForMethod(m), 0, cost);
    NothingNeeded(s);
    PushAdds([], a);
    PushNeeds(s, [], a);
    PushAdds(Push([], a), b);
    PushNeeds(s, Push([], a), b);
  }

  lemma DepreciationNeeds(s: State, amount: int)
    requires amount > 0
    ensures var lines := DepreciationLines(amount);
      && lines != [] && BalancedLines(lines) && AllOneSided(lines)
      && (AllUsable(s, lines) <==> Usable(s, DEPRECIATION_EXPENSE) && Usable(s, ACCUMULATED))
  {
    hide SideTotal, AllUsable, AllOneSided, Usable;
    var a, b := Line(DEPRECIATION_EXPENSE, amount, 0), Line(ACCUMULATED, 0, amount);
    NothingNeeded(s);
    PushAdds([], a);
    PushNeeds(s, [], a);
    PushAdds(Push([], a), b);
    PushNeeds(s, Push([], a), b);
  }

  lemma DisposalBalances(cost: int, accumulated: int, proceeds: int)
    requires accumulated >= 0
    ensures BalancedLines(DisposalLines(cost, accumulated, proceeds))
    ensures AllOneSided(DisposalLines(cost, accumulated, proceeds)) <==> cost >= 0 && proceeds >= 0
  {
    hide SideTotal, AllOneSided, Push;
    var one := Push([], Line(ACCUMULATED, accumulated, 0));
    var two := Push(one, Line(CASH, proceeds, 0));
    var three := Push(two, Line(FIXED_ASSET, 0, cost));
    PostingRules.NoLines();
    PushAdds([], Line(ACCUMULATED, accumulated, 0));
    PushAdds(one, Line(CASH, proceeds, 0));
    PushAdds(two, Line(FIXED_ASSET, 0, cost));
    PushAdds(three, ResultLine(proceeds - (cost - accumulated)));
  }

  lemma DisposalUses(s: State, cost: int, accumulated: int, proceeds: int)
    ensures AllUsable(s, DisposalLines(cost, accumulated, proceeds)) <==>
      && (accumulated != 0 ==> Usable(s, ACCUMULATED)) && (proceeds != 0 ==> Usable(s, CASH))
      && (cost != 0 ==> Usable(s, FIXED_ASSET)) && (proceeds != cost - accumulated ==> Usable(s, DISPOSAL_RESULT))
  {
    hide SideTotal, AllUsable, Push, Usable;
    var one := Push([], Line(ACCUMULATED, accumulated, 0));
    var two := Push(one, Line(CASH, proceeds, 0));
    var three := Push(two, Line(FIXED_ASSET, 0, cost));
    NothingNeeded(s);
    PushNeeds(s, [], Line(ACCUMULATED, accumulated, 0));
    PushNeeds(s, one, Line(CASH, proceeds, 0));
    PushNeeds(s, two, Line(FIXED_ASSET, 0, cost));
    PushNeeds(s, three, ResultLine(proceeds - (cost - accumulated)));
  }

  lemma PushIsEmpty(lines: seq<Line>, l: Line)
    ensures Push(lines, l) == [] <==> lines == [] && l.debit + l.credit == 0
  {
  }

  lemma DisposalIsEmpty(cost: int, accumulated: int, proceeds: int)
    ensures DisposalLines(cost, accumulated, proceeds) == [] <==> cost == 0 && accumulated == 0 && proceeds == 0
  {
    hide Push;
    var one := Push([], Line(ACCUMULATED, accumulated, 0));
    var two := Push(one, Line(CASH, proceeds, 0));
    PushIsEmpty([], Line(ACCUMULATED, accumulated, 0));
    PushIsEmpty(one, Line(CASH, proceeds, 0));
    PushIsEmpty(two, Line(FIXED_ASSET, 0, cost));
    PushIsEmpty(Push(two, Line(FIXED_ASSET, 0, cost)), ResultLine(proceeds - (cost - accumulated)));
  }

  /**
   A purchase goes through if and only if it has no positive price, or its day lies in an open year
   and both its accounts take postings: its document key is always free.
   */
  lemma CreateExactly(c: Company, terms: Terms, m: PayMethod, purchased: Option<int>, inService: Option<int>,
      today: int)
    requires CompanyOK(c) && KeysOK(c.ledger.entries, c.assets)
    ensures Create(c, terms, m, purchased, inService, today).Ok? <==>
      terms.cost <= 0
      || (&& Invariant.YearOpenOn(c.ledger, purchased.GetOr(today))
          && Usable(c.ledger, FIXED_ASSET) && Usable(c.ledger, AccountForMethod(m)))
  {
    hide PostAuto, Taken, KeysOK, Invariant.Inv, RunsNumbered, Agrees, AssetsOK, AllUsable, AllOneSided, BalancedLines,
      Usable, Invariant.YearOpenOn, AcquisitionLines;
    if terms.cost > 0 {
      KeyIsFree(c.ledger.entries, c.assets, AssetAcquisition(|c.assets|));
      AcquisitionNeeds(c.ledger, terms.cost, m);
      RegisterPostsExactly(c, AcquisitionRequest(|c.assets|, terms.cost, m, purchased), today);
    }
  }

  /**
   A disposal goes through if and only if the asset is still there, neither its price nor the proceeds
   are negative, today lies in an open year and the accounts that get an amount take postings (an
   asset with no amounts at all posts nothing).
   */
  lemma DisposeExactly(c: Company, id: nat, proceeds: int, today: int)
    requires CompanyOK(c) && KeysOK(c.ledger.entries, c.assets)
    ensures Dispose(c, id, proceeds, today).Ok? <==>
      && id < |c.assets| && c.assets[id].Live()
      && (var b, s := c.assets[id].book, c.ledger;
          && b.terms.cost >= 0 && proceeds >= 0
          && (b.terms.cost + b.accumulated + proceeds > 0 ==> Invariant.YearOpenOn(s, today))
          && (b.accumulated > 0 ==> Usable(s, ACCUMULATED)) && (proceeds > 0 ==> Usable(s, CASH))
          && (b.terms.cost > 0 ==> Usable(s, FIXED_ASSET))
          && (proceeds != b.BookValue() ==> Usable(s, DISPOSAL_RESULT)))
  {
    hide PostAuto, Taken, KeysOK, Invariant.Inv, RunsNumbered, Agrees, AllUsable, AllOneSided, BalancedLines,
      Usable, Invariant.YearOpenOn, DisposalLines;
    if id < |c.assets| && c.assets[id].Live() {
      var b := c.assets[id].book;
      assert AssetOK(c.assets[id]);
      KeyIsFree(c.ledger.entries, c.assets, AssetDisposal(id));
      DisposalBalances(b.terms.cost, b.accumulated, proceeds);
      DisposalUses(c.ledger, b.terms.cost, b.accumulated, proceeds);
      DisposalIsEmpty(b.terms.cost, b.accumulated, proceeds);
      RegisterPostsExactly(c, DisposalRequest(id, b, proceeds), today);
      NothingNeeded(c.ledger);
    }
  }

  // ---------- depreciation runs ----------

  /** A live entry of the period bears this number. */
  predicate NumberInUse(entries: seq<Entry>, period: int, part: nat) {
    exists e :: e in entries && e.source == External(AssetDepreciation(period, part)) && !e.status.REVERSED?
  }

  /** The number the next entry of the period asks for: how many live ones there are. */
  function NextPart(entries: seq<Entry>, period: int): nat { Part(PriorRuns(entries, period)) }

  /** The number of the newest entry, while none was reversed. */
  function LastPart(entries: seq<Entry>, period: int): nat {
    if PriorRuns(entries, period) == 0 then 0 else Part(PriorRuns(entries, period) - 1)
  }

  /**
   A depreciation run goes through if and only if nothing is due, or no ledger is kept, or the period
   lies in an open year, 5205 and 1202 take postings, and no live entry of the period bears the number
   that counting the live ones gives.
   */
  lemma RunDepreciationExactly(c: Company, period: int, today: int)
    ensures RunDepreciation(c, period, today).Ok? <==>
      || TotalDue(c.assets, period) == 0
      || !c.ledgerEnabled
      || (&& Invariant.YearOpenOn(c.ledger, period)
          && Usable(c.ledger, DEPRECIATION_EXPENSE) && Usable(c.ledger, ACCUMULATED)
          && !NumberInUse(c.ledger.entries, period, NextPart(c.ledger.entries, period)))
  {
    hide AllUsable, AllOneSided, BalancedLines, Usable, Invariant.YearOpenOn, DepreciationLines, Part, PriorRuns;
    ChargeAllMovesTotal(c.assets, period);
    if TotalDue(c.assets, period) > 0 && c.ledgerEnabled {
      DepreciationNeeds(c.ledger, TotalDue(c.assets, period));
      var p := RunRequest(c, period);
      assert NumberInUse(c.ledger.entries, period, p.source.doc.part) <==> Taken(c.ledger.entries, p.source);
      if !Taken(c.ledger.entries, p.source) {
        hide PostAuto, Taken;
        RegisterPostsExactly(c, p, today);
      } else {
        PostInExactly(c.ledger, p, today);
      }
    }
  }
}
