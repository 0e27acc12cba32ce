/**
 Whole runs of the asset register beside the ledger: the books of the register, accounts 1201 and
 1202, and the depreciation table always tell the same story.
 */
module AssetRuns {
  import opened Common
  import opened Journal
  import opened Posting
  import opened Depreciation
  import opened Assets
  import opened PostingRules
  import Invariant = LedgerInvariant
  import LedgerRuns
  import YearEnd
  import FiscalYears

  // ---------- what the entry builders post ----------

  lemma PostedPush(lines: seq<Line>, l: Line, c: string)
    requires l.debit == 0 || l.credit == 0
    ensures PostedNet(Push(lines, l), c) == PostedNet(lines, c) + (if l.account == c then l.debit - l.credit else 0)
  {
    PostedAppend(lines, l, c, DebitSide);
    PostedAppend(lines, l, c, CreditSide);
  }

  predicate OtherCode(c: string) { c != FIXED_ASSET && c != ACCUMULATED }

  lemma CodesDiffer()
    ensures FIXED_ASSET != ACCUMULATED
    ensures OtherCode(CASH) && OtherCode(BANK) && OtherCode(RECEIVABLE) && OtherCode(CHEQUES)
    ensures OtherCode(DISPOSAL_RESULT) && OtherCode(DEPRECIATION_EXPENSE)
  {
    assert FIXED_ASSET[3] != ACCUMULATED[3];
    assert CASH[1] != FIXED_ASSET[1] && BANK[1] != FIXED_ASSET[1] && RECEIVABLE[1] != FIXED_ASSET[1]
        && CHEQUES[1] != FIXED_ASSET[1];
    assert DISPOSAL_RESULT[0] != FIXED_ASSET[0] && DEPRECIATION_EXPENSE[0] != FIXED_ASSET[0];
    assert ACCUMULATED[0] == FIXED_ASSET[0] && ACCUMULATED[1] == FIXED_ASSET[1];
  }

  /** Net debit of 1201 less net credit of 1202. */
  function FixedAssetNetOf(lines: seq<Line>): int {
    PostedNet(lines, FIXED_ASSET) + PostedNet(lines, ACCUMULATED)
  }

  lemma FixedAssetPush(lines: seq<Line>, l: Line)
    requires l.debit == 0 || l.credit == 0
    ensures FixedAssetNetOf(Push(lines, l))
         == FixedAssetNetOf(lines)
              + (if l.account == FIXED_ASSET || l.account == ACCUMULATED then l.debit - l.credit else 0)
  {
    CodesDiffer();
    PostedPush(lines, l, FIXED_ASSET);
    PostedPush(lines, l, ACCUMULATED);
  }

  lemma AcquisitionPosts(cost: int, m: PayMethod)
    ensures FixedAssetNetOf(AcquisitionLines(cost, m)) == cost
  {
    CodesDiffer();
    FixedAssetPush([], Line(FIXED_ASSET, cost, 0));
    FixedAssetPush(Push([], Line(FIXED_ASSET, cost, 0)), Line(AccountForMethod(m), 0, cost));
  }

  lemma DepreciationPosts(amount: int)
    ensures FixedAssetNetOf(DepreciationLines(amount)) == -amount
  {
    CodesDiffer();
    FixedAssetPush([], Line(DEPRECIATION_EXPENSE, amount, 0));
    FixedAssetPush(Push([], Line(DEPRECIATION_EXPENSE, amount, 0)), Line(ACCUMULATED, 0, amount));
  }

  lemma DisposalPosts(cost: int, accumulated: int, proceeds: int)
    ensures FixedAssetNetOf(DisposalLines(cost, accumulated, proceeds)) == accumulated - cost
  {
    CodesDiffer();
    var one := Push([], Line(ACCUMULATED, accumulated, 0));
    var two := Push(one, Line(CASH, proceeds, 0));
    var three := Push(two, Line(FIXED_ASSET, 0, cost));
    FixedAssetPush([], Line(ACCUMULATED, accumulated, 0));
    FixedAssetPush(one, Line(CASH, proceeds, 0));
    FixedAssetPush(two, Line(FIXED_ASSET, 0, cost));
    FixedAssetPush(three, ResultLine(proceeds - (cost - accumulated)));
  }

  // ---------- sums over the journal and over the register ----------

  predicate AssetDocument(d: Document) {
    d.AssetAcquisition? || d.AssetDepreciation? || d.AssetDisposal?
  }

  predicate AssetSourced(e: Entry) { e.source.External? && AssetDocument(e.source.doc) }

  /** Net debit of 1201 less net credit of 1202, over the entries the register posted. */
  function FixedAssetNet(entries: seq<Entry>): int {
    if entries == [] then 0
    else
      var k := |entries| - 1;
      FixedAssetNet(entries[..k]) + (if AssetSourced(entries[k]) then FixedAssetNetOf(entries[k].lines) else 0)
  }

  /** Prices of live assets that were entered below zero, and so never posted. */
  function NegativeCosts(assets: seq<Asset>): int {
    if assets == [] then 0
    else
      var k := |assets| - 1;
      var cost := assets[k].book.terms.cost;
      NegativeCosts(assets[..k]) + (if assets[k].Live() && cost < 0 then cost else 0)
  }

  lemma FixedAssetNetAppend(entries: seq<Entry>, e: Entry)
    ensures FixedAssetNet(entries + [e]) == FixedAssetNet(entries)
        + (if AssetSourced(e) then FixedAssetNetOf(e.lines) else 0)
  {
    assert (entries + [e])[..|entries|] == entries;
  }

  lemma {:induction false} FixedAssetNetMarked(a: seq<Entry>, b: seq<Entry>)
    requires |a| == |b| && forall i :: 0 <= i < |a| ==> LedgerRuns.SameOrMarked(a[i], b[i])
    ensures FixedAssetNet(a) == FixedAssetNet(b)
  {
    if a != [] {
      assert LedgerRuns.SameOrMarked(a[|a| - 1], b[|b| - 1]);
      FixedAssetNetMarked(a[..|a| - 1], b[..|b| - 1]);
    }
  }

  lemma {:induction false} BookValueUpdate(assets: seq<Asset>, i: nat, a: Asset)
    requires i < |assets|
    ensures var t := assets[i := a];
      && TotalBookValue(t) == TotalBookValue(assets)
           - (if assets[i].Live() then assets[i].book.BookValue() else 0) + (if a.Live() then a.book.BookValue() else 0)
      && NegativeCosts(t) == NegativeCosts(assets)
           - (if assets[i].Live() && assets[i].book.terms.cost < 0 then assets[i].book.terms.cost else 0)
           + (if a.Live() && a.book.terms.cost < 0 then a.book.terms.cost else 0)
  {
    var t, k := assets[i := a], |assets| - 1;
    if i == k {
      assert t[..k] == assets[..k];
    } else {
      assert t[..k] == assets[..k][i := a];
      BookValueUpdate(assets[..k], i, a);
    }
  }

  lemma BookValueAppend(assets: seq<Asset>, a: Asset)
    ensures TotalBookValue(assets + [a]) == TotalBookValue(assets) + (if a.Live() then a.book.BookValue() else 0)
    ensures NegativeCosts(assets + [a])
         == NegativeCosts(assets) + (if a.Live() && a.book.terms.cost < 0 then a.book.terms.cost else 0)
  {
    assert (assets + [a])[..|assets|] == assets;
  }

  /** Charging moves book value into the run's total and nothing else. */
  lemma {:induction false} ChargeAllMovesTotal(assets: seq<Asset>, period: int)
    ensures TotalBookValue(ChargeAll(assets, period)) == TotalBookValue(assets) - TotalDue(assets, period)
    ensures NegativeCosts(ChargeAll(assets, period)) == NegativeCosts(assets)
    ensures TotalDue(assets, period) >= 0
  {
    if assets != [] {
      var k := |assets| - 1;
      ChargeAllMovesTotal(assets[..k], period);
      BookValueAppend(ChargeAll(assets[..k], period), ChargeFor(assets[k], period));
    }
  }

  // ---------- the invariant ----------

  function ChargesTotal(charges: seq<Charging>): int {
    if charges == [] then 0 else ChargesTotal(charges[..|charges| - 1]) + charges[|charges| - 1].amount
  }

  ghost predicate AssetOK(a: Asset) {
    && InBounds(a.book)
    && a.book.accumulated == ChargesTotal(a.charges)
    && (forall c :: c in a.charges ==> c.amount > 0)
    && (forall i, j :: 0 <= i < j < |a.charges| ==> a.charges[i].period != a.charges[j].period)
  }

  ghost predicate AssetsOK(assets: seq<Asset>) { forall a :: a in assets ==> AssetOK(a) }

  /** No depreciation entry of the period was reversed. */
  ghost predicate NoneReversed(entries: seq<Entry>, period: int) {
    forall e :: e in entries && IsRunFor(e, period) ==> !e.status.REVERSED?
  }

  /** The entries of one period are numbered 0, 2, 3, ... in order. */
  ghost predicate Numbered(entries: seq<Entry>, period: int) {
    entries == [] ||
    (var k := |entries| - 1;
     && Numbered(entries[..k], period)
     && (IsRunFor(entries[k], period) ==> entries[k].source.doc.part == Part(PriorRuns(entries[..k], period))))
  }

  ghost predicate RunsNumbered(entries: seq<Entry>) {
    forall p :: NoneReversed(entries, p) ==> Numbered(entries, p)
  }

  ghost predicate Agrees(c: Company) {
    FixedAssetNet(c.ledger.entries) == TotalBookValue(c.assets) - NegativeCosts(c.assets)
  }

  ghost predicate CompanyOK(c: Company) {
    c.ledgerEnabled && Invariant.Inv(c.ledger) && AssetsOK(c.assets) && RunsNumbered(c.ledger.entries) && Agrees(c)
  }

  lemma ChargeForKeepsOK(a: Asset, period: int)
    requires AssetOK(a)
    ensures AssetOK(ChargeFor(a, period))
  {
    ChargeKeepsBounds(a.book);
    var t := ChargeFor(a, period);
    if t != a {
      var c := Charging(period, MonthCents(a.book));
      assert t.charges[..|a.charges|] == a.charges;
      forall i, j | 0 <= i < j < |t.charges| ensures t.charges[i].period != t.charges[j].period {
        assert t.charges[i] in a.charges;
      }
      assert forall x :: x in t.charges ==> x in a.charges || x == c;
    }
  }

  lemma {:induction false} ChargeAllKeepsOK(assets: seq<Asset>, period: int)
    requires AssetsOK(assets)
    ensures AssetsOK(ChargeAll(assets, period)) && |ChargeAll(assets, period)| == |assets|
    ensures forall i :: 0 <= i < |assets| ==> ChargeAll(assets, period)[i] == ChargeFor(assets[i], period)
  {
    hide AssetOK, ChargeFor;
    if assets != [] {
      var k := |assets| - 1;
      assert assets[k] in assets;
      ChargeAllKeepsOK(assets[..k], period);
      ChargeForKeepsOK(assets[k], period);
      assert forall a :: a in ChargeAll(assets, period) ==>
        a in ChargeAll(assets[..k], period) || a == ChargeFor(assets[k], period);
    }
  }

  // ---------- numbering of depreciation entries ----------

  lemma {:induction false} NumberedMarked(a: seq<Entry>, b: seq<Entry>, period: int)
    requires |a| == |b| && forall i :: 0 <= i < |a| ==> LedgerRuns.SameOrMarked(a[i], b[i])
    requires NoneReversed(b, period) && Numbered(a, period)
    ensures Numbered(b, period) && PriorRuns(a, period) == PriorRuns(b, period)
  {
    if a != [] {
      var k := |a| - 1;
      assert LedgerRuns.SameOrMarked(a[k], b[k]) && b[k] in b;
      assert forall e :: e in b[..k] ==> e in b;
      NumberedMarked(a[..k], b[..k], period);
    }
  }

  lemma RunsNumberedMarked(a: seq<Entry>, b: seq<Entry>)
    requires |a| == |b| && forall i :: 0 <= i < |a| ==> LedgerRuns.SameOrMarked(a[i], b[i])
    requires RunsNumbered(a)
    ensures RunsNumbered(b)
  {
    forall p | NoneReversed(b, p) ensures Numbered(b, p) {
      forall e | e in a && IsRunFor(e, p) ensures !e.status.REVERSED? {
        var i :| 0 <= i < |a| && a[i] == e;
        assert b[i] in b && LedgerRuns.SameOrMarked(a[i], b[i]);
      }
      NumberedMarked(a, b, p);
    }
  }

  lemma RunsNumberedAppend(entries: seq<Entry>, e: Entry)
    requires RunsNumbered(entries) && !e.status.REVERSED?
    requires forall p :: IsRunFor(e, p) ==> e.source.doc.part == Part(PriorRuns(entries, p))
    ensures RunsNumbered(entries + [e])
  {
    var t := entries + [e];
    assert t[..|entries|] == entries;
    forall p | NoneReversed(t, p) ensures Numbered(t, p) {
      assert forall x :: x in entries ==> x in t;
    }
  }

  lemma {:induction false} NumbersUsed(entries: seq<Entry>, period: int, e: Entry)
    requires NoneReversed(entries, period) && Numbered(entries, period) && e in entries && IsRunFor(e, period)
    ensures exists n: nat :: n < PriorRuns(entries, period) && e.source.doc.part == Part(n)
  {
    var k := |entries| - 1;
    assert entries == entries[..k] + [entries[k]];
    assert forall x :: x in entries[..k] ==> x in entries;
    if e in entries[..k] {
      NumbersUsed(entries[..k], period, e);
    } else {
      assert PriorRuns(entries, period) == PriorRuns(entries[..k], period) + 1;
    }
  }

  // ---------- each operation ----------

  datatype CompanyOp =
    | Buy(terms: Terms, m: PayMethod, purchased: Option<int>, inService: Option<int>)
    | Depreciate(period: int)
    | Sell(id: nat, proceeds: int)
    | Rework(asset: nat, years: int, how: Method)
    | LedgerWork(op: LedgerRuns.Op)

  /** Asset documents are posted by the register alone. */
  predicate Allowed(op: CompanyOp) {
    op.LedgerWork? && op.op.Post? ==> !AssetDocument(op.op.doc)
  }

  function Perform(c: Company, op: CompanyOp, today: int): Result<Company, Error> {
    match op
    case Buy(terms, m, purchased, inService) => Create(c, terms, m, purchased, inService, today)
    case Depreciate(period) => RunDepreciation(c, period, today)
    case Sell(id, proceeds) => Dispose(c, id, proceeds, today)
    case Rework(id, years, how) => Revise(c, id, years, how)
    case LedgerWork(l) =>
      match LedgerRuns.Perform(c.ledger, l, today)
      case Err(e) => Err(e)
      case Ok(ledger) => Ok(c.(ledger := ledger))
  }

  lemma CreateKeepsOK(c: Company, terms: Terms, m: PayMethod, purchased: Option<int>, inService: Option<int>,
      today: int)
    requires CompanyOK(c) && Create(c, terms, m, purchased, inService, today).Ok?
    ensures CompanyOK(Create(c, terms, m, purchased, inService, today).value)
  {
    hide PostedNet, TotalBookValue, NegativeCosts, FixedAssetNet, Invariant.Inv, RunsNumbered, PostIn;
    var t := Create(c, terms, m, purchased, inService, today).value;
    var a := NewAsset(terms, purchased, inService, today);
    BookValueAppend(c.assets, a);
    assert forall x :: x in t.assets ==> x in c.assets || x == a;
    if terms.cost > 0 {
      AcquisitionPosts(terms.cost, m);
      RegisterPosts(c, AcquisitionRequest(|c.assets|, terms.cost, m, purchased), today);
    }
  }

  /** What any posting by the register does to the ledger's half of the invariant. */
  lemma RegisterPosts(c: Company, p: Request, today: int)
    requires CompanyOK(c) && PostAuto(c, p, today).Ok?
    requires p.source.External? && AssetDocument(p.source.doc)
    requires p.source.doc.AssetDepreciation? ==>
      p.source.doc.part == Part(PriorRuns(c.ledger.entries, p.source.doc.period))
    ensures var t := PostAuto(c, p, today).value;
      && Invariant.Inv(t) && RunsNumbered(t.entries)
      && FixedAssetNet(t.entries) == FixedAssetNet(c.ledger.entries) + FixedAssetNetOf(p.lines)
  {
    hide Invariant.Inv, RunsNumbered;
    if p.lines != [] {
      var t := PostIn(c.ledger, p, today).value;
      Invariant.PostKeepsInv(c.ledger, p, today);
      var e := PostAppends(c.ledger, p, today);
      RunsNumberedAppend(c.ledger.entries, e);
      FixedAssetNetAppend(c.ledger.entries, e);
    }
  }

  lemma RunKeepsOK(c: Company, period: int, today: int)
    requires CompanyOK(c) && RunDepreciation(c, period, today).Ok?
    ensures CompanyOK(RunDepreciation(c, period, today).value)
  {
    ChargeAllKeepsOK(c.assets, period);
    ChargeAllMovesTotal(c.assets, period);
    if TotalDue(c.assets, period) > 0 {
      DepreciationPosts(TotalDue(c.assets, period));
      RegisterPosts(c, RunRequest(c, period), today);
    }
  }

  /** With the ledger on, an asset entered at a negative price cannot be disposed of. */
  lemma NegativeCostStays(c: Company, id: nat, proceeds: int, today: int)
    requires c.ledgerEnabled && id < |c.assets| && c.assets[id].book.terms.cost < 0
    ensures Dispose(c, id, proceeds, today).Err?
  {
    var b := c.assets[id].book;
    var p := DisposalRequest(id, b, proceeds);
    PostInExactly(c.ledger, p, today);
    var two := Push(Push([], Line(ACCUMULATED, b.accumulated, 0)), Line(CASH, proceeds, 0));
    var bad := Line(FIXED_ASSET, 0, b.terms.cost);
    assert bad in Push(two, bad);
    assert bad in p.lines;
  }

  lemma DisposeKeepsOK(c: Company, id: nat, proceeds: int, today: int)
    requires CompanyOK(c) && Dispose(c, id, proceeds, today).Ok?
    ensures CompanyOK(Dispose(c, id, proceeds, today).value)
  {
    var a := c.assets[id];
    var gone := a.(book := a.book.(status := if proceeds > 0 then SOLD else DISPOSED));
    if a.book.terms.cost < 0 { NegativeCostStays(c, id, proceeds, today); }
    DisposalPosts(a.book.terms.cost, a.book.accumulated, proceeds);
    RegisterPosts(c, DisposalRequest(id, a.book, proceeds), today);
    BookValueUpdate(c.assets, id, gone);
    ReplaceKeepsOK(c.assets, id, gone);
  }

  lemma ReplaceKeepsOK(assets: seq<Asset>, id: nat, a: Asset)
    requires AssetsOK(assets) && id < |assets|
    requires a.charges == assets[id].charges && a.book.accumulated == assets[id].book.accumulated
    requires a.book.terms.cost == assets[id].book.terms.cost && a.book.terms.salvage == assets[id].book.terms.salvage
    ensures AssetsOK(assets[id := a])
  {
    assert AssetOK(assets[id]);
    assert forall x :: x in assets[id := a] ==> x in assets || x == a;
  }

  lemma ReviseKeepsOK(c: Company, id: nat, years: int, how: Method)
    requires CompanyOK(c) && Revise(c, id, years, how).Ok?
    ensures CompanyOK(Revise(c, id, years, how).value)
  {
    var t := Revise(c, id, years, how).value;
    BookValueUpdate(c.assets, id, t.assets[id]);
    ReplaceKeepsOK(c.assets, id, t.assets[id]);
  }

  /** At most one entry more, posted, and not by the register. */
  ghost predicate AddsOther(a: seq<Entry>, b: seq<Entry>) {
    && |b| <= |a| + 1
    && forall i :: |a| <= i < |b| ==> !AssetSourced(b[i]) && b[i].status == POSTED
  }

  lemma PostAddsOther(s: State, p: Request, today: int)
    requires PostIn(s, p, today).Ok? && !(p.source.External? && AssetDocument(p.source.doc))
    ensures AddsOther(s.entries, PostIn(s, p, today).value.entries)
  {
    var _ := PostAppends(s, p, today);
  }

  lemma UndoAddsOther(s: State, i: nat, today: int)
    requires Invariant.Inv(s) && Reverse(s, i, today).Ok?
    ensures AddsOther(s.entries, Reverse(s, i, today).value.entries)
  {
    hide Invariant.Inv;
    var _, _ := Invariant.ReverseAppends(s, i, today);
  }

  lemma CloseAddsOther(s: State, y: nat, today: int)
    requires Invariant.Inv(s) && FiscalYears.CloseFiscalYear(s, y, today).Ok?
    ensures AddsOther(s.entries, FiscalYears.CloseFiscalYear(s, y, today).value.entries)
  {
    YearEnd.CloseResult(s, y, today);
    LedgerRuns.CloseAdds(s, y, FiscalYears.CloseFiscalYear(s, y, today).value);
  }

  lemma OpenAddsOther(s: State, y: nat, today: int)
    requires Invariant.Inv(s) && FiscalYears.OpenFiscalYear(s, y, today).Ok?
    ensures AddsOther(s.entries, FiscalYears.OpenFiscalYear(s, y, today).value.entries)
  {
    LedgerRuns.OpenAdds(s, y, today);
  }

  lemma AddsNoAssetEntry(s: State, op: LedgerRuns.Op, today: int)
    requires Invariant.Inv(s) && LedgerRuns.Perform(s, op, today).Ok?
    requires op.Post? ==> !AssetDocument(op.doc)
    ensures AddsOther(s.entries, LedgerRuns.Perform(s, op, today).value.entries)
  {
    match op
    case NewAccount(_, _, _) =>
    case NewYear(_, _, _) =>
    case Post(doc, date, lines, allow) => PostAddsOther(s, Request(External(doc), date, lines, allow), today);
    case Undo(i) => UndoAddsOther(s, i, today);
    case UndoSource(source) =>
      if ActiveEntry(s.entries, source).Some? { UndoAddsOther(s, ActiveEntry(s.entries, source).value, today); }
    case CloseYear(y) => CloseAddsOther(s, y, today);
    case OpenYear(y) => OpenAddsOther(s, y, today);
  }

  /** Marking entries and adding at most one of another kind leaves the register's figures alone. */
  lemma OtherEntriesKeepFigures(a: seq<Entry>, b: seq<Entry>)
    requires RunsNumbered(a) && |a| <= |b| && AddsOther(a, b)
    requires forall i :: 0 <= i < |a| ==> LedgerRuns.SameOrMarked(a[i], b[i])
    ensures FixedAssetNet(b) == FixedAssetNet(a) && RunsNumbered(b)
  {
    hide RunsNumbered, FixedAssetNet, FixedAssetNetOf;
    var n := |a|;
    var kept := b[..n];
    FixedAssetNetMarked(a, kept);
    RunsNumberedMarked(a, kept);
    if |b| > n {
      assert b == kept + [b[n]];
      assert forall p :: !IsRunFor(b[n], p);
      FixedAssetNetAppend(kept, b[n]);
      RunsNumberedAppend(kept, b[n]);
    } else {
      assert b == kept;
    }
  }

  /** Ledger work changes asset entries at most by marking them, and adds none. */
  lemma LedgerWorkKeepsFigures(s: State, op: LedgerRuns.Op, today: int)
    requires Invariant.Inv(s) && LedgerRuns.Perform(s, op, today).Ok? && RunsNumbered(s.entries)
    requires op.Post? ==> !AssetDocument(op.doc)
    ensures var t := LedgerRuns.Perform(s, op, today).value;
      FixedAssetNet(t.entries) == FixedAssetNet(s.entries) && RunsNumbered(t.entries)
  {
    hide RunsNumbered, FixedAssetNet, Invariant.Inv, LedgerRuns.Perform;
    LedgerRuns.PerformGrows(s, op, today);
    AddsNoAssetEntry(s, op, today);
    OtherEntriesKeepFigures(s.entries, LedgerRuns.Perform(s, op, today).value.entries);
  }

  lemma PerformKeepsOK(c: Company, op: CompanyOp, today: int)
    requires CompanyOK(c) && Allowed(op) && Perform(c, op, today).Ok?
    ensures CompanyOK(Perform(c, op, today).value)
  {
    match op
    case Buy(terms, m, purchased, inService) => CreateKeepsOK(c, terms, m, purchased, inService, today);
    case Depreciate(period) => RunKeepsOK(c, period, today);
    case Sell(id, proceeds) => DisposeKeepsOK(c, id, proceeds, today);
    case Rework(id, years, how) => ReviseKeepsOK(c, id, years, how);
    case LedgerWork(l) =>
      LedgerWorkKeepsFigures(c.ledger, l, today);
      LedgerRuns.PerformKeepsInv(c.ledger, l, today);
  }

  // ---------- runs ----------

  function Step(c: Company, op: CompanyOp, today: int): Company {
    match Perform(c, op, today)
    case Ok(t) => t
    case Err(_) => c
  }

  function Run(c: Company, ops: seq<(CompanyOp, int)>): Company {
    if ops == [] then c
    else
      var k := |ops| - 1;
      Step(Run(c, ops[..k]), ops[k].0, ops[k].1)
  }

  /** A company with the ledger on, before its first asset. */
  ghost predicate Start(c: Company) {
    && c.ledgerEnabled && Invariant.Inv(c.ledger) && c.assets == []
    && forall e :: e in c.ledger.entries ==> !AssetSourced(e)
  }

  lemma {:induction false} NoAssetEntries(entries: seq<Entry>, p: int)
    requires forall e :: e in entries ==> !AssetSourced(e)
    ensures FixedAssetNet(entries) == 0 && Numbered(entries, p)
  {
    if entries != [] {
      var k := |entries| - 1;
      assert entries[k] in entries;
      NoAssetEntries(entries[..k], p);
    }
  }

  lemma {:induction false} RunKeepsCompanyOK(c: Company, ops: seq<(CompanyOp, int)>)
    requires Start(c) && forall x :: x in ops ==> Allowed(x.0)
    ensures CompanyOK(Run(c, ops))
  {
    if ops == [] {
      forall p ensures Numbered(c.ledger.entries, p) { NoAssetEntries(c.ledger.entries, p); }
      NoAssetEntries(c.ledger.entries, 0);
    } else {
      var k := |ops| - 1;
      assert ops[k] in ops && forall x :: x in ops[..k] ==> x in ops;
      RunKeepsCompanyOK(c, ops[..k]);
      if Perform(Run(c, ops[..k]), ops[k].0, ops[k].1).Ok? {
        PerformKeepsOK(Run(c, ops[..k]), ops[k].0, ops[k].1);
      }
    }
  }

  lemma {:induction false} NegativeCostsSign(assets: seq<Asset>)
    ensures NegativeCosts(assets) <= 0
    ensures NegativeCosts(assets) == 0 <==> forall a :: a in assets && a.Live() ==> a.book.terms.cost >= 0
  {
    if assets != [] {
      var k := |assets| - 1;
      assert assets == assets[..k] + [assets[k]];
      NegativeCostsSign(assets[..k]);
    }
  }

  /**
   After any run of purchases, depreciation runs, disposals, revisions and other ledger work, the
   register's total book value equals what its own entries left on 1201 and 1202 exactly when no
   live asset has a negative price; otherwise the two differ by those prices.
   */
  lemma RegisterAgreesWithLedger(c: Company, ops: seq<(CompanyOp, int)>)
    requires Start(c) && forall x :: x in ops ==> Allowed(x.0)
    ensures var t := Run(c, ops);
      && TotalBookValue(t.assets) == FixedAssetNet(t.ledger.entries) + NegativeCosts(t.assets)
      && (TotalBookValue(t.assets) == FixedAssetNet(t.ledger.entries)
          <==> forall a :: a in t.assets && a.Live() ==> a.book.terms.cost >= 0)
  {
    RunKeepsCompanyOK(c, ops);
    NegativeCostsSign(Run(c, ops).assets);
  }

  /**
   After any such run every asset's accumulated depreciation is the sum of its monthly rows, has
   at most one row a month, and lies between zero and the price less the salvage value.
   */
  lemma AccumulatedIsSumOfRows(c: Company, ops: seq<(CompanyOp, int)>, a: Asset)
    requires Start(c) && (forall x :: x in ops ==> Allowed(x.0)) && a in Run(c, ops).assets
    ensures a.book.accumulated == ChargesTotal(a.charges)
    ensures forall i, j :: 0 <= i < j < |a.charges| ==> a.charges[i].period != a.charges[j].period
    ensures 0 <= a.book.accumulated && (a.book.accumulated > 0 ==> a.book.accumulated <= a.book.Depreciable())
  {
    RunKeepsCompanyOK(c, ops);
    assert AssetOK(a);
  }

  // ---------- repeating a month ----------

  lemma ChargeForTwice(a: Asset, period: int)
    ensures Due(ChargeFor(a, period), period) == 0
  {
    if Due(a, period) != 0 {
      var c := Charging(period, MonthCents(a.book));
      assert c in ChargeFor(a, period).charges && c.period == period;
    }
  }

  lemma {:induction false} NothingDueAgain(assets: seq<Asset>, period: int)
    ensures var t := ChargeAll(assets, period); TotalDue(t, period) == 0 && ChargeAll(t, period) == t
  {
    if assets != [] {
      var k := |assets| - 1;
      NothingDueAgain(assets[..k], period);
      ChargeForTwice(assets[k], period);
      var t := ChargeAll(assets, period);
      assert t[..|t| - 1] == ChargeAll(assets[..k], period);
    }
  }

  /** Running the same month again changes nothing at all. */
  lemma RepeatedRunIsIdle(c: Company, period: int, today: int, later: int)
    requires RunDepreciation(c, period, today).Ok?
    ensures var t := RunDepreciation(c, period, today).value;
      RunDepreciation(t, period, later) == Ok(t)
  {
    NothingDueAgain(c.assets, period);
  }
}
