/**
 Trial balance, income statement and balance sheet, recomputed from the journal.
 */
module Reports {
  import opened Common
  import opened Journal
  import opened Posting
  import opened FiscalYears
  import opened LedgerInvariant
  import opened LedgerRuns
  import opened YearEnd

  datatype Row = Row(code: string, kind: Kind, debit: int, credit: int, balanceDebit: int, balanceCredit: int)

  datatype Totals = Totals(debit: int, credit: int, balanceDebit: int, balanceCredit: int)

  datatype Trial = Trial(rows: seq<Row>, totals: Totals, balanced: bool)

  function RowOf(s: State, f: Filter, c: string): Row
    requires c in s.accounts
  {
    var debit := Turnover(s.entries, f, c, DebitSide);
    var credit := Turnover(s.entries, f, c, CreditSide);
    var net := debit - credit;
    Row(c, s.accounts[c].kind, debit, credit, if net > 0 then net else 0, if net < 0 then -net else 0)
  }

  predicate Moved(s: State, f: Filter, c: string) {
    Turnover(s.entries, f, c, DebitSide) != 0 || Turnover(s.entries, f, c, CreditSide) != 0
  }

  /** One row per account that moved. */
  function Rows(s: State, codes: seq<string>, f: Filter): seq<Row> {
    if codes == [] then []
    else
      var k := |codes| - 1;
      var c := codes[k];
      Rows(s, codes[..k], f)
        + (if c in s.accounts && Moved(s, f, c) then [RowOf(s, f, c)] else [])
  }

  function TotalsOf(rows: seq<Row>): Totals {
    if rows == [] then Totals(0, 0, 0, 0)
    else
      var k := |rows| - 1;
      var sum := TotalsOf(rows[..k]);
      Totals(sum.debit + rows[k].debit, sum.credit + rows[k].credit,
             sum.balanceDebit + rows[k].balanceDebit, sum.balanceCredit + rows[k].balanceCredit)
  }

  function TrialBalance(s: State, from: Option<int>, to: Option<int>): Trial {
    var rows := Rows(s, s.codes, Dated(from, to));
    var totals := TotalsOf(rows);
    Trial(rows, totals, totals.debit == totals.credit)
  }

  function OfKind(rows: seq<Row>, kind: Kind): seq<Row> {
    if rows == [] then []
    else
      var k := |rows| - 1;
      OfKind(rows[..k], kind) + (if rows[k].kind == kind then [rows[k]] else [])
  }

  /** Debit less credit, added over rows. */
  function NetOf(rows: seq<Row>): int {
    if rows == [] then 0 else NetOf(rows[..|rows| - 1]) + rows[|rows| - 1].debit - rows[|rows| - 1].credit
  }

  datatype Income = Income(totalRevenue: int, totalExpense: int, netIncome: int)

  function IncomeStatement(s: State, from: Option<int>, to: Option<int>): Income {
    var rows := TrialBalance(s, from, to).rows;
    var revenue, expense := -NetOf(OfKind(rows, REVENUE)), NetOf(OfKind(rows, EXPENSE));
    Income(revenue, expense, revenue - expense)
  }

  datatype Sheet = Sheet(
    assets: seq<Row>, liabilities: seq<Row>, equity: seq<Row>,
    totalAssets: int, totalLiabilities: int, totalEquity: int, netIncome: int,
    balanced: bool, excluded: nat)

  function BalanceSheet(s: State, asOf: Option<int>): Sheet {
    var rows := TrialBalance(s, None, asOf).rows;
    var assets, liabilities, equity := OfKind(rows, ASSET), OfKind(rows, LIABILITY), OfKind(rows, EQUITY);
    var a, l, q := NetOf(assets), -NetOf(liabilities), -NetOf(equity);
    var income := IncomeStatement(s, None, asOf).netIncome;
    Sheet(assets, liabilities, equity, a, l, q, income, a == l + q + income,
          |OfKind(rows, REVENUE)| + |OfKind(rows, EXPENSE)|)
  }

  // ---------- trial balance ----------

  lemma TotalsAppend(rows: seq<Row>, r: Row)
    ensures TotalsOf(rows + [r]) ==
      var t := TotalsOf(rows);
      Totals(t.debit + r.debit, t.credit + r.credit, t.balanceDebit + r.balanceDebit, t.balanceCredit + r.balanceCredit)
  {
    assert (rows + [r])[..|rows|] == rows;
  }

  lemma RowsAppend(s: State, codes: seq<string>, f: Filter)
    requires codes != [] && codes[|codes| - 1] in s.accounts
    ensures var c, before := codes[|codes| - 1], Rows(s, codes[..|codes| - 1], f);
      Rows(s, codes, f) == if Moved(s, f, c) then before + [RowOf(s, f, c)] else before
  {
    var before := Rows(s, codes[..|codes| - 1], f);
    assert before + [] == before;
  }

  lemma NoRowsNoTotals(s: State, f: Filter)
    ensures TotalsOf(Rows(s, [], f)) == Totals(0, 0, 0, 0)
  {
  }

  lemma {:induction false} RowTotals(s: State, codes: seq<string>, f: Filter)
    requires forall c :: c in codes ==> c in s.accounts
    ensures var t := TotalsOf(Rows(s, codes, f));
      && t.debit == SumOver(codes, c => Turnover(s.entries, f, c, DebitSide))
      && t.credit == SumOver(codes, c => Turnover(s.entries, f, c, CreditSide))
      && t.balanceDebit - t.balanceCredit == t.debit - t.credit
  {
    hide Turnover, Rows, TotalsOf;
    if codes == [] {
      NoRowsNoTotals(s, f);
    } else {
      var k := |codes| - 1;
      assert codes[k] in codes;
      RowTotals(s, codes[..k], f);
      RowsAppend(s, codes, f);
      if Moved(s, f, codes[k]) { TotalsAppend(Rows(s, codes[..k], f), RowOf(s, f, codes[k])); }
    }
  }

  /** In every reachable ledger, for any range of dates, both pairs of columns have equal totals. */
  lemma TrialBalanceBalances(s: State, ops: seq<(Op, int)>, from: Option<int>, to: Option<int>)
    requires Inv(s)
    ensures var t := TrialBalance(Run(s, ops), from, to);
      t.balanced && t.totals.debit == t.totals.credit && t.totals.balanceDebit == t.totals.balanceCredit
  {
    RunIsSound(s, ops);
    var t := Run(s, ops);
    EntriesFitChart(t);
    RowTotals(t, t.codes, Dated(from, to));
    ChartTotalsJournal(t.codes, t.entries, Dated(from, to), DebitSide);
    ChartTotalsJournal(t.codes, t.entries, Dated(from, to), CreditSide);
    BalancedJournal(t.entries, Dated(from, to));
  }

  /** A code has a row exactly when the account moved, and then one row, with its own figures. */
  lemma {:induction false} RowsAreMovedAccounts(s: State, codes: seq<string>, f: Filter)
    requires Distinct(codes) && forall c :: c in codes ==> c in s.accounts
    ensures forall r :: r in Rows(s, codes, f) ==> r.code in codes && r.code in s.accounts && r == RowOf(s, f, r.code)
    ensures forall c :: c in codes && Moved(s, f, c) ==> RowOf(s, f, c) in Rows(s, codes, f)
    ensures forall i, j :: 0 <= i < j < |Rows(s, codes, f)| ==> Rows(s, codes, f)[i].code != Rows(s, codes, f)[j].code
  {
    if codes != [] {
      var k := |codes| - 1;
      assert codes == codes[..k] + [codes[k]];
      RowsAreMovedAccounts(s, codes[..k], f);
      assert forall r :: r in Rows(s, codes[..k], f) ==> r.code in codes[..k];
    }
  }

  // ---------- balance sheet ----------

  lemma {:induction false} KindsPartition(rows: seq<Row>)
    ensures NetOf(OfKind(rows, ASSET)) + NetOf(OfKind(rows, LIABILITY)) + NetOf(OfKind(rows, EQUITY))
      + NetOf(OfKind(rows, REVENUE)) + NetOf(OfKind(rows, EXPENSE)) == TotalsOf(rows).debit - TotalsOf(rows).credit
    ensures |OfKind(rows, ASSET)| + |OfKind(rows, LIABILITY)| + |OfKind(rows, EQUITY)|
      + |OfKind(rows, REVENUE)| + |OfKind(rows, EXPENSE)| == |rows|
  {
    if rows != [] {
      var k := |rows| - 1;
      KindsPartition(rows[..k]);
      OfKindStep(rows, ASSET);
      OfKindStep(rows, LIABILITY);
      OfKindStep(rows, EQUITY);
      OfKindStep(rows, REVENUE);
      OfKindStep(rows, EXPENSE);
    }
  }

  lemma OfKindStep(rows: seq<Row>, kind: Kind)
    requires rows != []
    ensures var k := |rows| - 1;
      && NetOf(OfKind(rows, kind)) == NetOf(OfKind(rows[..k], kind))
          + (if rows[k].kind == kind then rows[k].debit - rows[k].credit else 0)
      && |OfKind(rows, kind)| == |OfKind(rows[..k], kind)| + (if rows[k].kind == kind then 1 else 0)
  {
    var k := |rows| - 1;
    var before := OfKind(rows[..k], kind);
    assert before + [] == before;
    assert (before + [rows[k]])[..|before|] == before;
  }

  /**
   Assets = liabilities + equity + net income, in every reachable ledger and on any day, and each
   row of the trial balance stands in exactly one of the five groups.
   */
  lemma BalanceSheetBalances(s: State, ops: seq<(Op, int)>, asOf: Option<int>)
    requires Inv(s)
    ensures var sheet := BalanceSheet(Run(s, ops), asOf);
      && sheet.balanced
      && sheet.totalAssets == sheet.totalLiabilities + sheet.totalEquity + sheet.netIncome
      && |sheet.assets| + |sheet.liabilities| + |sheet.equity| + sheet.excluded
         == |TrialBalance(Run(s, ops), None, asOf).rows|
  {
    TrialBalanceBalances(s, ops, None, asOf);
    KindsPartition(TrialBalance(Run(s, ops), None, asOf).rows);
  }

  // ---------- which accounts stand where ----------

  /** The net of one account, if it is of this kind. */
  function KindNet(s: State, f: Filter, kind: Kind, c: string): int {
    if c in s.accounts && s.accounts[c].kind == kind then Net(s.entries, f, c) else 0
  }

  /** Net debit of all accounts of one kind, straight from the journal. */
  function NetOfKind(s: State, f: Filter, kind: Kind): int {
    SumOver(s.codes, c => KindNet(s, f, kind, c))
  }

  /** The row gives the account's own figures, and its net on one side. */
  ghost predicate ShowsAccount(r: Row, s: State, f: Filter) {
    && r.code in s.accounts && r.kind == s.accounts[r.code].kind
    && r.debit == Turnover(s.entries, f, r.code, DebitSide) && r.credit == Turnover(s.entries, f, r.code, CreditSide)
    && r.balanceDebit - r.balanceCredit == r.debit - r.credit
    && r.balanceDebit >= 0 && r.balanceCredit >= 0 && (r.balanceDebit == 0 || r.balanceCredit == 0)
  }

  ghost predicate DistinctRows(rows: seq<Row>) {
    forall i, j :: 0 <= i < j < |rows| ==> rows[i].code != rows[j].code
  }

  /** Exactly one row for each account of this kind that moved. */
  ghost predicate ListsKind(rows: seq<Row>, s: State, f: Filter, kind: Kind) {
    && (forall r :: r in rows ==> ShowsAccount(r, s, f) && r.kind == kind && Moved(s, f, r.code))
    && (forall c :: c in s.accounts && s.accounts[c].kind == kind && Moved(s, f, c) ==>
          exists r :: r in rows && r.code == c)
    && DistinctRows(rows)
  }

  lemma RowShowsAccount(s: State, f: Filter, c: string)
    requires c in s.accounts
    ensures ShowsAccount(RowOf(s, f, c), s, f)
  {
    hide Turnover;
  }

  lemma {:induction false} OnlyMovedAccounts(s: State, codes: seq<string>, f: Filter)
    ensures forall r :: r in Rows(s, codes, f) ==> Moved(s, f, r.code)
  {
    hide Turnover;
    if codes != [] { OnlyMovedAccounts(s, codes[..|codes| - 1], f); }
  }

  lemma {:induction false} OfKindMembers(rows: seq<Row>, kind: Kind)
    ensures forall r :: r in OfKind(rows, kind) <==> r in rows && r.kind == kind
  {
    if rows != [] {
      var k := |rows| - 1;
      assert rows == rows[..k] + [rows[k]];
      OfKindMembers(rows[..k], kind);
    }
  }

  lemma {:induction false} OfKindDistinct(rows: seq<Row>, kind: Kind)
    requires DistinctRows(rows)
    ensures DistinctRows(OfKind(rows, kind))
  {
    if rows != [] {
      var k := |rows| - 1;
      var before := OfKind(rows[..k], kind);
      OfKindDistinct(rows[..k], kind);
      OfKindMembers(rows[..k], kind);
      forall r | r in before ensures r.code != rows[k].code {
        var i :| 0 <= i < k && rows[..k][i] == r;
        assert rows[i] == r;
      }
      OneMoreRow(before, rows[k]);
      assert before + [] == before;
    }
  }

  lemma OneMoreRow(rows: seq<Row>, r: Row)
    requires DistinctRows(rows) && forall x :: x in rows ==> x.code != r.code
    ensures DistinctRows(rows + [r])
  {
    forall i, j | 0 <= i < j < |rows| + 1 ensures (rows + [r])[i].code != (rows + [r])[j].code {
      assert rows[i] in rows;
    }
  }

  lemma RowsListKind(s: State, f: Filter, kind: Kind)
    requires ChartOK(s)
    ensures ListsKind(OfKind(Rows(s, s.codes, f), kind), s, f, kind)
  {
    hide Turnover, Moved, OfKind, Rows;
    var rows := Rows(s, s.codes, f);
    RowsAreMovedAccounts(s, s.codes, f);
    OnlyMovedAccounts(s, s.codes, f);
    OfKindMembers(rows, kind);
    OfKindDistinct(rows, kind);
    forall r | r in OfKind(rows, kind) ensures ShowsAccount(r, s, f) && r.kind == kind && Moved(s, f, r.code) {
      RowShowsAccount(s, f, r.code);
    }
    forall c | c in s.accounts && s.accounts[c].kind == kind && Moved(s, f, c)
      ensures exists r :: r in OfKind(rows, kind) && r.code == c
    {
      var r := RowOf(s, f, c);
      assert r in rows && r in OfKind(rows, kind) && r.code == c;
    }
  }

  lemma NoRowsNoNet(s: State, f: Filter, kind: Kind)
    ensures NetOf(OfKind(Rows(s, [], f), kind)) == 0
  {
  }

  lemma {:induction false} RowsOfKindAdd(s: State, codes: seq<string>, f: Filter, kind: Kind)
    requires forall c :: c in codes ==> c in s.accounts
    ensures NetOf(OfKind(Rows(s, codes, f), kind)) == SumOver(codes, c => KindNet(s, f, kind, c))
  {
    hide Turnover, Rows, OfKind, NetOf;
    if codes == [] {
      NoRowsNoNet(s, f, kind);
    } else {
      var k := |codes| - 1;
      assert codes[k] in codes;
      RowsOfKindAdd(s, codes[..k], f, kind);
      RowsAppend(s, codes, f);
      if Moved(s, f, codes[k]) {
        var before, r := Rows(s, codes[..k], f), RowOf(s, f, codes[k]);
        assert (before + [r])[..|before|] == before;
        OfKindStep(before + [r], kind);
      }
    }
  }

  /**
   In every reachable ledger and on any day: total assets are the net debit of the asset accounts, total
   liabilities and total equity the net credit of theirs, straight from the journal, and each of the
   three lists has exactly one row for each account of its kind that moved.
   */
  lemma SheetShowsKinds(s: State, ops: seq<(Op, int)>, asOf: Option<int>)
    requires Inv(s)
    ensures var t, f := Run(s, ops), Dated(None, asOf); var sheet := BalanceSheet(t, asOf);
      && sheet.totalAssets == NetOfKind(t, f, ASSET)
      && sheet.totalLiabilities == -NetOfKind(t, f, LIABILITY)
      && sheet.totalEquity == -NetOfKind(t, f, EQUITY)
      && ListsKind(sheet.assets, t, f, ASSET) && ListsKind(sheet.liabilities, t, f, LIABILITY)
      && ListsKind(sheet.equity, t, f, EQUITY)
  {
    hide Rows, OfKind, NetOf, ListsKind, EntriesOK, ReversalsOK, ClosedEmpty;
    RunIsSound(s, ops);
    var t, f := Run(s, ops), Dated(None, asOf);
    RowsOfKindAdd(t, t.codes, f, ASSET);
    RowsOfKindAdd(t, t.codes, f, LIABILITY);
    RowsOfKindAdd(t, t.codes, f, EQUITY);
    RowsListKind(t, f, ASSET);
    RowsListKind(t, f, LIABILITY);
    RowsListKind(t, f, EQUITY);
  }

  /** Likewise the statement: revenue is the net credit of its accounts, expense the net debit of its own. */
  lemma StatementShowsKinds(s: State, ops: seq<(Op, int)>, from: Option<int>, to: Option<int>)
    requires Inv(s)
    ensures var t, f := Run(s, ops), Dated(from, to); var income := IncomeStatement(t, from, to);
      && income.totalRevenue == -NetOfKind(t, f, REVENUE) && income.totalExpense == NetOfKind(t, f, EXPENSE)
      && income.netIncome == income.totalRevenue - income.totalExpense
  {
    hide Rows, OfKind, NetOf, EntriesOK, ReversalsOK, ClosedEmpty;
    RunIsSound(s, ops);
    RowsOfKindAdd(Run(s, ops), Run(s, ops).codes, Dated(from, to), REVENUE);
    RowsOfKindAdd(Run(s, ops), Run(s, ops).codes, Dated(from, to), EXPENSE);
  }

  // ---------- the income statement and the closing ----------

  /** An entry belongs to the fiscal year its date falls in. */
  lemma {:induction false} YearIsItsDates(s: State, entries: seq<Entry>, y: nat, c: string, side: Side)
    requires YearsOK(s.years) && y < |s.years|
    requires forall e :: e in entries ==> e.year < |s.years| && s.years[e.year].Holds(e.date)
    ensures Turnover(entries, Dated(Some(s.years[y].startsOn), Some(s.years[y].endsOn)), c, side)
         == Turnover(entries, InYear(y), c, side)
  {
    if entries != [] {
      var k := |entries| - 1;
      var e := entries[k];
      assert e in entries;
      YearIsItsDates(s, entries[..k], y, c, side);
      if e.year != y && s.years[y].Holds(e.date) {
        assert Overlaps(s.years[e.year], s.years[y]) && Overlaps(s.years[y], s.years[e.year]);
        assert false;
      }
    }
  }

  /** What a row adds to net income. */
  function RowIncome(r: Row): int { if r.kind.Temporary() then r.credit - r.debit else 0 }

  function RowsIncome(rows: seq<Row>): int { -NetOf(OfKind(rows, REVENUE)) - NetOf(OfKind(rows, EXPENSE)) }

  lemma IncomeAppend(rows: seq<Row>, r: Row)
    ensures RowsIncome(rows + [r]) == RowsIncome(rows) + RowIncome(r)
  {
    var t := rows + [r];
    assert t[..|rows|] == rows;
    OfKindStep(t, REVENUE);
    OfKindStep(t, EXPENSE);
  }

  lemma NoRows(s: State, f: Filter)
    ensures RowsIncome(Rows(s, [], f)) == 0
  {
  }

  lemma {:induction false} IncomeOfRows(s: State, codes: seq<string>, f: Filter, y: nat)
    requires forall c :: c in codes ==> c in s.accounts
    requires forall c, side :: Turnover(s.entries, f, c, side) == Turnover(s.entries, InYear(y), c, side)
    ensures RowsIncome(Rows(s, codes, f)) == NetIncome(s, codes, y)
  {
    hide Turnover, Rows, RowsIncome;
    if codes == [] {
      NoRows(s, f);
    } else {
      var k := |codes| - 1;
      assert codes[k] in codes;
      IncomeOfRows(s, codes[..k], f, y);
      RowsAppend(s, codes, f);
      if Moved(s, f, codes[k]) { IncomeAppend(Rows(s, codes[..k], f), RowOf(s, f, codes[k])); }
    }
  }

  /** The income statement over a year's own dates shows the income its closing will move. */
  lemma StatementShowsYearIncome(s: State, y: nat)
    requires Inv(s) && y < |s.years|
    ensures IncomeStatement(s, Some(s.years[y].startsOn), Some(s.years[y].endsOn)).netIncome == NetIncome(s, s.codes, y)
  {
    var f := Dated(Some(s.years[y].startsOn), Some(s.years[y].endsOn));
    forall e | e in s.entries ensures e.year < |s.years| && s.years[e.year].Holds(e.date) { assert EntryOK(s, e); }
    forall c, side ensures Turnover(s.entries, f, c, side) == Turnover(s.entries, InYear(y), c, side) {
      YearIsItsDates(s, s.entries, y, c, side);
    }
    IncomeOfRows(s, s.codes, f, y);
  }

  lemma {:induction false} EmptyYearHasNoIncome(s: State, codes: seq<string>, y: nat)
    requires forall c :: TemporaryCode(s, c) ==> Net(s.entries, InYear(y), c) == 0
    ensures NetIncome(s, codes, y) == 0
  {
    if codes != [] { EmptyYearHasNoIncome(s, codes[..|codes| - 1], y); }
  }

  /** Once closed, a year's income statement shows nothing, for the rest of the run. */
  lemma ClosedYearShowsNoIncome(s: State, y: nat, ops: seq<(Op, int)>)
    requires Inv(s) && y < |s.years| && s.years[y].closed
    ensures IncomeStatement(Run(s, ops), Some(s.years[y].startsOn), Some(s.years[y].endsOn)).netIncome == 0
  {
    ClosedYearIsFinal(s, y, ops);
    RunIsSound(s, ops);
    StatementShowsYearIncome(Run(s, ops), y);
    EmptyYearHasNoIncome(Run(s, ops), Run(s, ops).codes, y);
  }
}
