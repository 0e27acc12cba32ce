/**
 The ledger as the services keep it: rows that are updated in place, one transaction per method.
 Every method is proved against the transition on values, and keeps the invariant.
 */
module LedgerService {
  import opened Common
  import opened Journal
  import Posting
  import FiscalYears
  import Invariant = LedgerInvariant
  import YearEnd
  import LedgerRuns

  type State = Posting.State
  type Error = Posting.Error

  /** `after` is what a transaction with outcome `r` leaves of `before`. */
  ghost predicate Commits(before: State, after: State, r: Result<State, Error>) {
    match r
    case Ok(t) => after == t
    case Err(_) => after == before
  }

  lemma {:induction false} EarlierFaultWins(lines: seq<Line>, i: nat)
    requires i <= |lines| && Posting.FirstFault(lines[..i]).Some?
    ensures Posting.FirstFault(lines) == Posting.FirstFault(lines[..i])
  {
    if i == |lines| {
      assert lines[..i] == lines;
    } else {
      assert lines[..|lines| - 1][..i] == lines[..i];
      EarlierFaultWins(lines[..|lines| - 1], i);
    }
  }

  lemma NothingWritten(accounts: map<string, Account>)
    ensures Posting.FirstFault([]).None? && Posting.ApplyAll(accounts, []) == accounts
  {
  }

  lemma OneMoreLine(accounts: map<string, Account>, lines: seq<Line>, i: nat)
    requires i < |lines| && forall l :: l in lines ==> l.account in accounts
    ensures lines[i].account in Posting.ApplyAll(accounts, lines[..i])
    ensures Posting.ApplyAll(accounts, lines[..i + 1])
         == Posting.Apply(Posting.ApplyAll(accounts, lines[..i]), lines[i])
    ensures Posting.FirstFault(lines[..i]).None? ==> Posting.FirstFault(lines[..i + 1]) == Posting.LineFault(lines[i])
  {
    assert lines[..i + 1][..i] == lines[..i];
  }

  class Ledger {
    var codes: seq<string>
    var accounts: map<string, Account>
    var years: seq<Year>
    var entries: seq<Entry>

    function View(): State
      reads this
    {
      Posting.State(codes, accounts, years, entries)
    }

    ghost predicate Sound()
      reads this
    {
      Invariant.Inv(View())
    }

    /** A company starts from a chart that lists retained earnings under equity, as the seed does. */
    constructor (chart: seq<(string, Kind, bool)>)
      requires forall i, j :: 0 <= i < j < |chart| ==> chart[i].0 != chart[j].0
      requires exists i :: 0 <= i < |chart| && chart[i].0 == FiscalYears.RETAINED && chart[i].1.EQUITY?
      ensures LedgerRuns.Initial(View()) && Sound()
      ensures codes == seq(|chart|, i requires 0 <= i < |chart| => chart[i].0)
      ensures forall i :: 0 <= i < |chart| ==>
        chart[i].0 in accounts && accounts[chart[i].0] == Account(chart[i].1, chart[i].2, 0)
    {
      var names: seq<string>, rows: map<string, Account> := [], map[];
      for i := 0 to |chart|
        invariant names == seq(i, j requires 0 <= j < i => chart[j].0)
        invariant forall c :: c in names <==> c in rows
        invariant forall j :: 0 <= j < i ==>
          chart[j].0 in rows && rows[chart[j].0] == Account(chart[j].1, chart[j].2, 0)
        invariant forall c :: c in rows ==> rows[c].balance == 0
      {
        names := names + [chart[i].0];
        rows := rows[chart[i].0 := Account(chart[i].1, chart[i].2, 0)];
      }
      codes, accounts, years, entries := names, rows, [], [];
      new;
      forall i, j | 0 <= i < j < |codes| ensures codes[i] != codes[j] {
        assert chart[i].0 != chart[j].0;
      }
    }

    method CreateAccount(code: string, kind: Kind, balance: int) returns (r: Result<State, Error>)
      modifies this
      ensures r == FiscalYears.CreateAccount(old(View()), code, kind, balance) && Commits(old(View()), View(), r)
      ensures old(Sound()) ==> Sound()
    {
      hide Invariant.Inv;
      if code in accounts { return Err(Posting.DuplicateAccount); }
      if Invariant.Inv(View()) { Invariant.CreateAccountKeepsInv(View(), code, kind, balance); }
      codes := codes + [code];
      accounts := accounts[code := Account(kind, true, balance)];
      r := Ok(View());
    }

    method CreateFiscalYear(code: string, startsOn: int, endsOn: int) returns (r: Result<State, Error>)
      modifies this
      ensures r == FiscalYears.CreateFiscalYear(old(View()), code, startsOn, endsOn) && Commits(old(View()), View(), r)
      ensures old(Sound()) ==> Sound()
    {
      hide Invariant.Inv;
      var year := Year(code, startsOn, endsOn, false);
      if endsOn <= startsOn { return Err(Posting.BadRange); }
      if exists x :: x in years && x.code == code { return Err(Posting.DuplicateYear); }
      if exists x :: x in years && FiscalYears.Overlaps(x, year) { return Err(Posting.Overlap); }
      if Invariant.Inv(View()) { Invariant.CreateFiscalYearKeepsInv(View(), code, startsOn, endsOn); }
      years := years + [year];
      r := Ok(View());
    }

    /** The one place that writes to the journal. */
    method PostIn(p: Posting.Request, today: int) returns (r: Result<State, Error>)
      modifies this
      ensures r == Posting.PostIn(old(View()), p, today) && Commits(old(View()), View(), r)
      ensures old(Sound()) && p.source.External? ==> Sound()
    {
      hide Invariant.Inv, Posting.FirstFault, Posting.ApplyAll, SideTotal, Posting.YearOf, Posting.MaxNo;
      ghost var before := View();
      if p.lines == [] { return Err(Posting.NoLines); }
      var date := p.date.GetOr(today);
      var year := Posting.YearOf(years, date);
      if year.None? { return Err(Posting.NoFiscalYear); }
      if years[year.value].closed && !p.allowClosedYear { return Err(Posting.YearClosed); }
      if exists l :: l in p.lines && l.account !in accounts { return Err(Posting.AccountNotFound); }
      if exists l :: l in p.lines && !accounts[l.account].postable { return Err(Posting.NotPostable); }

      var debit, credit := Totals(p.lines);
      if debit != credit { return Err(Posting.Unbalanced); }
      if debit == 0 { return Err(Posting.ZeroTotal); }

      var entryNo := Posting.MaxNo(entries) + 1;
      if years[year.value].closed { return Err(Posting.YearClosed); }
      if Posting.Taken(entries, p.source) { return Err(Posting.DuplicateSource); }
      var written := WriteLines(p.lines);
      if written.Err? { return Err(written.error); }

      entries := entries + [Entry(entryNo, year.value, date, p.source, POSTED, p.lines)];
      r := Ok(View());
      if Invariant.Inv(before) && p.source.External? { Invariant.PostKeepsInv(before, p, today); }
    }

    /** The balance check's sums. */
    static method Totals(lines: seq<Line>) returns (debit: int, credit: int)
      ensures debit == SideTotal(lines, DebitSide) && credit == SideTotal(lines, CreditSide)
    {
      debit, credit := 0, 0;
      for i := 0 to |lines|
        invariant debit == SideTotal(lines[..i], DebitSide) && credit == SideTotal(lines[..i], CreditSide)
      {
        assert lines[..i + 1] == lines[..i] + [lines[i]];
        PostedAppend(lines[..i], lines[i], "", DebitSide);
        PostedAppend(lines[..i], lines[i], "", CreditSide);
        debit, credit := debit + lines[i].debit, credit + lines[i].credit;
      }
      assert lines[..|lines|] == lines;
    }

    /** Line by line: check it has one side, then move the balance of its account. */
    method WriteLines(lines: seq<Line>) returns (r: Result<(), Error>)
      requires forall l :: l in lines ==> l.account in accounts
      modifies this`accounts
      ensures r == match Posting.FirstFault(lines) case Some(e) => Err(e) case None => Ok(())
      ensures accounts == if r.Ok? then Posting.ApplyAll(old(accounts), lines) else old(accounts)
    {
      hide Posting.FirstFault, Posting.ApplyAll, Posted;
      var balances := accounts;
      NothingWritten(balances);
      for lineNo := 0 to |lines|
        invariant accounts == old(accounts)
        invariant Posting.FirstFault(lines[..lineNo]).None?
        invariant balances == Posting.ApplyAll(accounts, lines[..lineNo])
      {
        var line := lines[lineNo];
        OneMoreLine(accounts, lines, lineNo);
        if (line.debit == 0) == (line.credit == 0) {
          EarlierFaultWins(lines, lineNo + 1);
          return Err(Posting.NotOneSided);
        }
        if line.debit < 0 || line.credit < 0 {
          EarlierFaultWins(lines, lineNo + 1);
          return Err(Posting.NegativeAmount);
        }
        balances := Posting.Apply(balances, line);
      }
      assert lines[..|lines|] == lines;
      accounts := balances;
      r := Ok(());
    }

    method Reverse(i: nat, today: int) returns (r: Result<State, Error>)
      modifies this
      ensures r == Posting.Reverse(old(View()), i, today) && Commits(old(View()), View(), r)
      ensures old(Sound()) ==> Sound()
    {
      ghost var before := View();
      if i >= |entries| { return Err(Posting.NotFound); }
      var original := entries[i];
      if original.status.REVERSED? { return Err(Posting.AlreadyReversed); }
      var savedAccounts, savedEntries := accounts, entries;
      r := PostIn(Posting.ReversalRequest(View(), i), today);
      if r.Err? { return; }
      if original.year < |years| && years[original.year].closed {
        accounts, entries := savedAccounts, savedEntries;
        return Err(Posting.YearClosed);
      }
      entries := entries[i := original.(status := REVERSED)];
      r := Ok(View());
      if Invariant.Inv(before) { Invariant.ReverseKeepsInv(before, i, today); }
    }

    method ReverseBySource(source: Source, today: int) returns (r: Result<State, Error>)
      modifies this
      ensures r == Posting.ReverseBySource(old(View()), source, today) && Commits(old(View()), View(), r)
      ensures old(Sound()) ==> Sound()
    {
      var found := Posting.ActiveEntry(entries, source);
      if found.None? { return Ok(View()); }
      r := Reverse(found.value, today);
    }

    method CloseFiscalYear(y: nat, today: int) returns (r: Result<State, Error>)
      modifies this
      ensures r == FiscalYears.CloseFiscalYear(old(View()), y, today) && Commits(old(View()), View(), r)
      ensures old(Sound()) ==> Sound()
    {
      ghost var before := View();
      if y >= |years| { return Err(Posting.NotFound); }
      var year := years[y];
      if year.closed { return Err(Posting.AlreadyClosed); }
      if FiscalYears.HasDrafts(View(), y) { return Err(Posting.DraftsRemain); }

      var lines: seq<Line>, netIncome := [], 0;
      for i := 0 to |codes|
        invariant View() == before
        invariant lines == FiscalYears.ClosingLines(before, codes[..i], y)
        invariant netIncome == FiscalYears.NetIncome(before, codes[..i], y)
      {
        assert codes[..i + 1][..i] == codes[..i];
        var net := Net(entries, InYear(y), codes[i]);
        if FiscalYears.TemporaryCode(View(), codes[i]) && net != 0 {
          if net < 0 {
            lines := lines + [Line(codes[i], -net, 0)];
          } else {
            lines := lines + [Line(codes[i], 0, net)];
          }
          netIncome := netIncome - net;
        }
      }
      assert codes[..|codes|] == codes;

      if lines == [] {
        years := years[y := year.(closed := true)];
        r := Ok(View());
      } else {
        lines := lines + [FiscalYears.RetainedLine(netIncome)];
        r := PostIn(Posting.Request(ClosingOf(y), Some(year.endsOn), lines, false), today);
        if r.Err? { return; }
        years := years[y := year.(closed := true)];
        r := Ok(View());
      }
      if Invariant.Inv(before) { YearEnd.CloseKeepsInv(before, y, today); }
    }

    method OpenFiscalYear(y: nat, today: int) returns (r: Result<State, Error>)
      modifies this
      ensures r == FiscalYears.OpenFiscalYear(old(View()), y, today) && Commits(old(View()), View(), r)
      ensures old(Sound()) ==> Sound()
    {
      ghost var before := View();
      if y >= |years| { return Err(Posting.NotFound); }
      if years[y].closed { return Err(Posting.YearClosed); }
      var previous := FiscalYears.PreviousYear(years, years[y].startsOn);
      if previous.None? { return Err(Posting.NoPreviousYear); }
      if !years[previous.value].closed { return Err(Posting.PreviousYearOpen); }
      var lines := FiscalYears.OpeningLines(View(), codes, years[previous.value].endsOn);
      if lines == [] { return Ok(View()); }
      if FiscalYears.Drift(lines) != 0 { return Err(Posting.LedgerDrift); }
      r := PostIn(Posting.Request(OpeningOf(y), Some(years[y].startsOn), lines, false), today);
      if r.Ok? && Invariant.Inv(before) { YearEnd.OpenKeepsInv(before, y, today); }
    }
  }
}
