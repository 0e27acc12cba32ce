/**
 Whole runs of the ledger: any sequence of operations, each committed or rolled back.
 */
module LedgerRuns {
  import opened Common
  import opened Journal
  import opened Posting
  import opened FiscalYears
  import opened LedgerInvariant
  import opened YearEnd

  datatype Op =
    | NewAccount(code: string, kind: Kind, balance: int)
    | NewYear(yearCode: string, startsOn: int, endsOn: int)
    | Post(doc: Document, date: Option<int>, lines: seq<Line>, allowClosedYear: bool)
    | Undo(entry: nat)
    | UndoSource(source: Source)
    | CloseYear(year: nat)
    | OpenYear(year: nat)

  function Perform(s: State, op: Op, today: int): Result<State, Error> {
    match op
    case NewAccount(code, kind, balance) => CreateAccount(s, code, kind, balance)
    case NewYear(code, startsOn, endsOn) => CreateFiscalYear(s, code, startsOn, endsOn)
    case Post(doc, date, lines, allow) => PostIn(s, Request(External(doc), date, lines, allow), today)
    case Undo(i) => Reverse(s, i, today)
    case UndoSource(source) => ReverseBySource(s, source, today)
    case CloseYear(y) => CloseFiscalYear(s, y, today)
    case OpenYear(y) => OpenFiscalYear(s, y, today)
  }

  /** A failed operation is rolled back. */
  function Step(s: State, op: Op, today: int): State {
    match Perform(s, op, today)
    case Ok(t) => t
    case Err(_) => s
  }

  function Run(s: State, ops: seq<(Op, int)>): State {
    if ops == [] then s
    else
      var k := |ops| - 1;
      Step(Run(s, ops[..k]), ops[k].0, ops[k].1)
  }

  // ---------- what one state keeps of an earlier one ----------

  /** The cached balance less what the journal says; the balance the account was created with. */
  function Opening(s: State, c: string): int
    requires c in s.accounts
  {
    s.accounts[c].balance - Movement(s.accounts[c].kind,
                                     Turnover(s.entries, Everything, c, DebitSide),
                                     Turnover(s.entries, Everything, c, CreditSide))
  }

  ghost predicate YearClosedIn(s: State, y: nat) { y < |s.years| && s.years[y].closed }

  ghost predicate SameOrMarked(a: Entry, b: Entry) {
    a == b || (a.status.POSTED? && b == a.(status := REVERSED))
  }

  /** The journal only grows; entries of closed years never change, and none is added to them. */
  ghost predicate JournalGrows(s: State, t: State) {
    && |s.entries| <= |t.entries|
    && (forall i :: 0 <= i < |s.entries| ==> SameOrMarked(s.entries[i], t.entries[i]))
    && (forall i :: 0 <= i < |s.entries| && YearClosedIn(s, s.entries[i].year) ==> t.entries[i] == s.entries[i])
    && (forall i :: |s.entries| <= i < |t.entries| ==> !YearClosedIn(s, t.entries[i].year))
  }

  /** Years keep their range and closed years stay closed. */
  ghost predicate YearsGrow(s: State, t: State) {
    && |s.years| <= |t.years|
    && forall i :: 0 <= i < |s.years| ==>
         t.years[i] == s.years[i] || (!s.years[i].closed && t.years[i] == s.years[i].(closed := true))
  }

  ghost predicate AccountsGrow(s: State, t: State) {
    forall c :: c in s.accounts ==>
      && c in t.accounts && t.accounts[c].kind == s.accounts[c].kind
      && t.accounts[c].postable == s.accounts[c].postable
      && Opening(t, c) == Opening(s, c)
  }

  ghost predicate Grows(s: State, t: State) {
    JournalGrows(s, t) && YearsGrow(s, t) && AccountsGrow(s, t)
  }

  lemma GrowsTransitive(s: State, t: State, u: State)
    requires Grows(s, t) && Grows(t, u)
    ensures Grows(s, u)
  {
    assert forall y :: YearClosedIn(s, y) ==> YearClosedIn(t, y);
    forall i | 0 <= i < |s.entries| ensures SameOrMarked(s.entries[i], u.entries[i]) {
      assert SameOrMarked(s.entries[i], t.entries[i]) && SameOrMarked(t.entries[i], u.entries[i]);
    }
    forall i | |s.entries| <= i < |u.entries| ensures !YearClosedIn(s, u.entries[i].year) {
      if i < |t.entries| { assert SameOrMarked(t.entries[i], u.entries[i]); }
    }
  }

  // ---------- each operation grows the state ----------

  lemma AppendKeepsOpening(s: State, e: Entry, t: State, c: string)
    requires Appends(s, e, t) && c in s.accounts
    ensures c in t.accounts && Opening(t, c) == Opening(s, c)
  {
    TurnoverAppend(s.entries, e, Everything, c, DebitSide);
    TurnoverAppend(s.entries, e, Everything, c, CreditSide);
  }

  lemma AppendGrows(s: State, e: Entry, t: State)
    requires Appends(s, e, t)
    ensures Grows(s, t)
  {
    forall c | c in s.accounts ensures c in t.accounts && Opening(t, c) == Opening(s, c) {
      AppendKeepsOpening(s, e, t, c);
    }
  }

  lemma UndoGrows(s: State, i: nat, e: Entry, p: State, t: State)
    requires Reverses(s, i, e, p, t)
    ensures Grows(s, t)
  {
    AppendGrows(s, e, p);
    forall c | c in s.accounts ensures c in t.accounts && Opening(t, c) == Opening(s, c) {
      TurnoverSameFigures(p.entries, t.entries, Everything, c, DebitSide);
      TurnoverSameFigures(p.entries, t.entries, Everything, c, CreditSide);
    }
  }

  lemma CloseGrows(s: State, y: nat, t: State)
    requires Closes(s, y, t)
    ensures Grows(s, t)
  {
    if ClosingLines(s, s.codes, y) != [] {
      var e :| ClosesWith(s, y, e, t);
      var p :| Appends(s, e, p) && t == p.(years := s.years[y := s.years[y].(closed := true)]);
      AppendGrows(s, e, p);
      forall c | c in s.accounts ensures c in t.accounts && Opening(t, c) == Opening(s, c) {
        assert Opening(p, c) == Opening(s, c);
      }
    }
  }

  /** A closing adds at most one entry, marked as such. */
  lemma CloseAdds(s: State, y: nat, t: State)
    requires Closes(s, y, t)
    ensures t.entries == s.entries
      || exists e :: t.entries == s.entries + [e] && e.source == ClosingOf(y) && e.status == POSTED
  {
    if ClosingLines(s, s.codes, y) != [] {
      var e :| ClosesWith(s, y, e, t);
      assert t.entries == s.entries + [e];
    }
  }

  /** An opening adds at most one entry, marked as such. */
  lemma OpenAdds(s: State, y: nat, today: int)
    requires Inv(s) && OpenFiscalYear(s, y, today).Ok?
    ensures var t := OpenFiscalYear(s, y, today).value;
      t.entries == s.entries
        || exists e :: t.entries == s.entries + [e] && e.source == OpeningOf(y) && e.status == POSTED
  {
    hide OpensWith, OpenFiscalYear, Carries, EntriesOK, ClosedEmpty, ReversalsOK;
    OpenResult(s, y, today);
    var t := OpenFiscalYear(s, y, today).value;
    if Carries(s, y) {
      var e :| OpensWith(s, y, e, t);
      OpeningEntry(s, y, e, t);
    }
  }

  lemma GrowsReflexive(s: State)
    ensures Grows(s, s)
  {
  }

  lemma PerformGrows(s: State, op: Op, today: int)
    requires Inv(s) && Perform(s, op, today).Ok?
    ensures Grows(s, Perform(s, op, today).value)
  {
    var t := Perform(s, op, today).value;
    match op
    case NewAccount(code, _, _) =>
    case NewYear(_, _, _) =>
    case Post(doc, date, lines, allow) =>
      var e := PostAppends(s, Request(External(doc), date, lines, allow), today);
      AppendGrows(s, e, t);
    case Undo(i) =>
      var e, p := ReverseAppends(s, i, today);
      UndoGrows(s, i, e, p, t);
    case UndoSource(source) =>
      if ActiveEntry(s.entries, source).Some? {
        var i := ActiveEntry(s.entries, source).value;
        var e, p := ReverseAppends(s, i, today);
        UndoGrows(s, i, e, p, t);
      }
    case CloseYear(y) =>
      CloseResult(s, y, today);
      CloseGrows(s, y, t);
    case OpenYear(y) =>
      OpenResult(s, y, today);
      if Carries(s, y) {
        var e :| OpensWith(s, y, e, t);
        AppendGrows(s, e, t);
      }
  }

  lemma PerformKeepsInv(s: State, op: Op, today: int)
    requires Inv(s) && Perform(s, op, today).Ok?
    ensures Inv(Perform(s, op, today).value)
  {
    match op
    case NewAccount(code, kind, balance) => CreateAccountKeepsInv(s, code, kind, balance);
    case NewYear(code, startsOn, endsOn) => CreateFiscalYearKeepsInv(s, code, startsOn, endsOn);
    case Post(doc, date, lines, allow) => PostKeepsInv(s, Request(External(doc), date, lines, allow), today);
    case Undo(i) => ReverseKeepsInv(s, i, today);
    case UndoSource(source) =>
      if ActiveEntry(s.entries, source).Some? {
        ReverseKeepsInv(s, ActiveEntry(s.entries, source).value, today);
      }
    case CloseYear(y) => CloseKeepsInv(s, y, today);
    case OpenYear(y) => OpenKeepsInv(s, y, today);
  }

  /** Every reachable ledger is sound, and only grows from any earlier state of its run. */
  lemma {:induction false} RunIsSound(s: State, ops: seq<(Op, int)>)
    requires Inv(s)
    ensures Inv(Run(s, ops)) && Grows(s, Run(s, ops))
  {
    if ops == [] {
      GrowsReflexive(s);
    } else {
      var k := |ops| - 1;
      var before := Run(s, ops[..k]);
      RunIsSound(s, ops[..k]);
      if Perform(before, ops[k].0, ops[k].1).Ok? {
        PerformKeepsInv(before, ops[k].0, ops[k].1);
        PerformGrows(before, ops[k].0, ops[k].1);
        GrowsTransitive(s, before, Run(s, ops));
      }
    }
  }

  // ---------- the theorems about runs ----------

  /** A company starts with a chart of empty accounts and no journal. */
  ghost predicate Initial(s: State) {
    ChartOK(s) && s.years == [] && s.entries == [] && forall c :: c in s.accounts ==> s.accounts[c].balance == 0
  }

  lemma InitialIsSound(s: State)
    requires Initial(s)
    ensures Inv(s)
  {
  }

  /**
   The cached balance of an account is what it was created with plus the journal's movement on it,
   signed by its nature, after any run.
   */
  lemma CachedBalanceFollowsJournal(s: State, ops: seq<(Op, int)>, c: string)
    requires Inv(s) && c in s.accounts
    ensures var t := Run(s, ops);
      && c in t.accounts
      && t.accounts[c].balance - s.accounts[c].balance
         == (if t.accounts[c].kind.DebitNature() then 1 else -1)
              * (Net(t.entries, Everything, c) - Net(s.entries, Everything, c))
  {
    RunIsSound(s, ops);
  }

  /** From the seed chart: the balance is exactly the signed sum of the account's journal lines. */
  lemma BalanceIsSumOfLines(s: State, ops: seq<(Op, int)>, c: string)
    requires Initial(s) && c in s.accounts
    ensures var t := Run(s, ops);
      c in t.accounts && t.accounts[c].balance
        == Movement(t.accounts[c].kind, Turnover(t.entries, Everything, c, DebitSide),
            Turnover(t.entries, Everything, c, CreditSide))
  {
    InitialIsSound(s);
    RunIsSound(s, ops);
    assert Opening(Run(s, ops), c) == Opening(s, c);
  }

  /** An account created during a run may start with any balance; only that much stays unexplained. */
  lemma NewAccountKeepsItsOpening(s: State, code: string, kind: Kind, balance: int, ops: seq<(Op, int)>)
    requires Inv(s) && code !in s.accounts
    ensures var t := Run(CreateAccount(s, code, kind, balance).value, ops);
      code in t.accounts && Opening(t, code) == balance
  {
    var a := CreateAccount(s, code, kind, balance).value;
    CreateAccountKeepsInv(s, code, kind, balance);
    forall e, l | e in s.entries && l in e.lines ensures l.account != code {
      assert EntryOK(s, e);
    }
    NetZero(s.entries, Everything, code, DebitSide);
    NetZero(s.entries, Everything, code, CreditSide);
    RunIsSound(a, ops);
  }

  /** Entry numbers are distinct and rise with time. */
  lemma EntryNumbersRise(s: State, ops: seq<(Op, int)>, i: nat, j: nat)
    requires Inv(s) && i < j < |Run(s, ops).entries|
    ensures Run(s, ops).entries[i].no < Run(s, ops).entries[j].no
  {
    RunIsSound(s, ops);
  }

  function EntriesOf(entries: seq<Entry>, y: nat): seq<Entry> {
    if entries == [] then []
    else
      var k := |entries| - 1;
      EntriesOf(entries[..k], y) + (if entries[k].year == y then [entries[k]] else [])
  }

  lemma {:induction false} SameYearEntries(a: seq<Entry>, b: seq<Entry>, y: nat)
    requires |a| <= |b|
    requires forall i :: 0 <= i < |a| ==> b[i].year == a[i].year && (a[i].year == y ==> b[i] == a[i])
    requires forall i :: |a| <= i < |b| ==> b[i].year != y
    ensures EntriesOf(a, y) == EntriesOf(b, y)
    decreases |b|
  {
    if |a| < |b| {
      SameYearEntries(a, b[..|b| - 1], y);
    } else if b != [] {
      SameYearEntries(a[..|a| - 1], b[..|b| - 1], y);
    }
  }

  /**
   A closed year is final: whatever runs afterwards, it stays closed, its entries are exactly the
   ones it was closed with (status included), and its revenue and expense accounts stay empty.
   */
  lemma ClosedYearIsFinal(s: State, y: nat, ops: seq<(Op, int)>)
    requires Inv(s) && y < |s.years| && s.years[y].closed
    ensures var t := Run(s, ops);
      && y < |t.years| && t.years[y] == s.years[y]
      && EntriesOf(t.entries, y) == EntriesOf(s.entries, y)
      && forall c :: TemporaryCode(t, c) ==> Net(t.entries, InYear(y), c) == 0
  {
    var t := Run(s, ops);
    RunIsSound(s, ops);
    assert YearClosedIn(s, y);
    forall i | 0 <= i < |s.entries|
      ensures t.entries[i].year == s.entries[i].year && (s.entries[i].year == y ==> t.entries[i] == s.entries[i])
    {
      assert SameOrMarked(s.entries[i], t.entries[i]);
    }
    SameYearEntries(s.entries, t.entries, y);
  }

  // ---------- reversals ----------

  /** What an entry adds to an account's figure in a report. */
  function Contribution(e: Entry, f: Filter, c: string): int {
    if f.Keeps(e) then PostedNet(e.lines, c) else 0
  }

  /**
   After a reversal, the pair contributes nothing to any account in any report that holds both
   dates, and the cached balance gives back exactly what the original had moved.
   */
  lemma ReversalCancels(s: State, i: nat, today: int, f: Filter, c: string)
    requires Inv(s) && Reverse(s, i, today).Ok?
    ensures i < |s.entries| && |Reverse(s, i, today).value.entries| == |s.entries| + 1
    ensures var t := Reverse(s, i, today).value; var original, reversal := t.entries[i], t.entries[|s.entries|];
      && original == s.entries[i].(status := REVERSED) && reversal.date == today
      && Net(t.entries, f, c) == Net(s.entries, f, c) + Contribution(reversal, f, c)
      && (f.Keeps(original) && f.Keeps(reversal) ==> Contribution(original, f, c) + Contribution(reversal, f, c) == 0)
    ensures c in s.accounts ==>
      var t := Reverse(s, i, today).value;
      c in t.accounts && t.accounts[c].balance == s.accounts[c].balance
        - Movement(s.accounts[c].kind, Posted(s.entries[i].lines, c, DebitSide),
            Posted(s.entries[i].lines, c, CreditSide))
  {
    hide Turnover, Posted, MaxNo, SideTotal, Inv;
    var e, p := ReverseAppends(s, i, today);
    var t := Reverse(s, i, today).value;
    SwappedNegates(s.entries[i].lines, c);
    NetAppend(s.entries, e, f, c);
    NetSameFigures(p.entries, t.entries, f, c);
  }

  lemma UndoRestores(s: State, e: Entry, a: State, e': Entry, p: State, t: State)
    requires Appends(s, e, a) && Reverses(a, |s.entries|, e', p, t)
    ensures t.accounts == s.accounts
  {
    hide Posted, MaxNo, SideTotal;
    assert a.entries[|s.entries|] == e;
    forall c | c in s.accounts ensures t.accounts[c] == s.accounts[c] {
      SwappedNegates(e.lines, c);
    }
  }

  /** Posting and then reversing leaves every account row as it was. */
  lemma PostThenReverse(s: State, doc: Document, date: Option<int>, lines: seq<Line>, today: int, later: int)
    requires Inv(s) && Perform(s, Post(doc, date, lines, false), today).Ok?
    requires Reverse(Perform(s, Post(doc, date, lines, false), today).value, |s.entries|, later).Ok?
    ensures Reverse(Perform(s, Post(doc, date, lines, false), today).value, |s.entries|, later).value.accounts
        == s.accounts
  {
    var a := Perform(s, Post(doc, date, lines, false), today).value;
    PerformKeepsInv(s, Post(doc, date, lines, false), today);
    var e := PostAppends(s, Request(External(doc), date, lines, false), today);
    var e', p := ReverseAppends(a, |s.entries|, later);
    UndoRestores(s, e, a, e', p, Reverse(a, |s.entries|, later).value);
  }

  /** Whatever happens after a reversal, the entry cannot be reversed again. */
  lemma NeverReversedTwice(s: State, i: nat, today: int, ops: seq<(Op, int)>, later: int)
    requires Inv(s) && Reverse(s, i, today).Ok?
    ensures Reverse(Run(Reverse(s, i, today).value, ops), i, later) == Err(AlreadyReversed)
  {
    hide Turnover, Posted, Inv;
    var e, p := ReverseAppends(s, i, today);
    var t := Reverse(s, i, today).value;
    ReverseKeepsInv(s, i, today);
    RunIsSound(t, ops);
    assert SameOrMarked(t.entries[i], Run(t, ops).entries[i]);
  }

  /** A chain of entries, each undoing the one before it. */
  ghost predicate Chain(entries: seq<Entry>, ids: seq<nat>) {
    && (forall k :: 0 <= k < |ids| ==> ids[k] < |entries|)
    && (forall k :: 0 <= k < |ids| - 1 ==> Undoes(entries, ids[k], ids[k + 1]))
  }

  function ChainNet(entries: seq<Entry>, ids: seq<nat>, c: string): int
    requires forall k :: 0 <= k < |ids| ==> ids[k] < |entries|
  {
    if ids == [] then 0
    else ChainNet(entries, ids[..|ids| - 1], c) + PostedNet(entries[ids[|ids| - 1]].lines, c)
  }

  /** Along reversals of reversals the net effect depends only on how many there are. */
  lemma {:induction false} ChainParity(entries: seq<Entry>, ids: seq<nat>, c: string)
    requires Chain(entries, ids) && ids != []
    ensures ChainNet(entries, ids, c) == if |ids| % 2 == 1 then PostedNet(entries[ids[0]].lines, c) else 0
    ensures PostedNet(entries[ids[|ids| - 1]].lines, c)
         == (if |ids| % 2 == 1 then 1 else -1) * PostedNet(entries[ids[0]].lines, c)
  {
    var k := |ids| - 1;
    if k == 0 {
      assert ids[..0] == [];
    } else {
      ChainParity(entries, ids[..k], c);
      assert Undoes(entries, ids[k - 1], ids[k]);
      SwappedNegates(entries[ids[k - 1]].lines, c);
    }
  }
}
