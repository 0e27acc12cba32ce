/**
 What closing and opening a fiscal year do to the books.
 */
module YearEnd {
  import opened Common
  import opened Journal
  import opened Posting
  import opened FiscalYears
  import opened LedgerInvariant

  // ---------- the closing lines ----------

  lemma {:induction false} ClosingLinesPosted(s: State, codes: seq<string>, y: nat, c: string)
    requires Distinct(codes)
    ensures PostedNet(ClosingLines(s, codes, y), c)
         == if c in codes && TemporaryCode(s, c) then -Net(s.entries, InYear(y), c) else 0
  {
    if codes != [] {
      hide Turnover, Posted, PostedNet, ClosingLine;
      var k := |codes| - 1;
      assert codes == codes[..k] + [codes[k]];
      ClosingLinesPosted(s, codes[..k], y, c);
      var before := ClosingLines(s, codes[..k], y);
      assert before + [] == before;
      ClosingLinePosts(before, codes[k], Net(s.entries, InYear(y), codes[k]), c);
    }
  }

  /** A closing line posts an account's net with its sign turned. */
  lemma ClosingLinePosts(before: seq<Line>, code: string, net: int, c: string)
    ensures PostedNet(before + [ClosingLine(code, net)], c) == PostedNet(before, c) - (if code == c then net else 0)
  {
    hide Posted;
    PostedAppend(before, ClosingLine(code, net), c, DebitSide);
    PostedAppend(before, ClosingLine(code, net), c, CreditSide);
  }

  lemma {:induction false} ClosingLinesTotal(s: State, codes: seq<string>, y: nat)
    ensures SideTotal(ClosingLines(s, codes, y), DebitSide) - SideTotal(ClosingLines(s, codes, y), CreditSide)
         == NetIncome(s, codes, y)
  {
    if codes != [] {
      var k := |codes| - 1;
      ClosingLinesTotal(s, codes[..k], y);
      var net := Net(s.entries, InYear(y), codes[k]);
      var before := ClosingLines(s, codes[..k], y);
      assert before + [] == before;
      if TemporaryCode(s, codes[k]) && net != 0 {
        PostedAppend(before, ClosingLine(codes[k], net), "", DebitSide);
        PostedAppend(before, ClosingLine(codes[k], net), "", CreditSide);
      }
    }
  }

  /** Closing lines name temporary accounts that already carry entries, one side each. */
  lemma {:induction false} ClosingLinesShape(s: State, codes: seq<string>, y: nat)
    ensures forall l :: l in ClosingLines(s, codes, y) ==>
      l.account in codes && TemporaryCode(s, l.account) && Net(s.entries, InYear(y), l.account) != 0 && OneSided(l)
    ensures ClosingLines(s, codes, y) == [] <==>
      forall c :: c in codes && TemporaryCode(s, c) ==> Net(s.entries, InYear(y), c) == 0
  {
    if codes != [] {
      var k := |codes| - 1;
      assert codes == codes[..k] + [codes[k]];
      ClosingLinesShape(s, codes[..k], y);
    }
  }

  /** An account with a net has been posted to, so it is postable. */
  lemma {:induction false} UsedIsPostable(s: State, f: Filter, c: string)
    requires EntriesOK(s) && Net(s.entries, f, c) != 0
    ensures c in s.accounts && s.accounts[c].postable
  {
    if forall e, l :: e in s.entries && l in e.lines ==> l.account != c {
      NetZero(s.entries, f, c, DebitSide);
      NetZero(s.entries, f, c, CreditSide);
    } else {
      var e, l :| e in s.entries && l in e.lines && l.account == c;
      assert EntryOK(s, e);
    }
  }

  ghost predicate NoTemporaryBalance(s: State, y: nat) {
    forall c :: c in s.codes && TemporaryCode(s, c) ==> Net(s.entries, InYear(y), c) == 0
  }

  lemma ClosingKeyFree(s: State, y: nat)
    requires EntriesOK(s) && y < |s.years| && !s.years[y].closed
    ensures !Taken(s.entries, ClosingOf(y))
  {
    forall e | e in s.entries ensures e.source != ClosingOf(y) {
      assert EntryOK(s, e);
    }
  }

  lemma ClosingBalances(s: State, y: nat)
    requires y < |s.years|
    ensures BalancedLines(ClosingRequest(s, y).lines)
  {
    var income := NetIncome(s, s.codes, y);
    ClosingLinesTotal(s, s.codes, y);
    PostedAppend(ClosingLines(s, s.codes, y), RetainedLine(income), "", DebitSide);
    PostedAppend(ClosingLines(s, s.codes, y), RetainedLine(income), "", CreditSide);
  }

  /** Whatever the ledger holds, a draft of the year stands in the way of closing it, and no other draft does. */
  lemma DraftsBlockClosing(s: State, y: nat, today: int)
    requires y < |s.years| && !s.years[y].closed
    ensures CloseFiscalYear(s, y, today) == Err(DraftsRemain)
        <==> exists i :: 0 <= i < |s.entries| && s.entries[i].year == y && s.entries[i].status.DRAFT?
  {
    hide ClosingRequest, ClosingLines, SideTotal, YearOf;
    FaultsOfLines(ClosingRequest(s, y).lines);
    if i :| 0 <= i < |s.entries| && s.entries[i].year == y && s.entries[i].status.DRAFT? {
      assert s.entries[i] in s.entries;
    }
  }

  /**
   A year closes exactly when it is open and either has nothing to empty, or its income is not
   zero (a zero income would give the retained-earnings line no side).
   */
  lemma CloseExactly(s: State, y: nat, today: int)
    requires Inv(s)
    ensures CloseFiscalYear(s, y, today).Ok? <==>
      && y < |s.years| && !s.years[y].closed
      && (NoTemporaryBalance(s, y) || (NetIncome(s, s.codes, y) != 0 && s.accounts[RETAINED].postable))
  {
    hide PostIn, ClosingLines, NetIncome, Net, YearsOK, NumbersRise, ReversalsOK, ClosedEmpty;
    if y < |s.years| && !s.years[y].closed {
      NoDrafts(s, y);
      ClosingLinesShape(s, s.codes, y);
      if ClosingLines(s, s.codes, y) != [] { ClosingPosts(s, y, today); }
    }
  }

  /** The closing entry is posted exactly when its last line has a side and a postable account. */
  lemma ClosingPosts(s: State, y: nat, today: int)
    requires ChartOK(s) && YearsOK(s.years) && EntriesOK(s) && y < |s.years| && !s.years[y].closed
    ensures PostIn(s, ClosingRequest(s, y), today).Ok? <==>
      NetIncome(s, s.codes, y) != 0 && s.accounts[RETAINED].postable
  {
    hide PostIn, ClosingLines, NetIncome, Net, EntriesOK, Taken, SideTotal;
    var lines, last, p := ClosingLines(s, s.codes, y), RetainedLine(NetIncome(s, s.codes, y)), ClosingRequest(s, y);
    ClosingLinesShape(s, s.codes, y);
    YearOfUnique(s.years, s.years[y].endsOn, y);
    PostInExactly(s, p, today);
    ClosingKeyFree(s, y);
    ClosingBalances(s, y);
    forall l | l in lines ensures l.account in s.accounts && s.accounts[l.account].postable {
      UsedIsPostable(s, InYear(y), l.account);
    }
    assert forall l :: l in p.lines <==> l in lines || l == last;
    assert last in p.lines;
  }

  /** Nothing in the system creates drafts, so the draft guard never stops a closing. */
  lemma NoDrafts(s: State, y: nat)
    requires EntriesOK(s)
    ensures !HasDrafts(s, y)
  {
    forall e | e in s.entries ensures !e.status.DRAFT? { assert EntryOK(s, e); }
  }

  lemma {:induction false} FaultAtEnd(lines: seq<Line>, l: Line)
    requires forall x :: x in lines ==> OneSided(x)
    ensures FirstFault(lines + [l]) == LineFault(l)
  {
    assert (lines + [l])[..|lines|] == lines;
  }

  /** Activity that nets to no income: the closing is refused for its one-line side, and rolled back. */
  lemma BreakEvenYearIsRefused(s: State, y: nat, today: int)
    requires Inv(s) && y < |s.years| && !s.years[y].closed
    requires !NoTemporaryBalance(s, y) && NetIncome(s, s.codes, y) == 0 && s.accounts[RETAINED].postable
    ensures CloseFiscalYear(s, y, today) == Err(NotOneSided)
  {
    var lines, p := ClosingLines(s, s.codes, y), ClosingRequest(s, y);
    NoDrafts(s, y);
    ClosingLinesShape(s, s.codes, y);
    YearOfUnique(s.years, s.years[y].endsOn, y);
    ClosingKeyFree(s, y);
    ClosingBalances(s, y);
    TotalsNonNegative(lines);
    ClosingLinesTotal(s, s.codes, y);
    PostedAppend(lines, RetainedLine(0), "", DebitSide);
    forall l | l in p.lines ensures l.account in s.accounts && s.accounts[l.account].postable {
      if l in lines { UsedIsPostable(s, InYear(y), l.account); }
    }
    FaultAtEnd(lines, RetainedLine(0));
    LineFaultRefuses(s, p, today);
  }

  // ---------- the state after closing ----------

  /** `t` is `s` closed at year `y` by the entry `e`. */
  ghost predicate ClosesWith(s: State, y: nat, e: Entry, t: State) {
    && y < |s.years| && !s.years[y].closed
    && e.year == y && e.date == s.years[y].endsOn && e.source == ClosingOf(y) && e.lines == ClosingRequest(s, y).lines
    && (exists p :: Appends(s, e, p) && t == p.(years := s.years[y := s.years[y].(closed := true)]))
  }

  /** `t` is `s` with year `y` closed, by an entry if there was anything to empty. */
  ghost predicate Closes(s: State, y: nat, t: State) {
    && y < |s.years| && !s.years[y].closed
    && if ClosingLines(s, s.codes, y) == [] then t == MarkClosed(s, y) else exists e :: ClosesWith(s, y, e, t)
  }

  lemma CloseResult(s: State, y: nat, today: int)
    requires YearsOK(s.years) && CloseFiscalYear(s, y, today).Ok?
    ensures Closes(s, y, CloseFiscalYear(s, y, today).value)
  {
    if ClosingLines(s, s.codes, y) != [] {
      var e := PostAppends(s, ClosingRequest(s, y), today);
      YearOfUnique(s.years, s.years[y].endsOn, y);
      assert ClosesWith(s, y, e, CloseFiscalYear(s, y, today).value);
    }
  }

  /** The closing entry takes every temporary account to zero and only retained earnings up. */
  lemma ClosingEffect(s: State, y: nat, c: string)
    requires ChartOK(s) && y < |s.years|
    ensures PostedNet(ClosingRequest(s, y).lines, c) ==
      if TemporaryCode(s, c) then -Net(s.entries, InYear(y), c)
      else if c == RETAINED then -NetIncome(s, s.codes, y)
      else 0
  {
    ClosingLinesPosted(s, s.codes, y, c);
    PostedAppend(ClosingLines(s, s.codes, y), RetainedLine(NetIncome(s, s.codes, y)), c, DebitSide);
    PostedAppend(ClosingLines(s, s.codes, y), RetainedLine(NetIncome(s, s.codes, y)), c, CreditSide);
  }

  /** A report that holds the last day of the year. */
  predicate HoldsYearEnd(s: State, y: nat, f: Filter)
    requires y < |s.years|
  {
    match f
    case InYear(z) => z == y
    case Dated(from, to) =>
      (from.Some? ==> from.value <= s.years[y].endsOn) && (to.Some? ==> s.years[y].endsOn <= to.value)
  }

  lemma ClosesFigures(s: State, y: nat, t: State, f: Filter, c: string)
    requires ChartOK(s) && Closes(s, y, t)
    ensures Net(t.entries, f, c) == Net(s.entries, f, c) +
      if !HoldsYearEnd(s, y, f) then 0
      else if TemporaryCode(s, c) then -Net(s.entries, InYear(y), c)
      else if c == RETAINED then -NetIncome(s, s.codes, y)
      else 0
  {
    hide Turnover, Posted, NetIncome, ClosingLines, ClosesWith, PostedNet;
    ClosingEffect(s, y, c);
    ClosingLinesShape(s, s.codes, y);
    if ClosingLines(s, s.codes, y) == [] {
      NoLinesNoIncome(s, s.codes, y);
    } else {
      var e :| ClosesWith(s, y, e, t);
      ClosingEntry(s, y, e, t);
      NetAppend(s.entries, e, f, c);
    }
  }

  lemma NoLinesNoIncome(s: State, codes: seq<string>, y: nat)
    requires ClosingLines(s, codes, y) == []
    ensures NetIncome(s, codes, y) == 0
    ensures forall c :: c in codes && TemporaryCode(s, c) ==> Net(s.entries, InYear(y), c) == 0
  {
    hide NetIncome, ClosingLines;
    ClosingLinesTotal(s, codes, y);
    ClosingLinesShape(s, codes, y);
  }

  lemma ClosingEntry(s: State, y: nat, e: Entry, t: State)
    requires ClosesWith(s, y, e, t)
    ensures t.entries == s.entries + [e] && e.lines == ClosingRequest(s, y).lines
    ensures y < |s.years| && e.year == y && e.date == s.years[y].endsOn
    ensures e.status == POSTED && e.no == MaxNo(s.entries) + 1 && e.source == ClosingOf(y)
  {
    hide Turnover, Posted, ApplyAll, MaxNo, SideTotal, ClosingLines, NetIncome;
  }

  /**
   Closing moves exactly revenue less expense of the year into retained earnings: afterwards each
   revenue and expense account is empty in that year, retained earnings has grown (on the credit
   side) by the income, and every other account is as it was; other years do not move at all.
   */
  lemma CloseMovesIncome(s: State, y: nat, today: int, c: string)
    requires Inv(s) && CloseFiscalYear(s, y, today).Ok?
    ensures var t := CloseFiscalYear(s, y, today).value;
      && (TemporaryCode(s, c) ==> Net(t.entries, InYear(y), c) == 0)
      && (c == RETAINED ==> Net(t.entries, InYear(y), c) == Net(s.entries, InYear(y), c) - NetIncome(s, s.codes, y))
      && (!TemporaryCode(s, c) && c != RETAINED ==> Net(t.entries, InYear(y), c) == Net(s.entries, InYear(y), c))
      && (forall z: nat :: z != y ==> Net(t.entries, InYear(z), c) == Net(s.entries, InYear(z), c))
  {
    CloseResult(s, y, today);
    var t := CloseFiscalYear(s, y, today).value;
    ClosesFigures(s, y, t, InYear(y), c);
    forall z: nat | z != y ensures Net(t.entries, InYear(z), c) == Net(s.entries, InYear(z), c) {
      ClosesFigures(s, y, t, InYear(z), c);
    }
  }

  /**
   The closing stands on the last day of the year: a figure over dates that leave that day out is as it
   was, and one that holds it loses the year's net on a revenue or expense account, the income on
   retained earnings, and nothing anywhere else.
   */
  lemma CloseStandsOnLastDay(s: State, y: nat, today: int, c: string, from: Option<int>, to: Option<int>)
    requires Inv(s) && CloseFiscalYear(s, y, today).Ok?
    ensures y < |s.years|
    ensures var t, last := CloseFiscalYear(s, y, today).value, s.years[y].endsOn;
      Net(t.entries, Dated(from, to), c) == Net(s.entries, Dated(from, to), c) -
        if (from.Some? && last < from.value) || (to.Some? && to.value < last) then 0
        else if TemporaryCode(s, c) then Net(s.entries, InYear(y), c)
        else if c == RETAINED then NetIncome(s, s.codes, y)
        else 0
  {
    hide Turnover, NetIncome, CloseFiscalYear;
    CloseResult(s, y, today);
    ClosesFigures(s, y, CloseFiscalYear(s, y, today).value, Dated(from, to), c);
  }

  lemma CloseKeepsInv(s: State, y: nat, today: int)
    requires Inv(s) && CloseFiscalYear(s, y, today).Ok?
    ensures Inv(CloseFiscalYear(s, y, today).value)
  {
    CloseResult(s, y, today);
    ClosesKeepsInv(s, y, CloseFiscalYear(s, y, today).value);
  }

  lemma ClosesKeepsInv(s: State, y: nat, t: State)
    requires Inv(s) && Closes(s, y, t)
    ensures Inv(t)
  {
    hide Turnover, ClosingLines;
    ClosesKeepsChart(s, y, t);
    ClosesKeepsJournal(s, y, t);
    ClosesKeepsEntries(s, y, t);
    forall z, c | 0 <= z < |t.years| && t.years[z].closed && TemporaryCode(t, c)
      ensures Net(t.entries, InYear(z), c) == 0
    {
      ClosesFigures(s, y, t, InYear(z), c);
      assert TemporaryCode(s, c);
    }
  }

  lemma AppendKeepsChart(s: State, e: Entry, t: State)
    requires ChartOK(s) && Appends(s, e, t)
    ensures ChartOK(t) && t.years == s.years
  {
  }

  lemma MarkingKeepsYears(s: State, y: nat)
    requires YearsOK(s.years) && y < |s.years|
    ensures YearsOK(s.years[y := s.years[y].(closed := true)])
  {
  }

  lemma ClosesKeepsChart(s: State, y: nat, t: State)
    requires ChartOK(s) && YearsOK(s.years) && Closes(s, y, t)
    ensures ChartOK(t) && YearsOK(t.years)
  {
    hide Appends, ClosingLines, NetIncome;
    MarkingKeepsYears(s, y);
    if ClosingLines(s, s.codes, y) != [] {
      var e :| ClosesWith(s, y, e, t);
      var p :| Appends(s, e, p) && t == p.(years := s.years[y := s.years[y].(closed := true)]);
      AppendKeepsChart(s, e, p);
    }
  }

  lemma ClosesKeepsJournal(s: State, y: nat, t: State)
    requires NumbersRise(s.entries) && ReversalsOK(s.entries) && Closes(s, y, t)
    ensures NumbersRise(t.entries) && ReversalsOK(t.entries)
  {
    hide ClosingLines, ClosesWith, NumbersRise, ReversalsOK, MaxNo;
    if ClosingLines(s, s.codes, y) != [] {
      var e :| ClosesWith(s, y, e, t);
      ClosingEntry(s, y, e, t);
      AppendKeepsReversals(s.entries, e);
      NumbersKeepRising(s.entries, e);
    }
  }

  /** An entry stays sound when accounts keep their flags and years keep their ranges. */
  lemma EntryStaysOK(s: State, t: State, e: Entry)
    requires EntryOK(s, e) && |s.years| <= |t.years|
    requires forall c :: c in s.accounts ==> c in t.accounts && t.accounts[c].postable == s.accounts[c].postable
    requires forall i :: 0 <= i < |s.years| ==>
      t.years[i].startsOn == s.years[i].startsOn && t.years[i].endsOn == s.years[i].endsOn
        && (s.years[i].closed ==> t.years[i].closed)
    ensures EntryOK(t, e)
  {
  }

  lemma ClosesKeepsEntries(s: State, y: nat, t: State)
    requires EntriesOK(s) && Closes(s, y, t)
    ensures EntriesOK(t)
  {
    hide Turnover, ClosingLines, Posted;
    if ClosingLines(s, s.codes, y) != [] {
      var e :| ClosesWith(s, y, e, t);
      assert EntryOK(t, e);
      forall x | x in s.entries ensures EntryOK(t, x) { EntryStaysOK(s, t, x); }
    } else {
      forall x | x in s.entries ensures EntryOK(t, x) { EntryStaysOK(s, t, x); }
    }
  }

  // ---------- opening ----------

  lemma {:induction false} OpeningLinesPosted(s: State, codes: seq<string>, lastDay: int, c: string)
    requires Distinct(codes)
    ensures PostedNet(OpeningLines(s, codes, lastDay), c)
         == if c in codes && c in s.accounts && !TemporaryCode(s, c) then Net(s.entries, UpTo(lastDay), c) else 0
  {
    if codes != [] {
      var k := |codes| - 1;
      assert codes == codes[..k] + [codes[k]];
      OpeningLinesPosted(s, codes[..k], lastDay, c);
      var net := Net(s.entries, UpTo(lastDay), codes[k]);
      var before := OpeningLines(s, codes[..k], lastDay);
      assert before + [] == before;
      if codes[k] in s.accounts && !TemporaryCode(s, codes[k]) && net != 0 {
        PostedAppend(before, OpeningLine(codes[k], net), c, DebitSide);
        PostedAppend(before, OpeningLine(codes[k], net), c, CreditSide);
      }
    }
  }

  lemma {:induction false} OpeningLinesShape(s: State, codes: seq<string>, lastDay: int)
    ensures forall l :: l in OpeningLines(s, codes, lastDay) ==>
      l.account in codes && Net(s.entries, UpTo(lastDay), l.account) != 0 && OneSided(l)
    ensures OpeningLines(s, codes, lastDay) == [] <==>
      forall c :: c in codes && c in s.accounts && !TemporaryCode(s, c) ==> Net(s.entries, UpTo(lastDay), c) == 0
  {
    if codes != [] {
      var k := |codes| - 1;
      assert codes == codes[..k] + [codes[k]];
      OpeningLinesShape(s, codes[..k], lastDay);
    }
  }

  /** The share of one account in the income up to a day. */
  function TemporaryNet(s: State, lastDay: int, c: string): int {
    if TemporaryCode(s, c) then Net(s.entries, UpTo(lastDay), c) else 0
  }

  lemma {:induction false} DriftSum(s: State, codes: seq<string>, lastDay: int)
    requires forall c :: c in codes ==> c in s.accounts
    ensures Drift(OpeningLines(s, codes, lastDay))
         == SumOver(codes, c => Net(s.entries, UpTo(lastDay), c) - TemporaryNet(s, lastDay, c))
  {
    if codes != [] {
      var k := |codes| - 1;
      assert codes[k] in codes;
      DriftSum(s, codes[..k], lastDay);
      var net := Net(s.entries, UpTo(lastDay), codes[k]);
      var before := OpeningLines(s, codes[..k], lastDay);
      assert before + [] == before;
      if !TemporaryCode(s, codes[k]) && net != 0 {
        PostedAppend(before, OpeningLine(codes[k], net), "", DebitSide);
        PostedAppend(before, OpeningLine(codes[k], net), "", CreditSide);
      }
    }
  }

  /** Income that was earned up to a day and never closed into retained earnings. */
  function UnclosedIncome(s: State, lastDay: int): int {
    -SumOver(s.codes, c => TemporaryNet(s, lastDay, c))
  }

  /** The drift the opening looks for is exactly the income nobody closed. */
  lemma DriftIsUnclosedIncome(s: State, lastDay: int)
    requires Inv(s)
    ensures Drift(OpeningLines(s, s.codes, lastDay)) == UnclosedIncome(s, lastDay)
  {
    DriftSum(s, s.codes, lastDay);
    EntriesFitChart(s);
    NetsCancel(s.codes, s.entries, UpTo(lastDay));
    SumOverPlus(s.codes,
                c => Net(s.entries, UpTo(lastDay), c) - TemporaryNet(s, lastDay, c),
                c => TemporaryNet(s, lastDay, c),
                c => Net(s.entries, UpTo(lastDay), c));
  }

  lemma EntriesFitChart(s: State)
    requires ChartOK(s) && EntriesOK(s)
    ensures forall e :: e in s.entries ==> AccountsIn(e.lines, s.codes) && BalancedLines(e.lines)
  {
    forall e | e in s.entries ensures AccountsIn(e.lines, s.codes) && BalancedLines(e.lines) {
      assert EntryOK(s, e);
    }
  }

  // ---------- a year's entries are the entries dated in it ----------

  /** Sum of one account over the fiscal years that end on or before a day. */
  function NetOfYears(s: State, n: nat, lastDay: int, c: string): int
    requires n <= |s.years|
  {
    if n == 0 then 0
    else
      NetOfYears(s, n - 1, lastDay, c)
        + (if s.years[n - 1].endsOn <= lastDay then Net(s.entries, InYear(n - 1), c) else 0)
  }

  /** No year straddles the day. */
  ghost predicate Boundary(years: seq<Year>, lastDay: int) {
    forall i :: 0 <= i < |years| ==> years[i].endsOn <= lastDay || lastDay < years[i].startsOn
  }

  lemma {:induction false} NetOfYearsAppend(s: State, rest: seq<Entry>, e: Entry, n: nat, lastDay: int, c: string)
    requires n <= |s.years| && s.entries == rest + [e] && e.year < |s.years| && !e.status.DRAFT?
    ensures NetOfYears(s, n, lastDay, c) == NetOfYears(s.(entries := rest), n, lastDay, c)
      + (if e.year < n && s.years[e.year].endsOn <= lastDay then PostedNet(e.lines, c) else 0)
  {
    if n > 0 {
      NetOfYearsAppend(s, rest, e, n - 1, lastDay, c);
      NetAppend(rest, e, InYear(n - 1), c);
    }
  }

  lemma {:induction false} NetOfYearsEmpty(s: State, n: nat, lastDay: int, c: string)
    requires n <= |s.years| && s.entries == []
    ensures NetOfYears(s, n, lastDay, c) == 0
  {
    if n > 0 { NetOfYearsEmpty(s, n - 1, lastDay, c); }
  }

  /** At a year boundary the cumulative figure is the sum of the figures of the years before. */
  lemma {:induction false} CumulativeIsSumOfYears(s: State, lastDay: int, c: string)
    requires forall e :: e in s.entries ==> e.year < |s.years| && !e.status.DRAFT? && s.years[e.year].Holds(e.date)
    requires Boundary(s.years, lastDay)
    ensures Net(s.entries, UpTo(lastDay), c) == NetOfYears(s, |s.years|, lastDay, c)
    decreases |s.entries|
  {
    if s.entries == [] {
      NetOfYearsEmpty(s, |s.years|, lastDay, c);
    } else {
      var k := |s.entries| - 1;
      var rest, e := s.entries[..k], s.entries[k];
      assert s.entries == rest + [e] && e in s.entries;
      CumulativeIsSumOfYears(s.(entries := rest), lastDay, c);
      NetOfYearsAppend(s, rest, e, |s.years|, lastDay, c);
      NetAppend(rest, e, UpTo(lastDay), c);
    }
  }

  lemma {:induction false} NetOfClosedYears(s: State, n: nat, lastDay: int, c: string)
    requires ClosedEmpty(s) && TemporaryCode(s, c) && n <= |s.years|
    requires forall i :: 0 <= i < n && s.years[i].endsOn <= lastDay ==> s.years[i].closed
    ensures NetOfYears(s, n, lastDay, c) == 0
  {
    if n > 0 { NetOfClosedYears(s, n - 1, lastDay, c); }
  }

  ghost predicate HasPrevious(s: State, y: nat) {
    y < |s.years| && PreviousYear(s.years, s.years[y].startsOn).Some?
  }

  /** The last day of the year before `y`. */
  ghost function LastDayBefore(s: State, y: nat): int
    requires HasPrevious(s, y)
  {
    s.years[PreviousYear(s.years, s.years[y].startsOn).value].endsOn
  }

  lemma PreviousYearIsBoundary(s: State, y: nat)
    requires YearsOK(s.years) && HasPrevious(s, y)
    ensures Boundary(s.years, LastDayBefore(s, y))
  {
    var years := s.years;
    var p := PreviousYear(years, years[y].startsOn).value;
    forall i | 0 <= i < |years| && i != p
      ensures years[i].endsOn <= years[p].endsOn || years[p].endsOn < years[i].startsOn
    {
      assert !Overlaps(years[i], years[p]) && !Overlaps(years[p], years[i]);
    }
  }

  /**
   When every year that ended by the previous year's end is closed, no income is left unclosed and
   the opening lines balance: the drift check cannot fire.
   */
  lemma DriftNeverFires(s: State, y: nat)
    requires Inv(s) && HasPrevious(s, y)
    requires forall i :: 0 <= i < |s.years| && s.years[i].endsOn <= LastDayBefore(s, y) ==> s.years[i].closed
    ensures UnclosedIncome(s, LastDayBefore(s, y)) == 0
    ensures Drift(OpeningLines(s, s.codes, LastDayBefore(s, y))) == 0
  {
    var lastDay := LastDayBefore(s, y);
    PreviousYearIsBoundary(s, y);
    DriftIsUnclosedIncome(s, lastDay);
    forall e | e in s.entries ensures e.year < |s.years| && !e.status.DRAFT? && s.years[e.year].Holds(e.date) {
      assert EntryOK(s, e);
    }
    forall c | c in s.codes ensures TemporaryNet(s, lastDay, c) == 0 {
      if TemporaryCode(s, c) {
        CumulativeIsSumOfYears(s, lastDay, c);
        NetOfClosedYears(s, |s.years|, lastDay, c);
      }
    }
    SumOverPlus(s.codes, c => 0, c => 0, c => 0);
    SumOverEqual(s.codes, c => TemporaryNet(s, lastDay, c), c => 0);
  }

  /** Some permanent account has a balance to carry into year `y`. */
  ghost predicate Carries(s: State, y: nat)
    requires HasPrevious(s, y)
  {
    OpeningLines(s, s.codes, LastDayBefore(s, y)) != []
  }

  /**
   Opening succeeds exactly when the year is open, the previous year is closed, and there is
   nothing to carry, or no unclosed income and no opening entry yet.
   */
  lemma OpenExactly(s: State, y: nat, today: int)
    requires Inv(s)
    ensures OpenFiscalYear(s, y, today).Ok? <==>
      && HasPrevious(s, y) && !s.years[y].closed
      && s.years[PreviousYear(s.years, s.years[y].startsOn).value].closed
      && (Carries(s, y) ==> UnclosedIncome(s, LastDayBefore(s, y)) == 0 && !Taken(s.entries, OpeningOf(y)))
  {
    if HasPrevious(s, y) && !s.years[y].closed {
      var lastDay := LastDayBefore(s, y);
      var lines := OpeningLines(s, s.codes, lastDay);
      DriftIsUnclosedIncome(s, lastDay);
      YearOfUnique(s.years, s.years[y].startsOn, y);
      PostInExactly(s, Request(OpeningOf(y), Some(s.years[y].startsOn), lines, false), today);
      OpeningLinesShape(s, s.codes, lastDay);
      forall l | l in lines ensures l.account in s.accounts && s.accounts[l.account].postable {
        UsedIsPostable(s, UpTo(lastDay), l.account);
      }
    }
  }

  /** `t` is `s` with the opening entry `e` of year `y`. */
  ghost predicate OpensWith(s: State, y: nat, e: Entry, t: State) {
    && HasPrevious(s, y) && Appends(s, e, t)
    && e.source == OpeningOf(y) && e.year == y && e.date == s.years[y].startsOn
    && e.lines == OpeningLines(s, s.codes, LastDayBefore(s, y))
  }

  lemma OpenResult(s: State, y: nat, today: int)
    requires YearsOK(s.years) && OpenFiscalYear(s, y, today).Ok?
    ensures HasPrevious(s, y)
    ensures if Carries(s, y) then exists e :: OpensWith(s, y, e, OpenFiscalYear(s, y, today).value)
            else OpenFiscalYear(s, y, today).value == s
  {
    if Carries(s, y) {
      YearOfUnique(s.years, s.years[y].startsOn, y);
      var lines := OpeningLines(s, s.codes, LastDayBefore(s, y));
      var e := PostAppends(s, Request(OpeningOf(y), Some(s.years[y].startsOn), lines, false), today);
      assert OpensWith(s, y, e, OpenFiscalYear(s, y, today).value);
    }
  }

  lemma OpeningEntry(s: State, y: nat, e: Entry, t: State)
    requires OpensWith(s, y, e, t)
    ensures t.entries == s.entries + [e] && e.source == OpeningOf(y) && e.status == POSTED
  {
    hide Turnover, Posted, ApplyAll, MaxNo, SideTotal, OpeningLines;
  }

  lemma OpenKeepsInv(s: State, y: nat, today: int)
    requires Inv(s) && OpenFiscalYear(s, y, today).Ok?
    ensures Inv(OpenFiscalYear(s, y, today).value)
  {
    OpenResult(s, y, today);
    if Carries(s, y) {
      var t := OpenFiscalYear(s, y, today).value;
      var e :| OpensWith(s, y, e, t);
      AppendKeepsInv(s, e, t);
    }
  }

  // ---------- the figures after an opening ----------

  /**
   In the year it opens the entry does what it is for: an account's figure for the year, opening
   included, is its balance at the end of the previous year plus the year's own movement.
   */
  lemma OpeningSetsYearFigures(s: State, y: nat, today: int, c: string)
    requires Inv(s) && OpenFiscalYear(s, y, today).Ok? && c in s.accounts && !TemporaryCode(s, c)
    ensures HasPrevious(s, y)
    ensures Net(OpenFiscalYear(s, y, today).value.entries, InYear(y), c)
         == Net(s.entries, UpTo(LastDayBefore(s, y)), c) + Net(s.entries, InYear(y), c)
  {
    OpenResult(s, y, today);
    OpeningLinesShape(s, s.codes, LastDayBefore(s, y));
    if Carries(s, y) {
      var e :| OpensWith(s, y, e, OpenFiscalYear(s, y, today).value);
      OpeningLinesPosted(s, s.codes, LastDayBefore(s, y), c);
      NetAppend(s.entries, e, InYear(y), c);
    }
  }

  /**
   Beyond its own year the entry repeats what it carries: from the first day of the year on, every
   cumulative figure of a permanent account grows by the balance carried, and its cached balance with it.
   */
  lemma OpeningDoublesCumulative(s: State, y: nat, today: int, c: string, day: int)
    requires Inv(s) && OpenFiscalYear(s, y, today).Ok? && c in s.accounts && !TemporaryCode(s, c)
    ensures HasPrevious(s, y)
    ensures var t := OpenFiscalYear(s, y, today).value; var carried := Net(s.entries, UpTo(LastDayBefore(s, y)), c);
      && Net(t.entries, UpTo(day), c) == Net(s.entries, UpTo(day), c)
          + (if s.years[y].startsOn <= day then carried else 0)
      && c in t.accounts && t.accounts[c] == s.accounts[c].(balance :=
           s.accounts[c].balance + (if s.accounts[c].kind.DebitNature() then carried else -carried))
  {
    hide Turnover, Posted, OpenFiscalYear, OpensWith, Movement;
    OpenResult(s, y, today);
    OpeningLinesShape(s, s.codes, LastDayBefore(s, y));
    if Carries(s, y) {
      var e :| OpensWith(s, y, e, OpenFiscalYear(s, y, today).value);
      OpeningEntryMoves(s, y, e, OpenFiscalYear(s, y, today).value, c, day);
    }
  }

  lemma OpeningEntryMoves(s: State, y: nat, e: Entry, t: State, c: string, day: int)
    requires ChartOK(s) && OpensWith(s, y, e, t) && c in s.accounts && !TemporaryCode(s, c)
    ensures var carried := Net(s.entries, UpTo(LastDayBefore(s, y)), c);
      && Net(t.entries, UpTo(day), c) == Net(s.entries, UpTo(day), c)
          + (if s.years[y].startsOn <= day then carried else 0)
      && c in t.accounts && t.accounts[c] == s.accounts[c].(balance :=
           s.accounts[c].balance + (if s.accounts[c].kind.DebitNature() then carried else -carried))
  {
    hide Turnover, Posted, MaxNo, SideTotal, OpeningLines, LastDayBefore, HasPrevious;
    OpeningLinesPosted(s, s.codes, LastDayBefore(s, y), c);
    NetAppend(s.entries, e, UpTo(day), c);
  }
}
