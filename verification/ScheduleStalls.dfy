/**
 When a recurring template is refused as already issued: never while it keeps to its due dates, and for
 as long as it stands after a date given by hand that leads back to an issued month.
 */
module ScheduleStalls {
  import opened Common
  import opened Journal
  import opened JournalTemplates
  import Calendar = Jalali
  import Posting
  import LedgerRuns
  import Invariant = LedgerInvariant

  // ---------- months in the journal ----------

  predicate IssuedBy(e: Entry, id: string) {
    e.source.External? && e.source.doc.RecurringEntry? && e.source.doc.template == id
  }

  /** The month in a template's document key. */
  function MonthOf(e: Entry): int
    requires e.source.External? && e.source.doc.RecurringEntry?
  {
    Calendar.IndexOf(Calendar.JalaliDate(e.source.doc.jy, e.source.doc.jm, 1))
  }

  /** The months a schedule will come to: the due one and every step after it. */
  ghost predicate Ahead(month: int, due: int, step: nat) {
    exists j: nat :: month == MonthDue(due, step, j)
  }

  /** The month due after `j` steps. */
  function MonthDue(due: int, step: nat, j: nat): int { due + j * step }

  /** A live entry of this template already bears the month's key. */
  predicate MonthIssued(entries: seq<Entry>, id: string, d: Calendar.JalaliDate) {
    exists e :: e in entries && e.source == External(RecurringEntry(id, d.jy, d.jm)) && !e.status.REVERSED?
  }

  lemma {:induction false} EntryIsIssued(entries: seq<Entry>, id: string, i: nat) returns (k: nat)
    requires i < |entries| && IssuedBy(entries[i], id)
    ensures k < |IssuedOf(entries, id)|
    ensures Calendar.IndexOf(IssuedOf(entries, id)[k].period) == MonthOf(entries[i])
  {
    var n := |entries| - 1;
    if i == n {
      k := |IssuedOf(entries[..n], id)|;
    } else {
      k := EntryIsIssued(entries[..n], id, i);
    }
  }

  lemma {:induction false} IssuedSplits(a: seq<Entry>, b: seq<Entry>, id: string)
    ensures IssuedOf(a + b, id) == IssuedOf(a, id) + IssuedOf(b, id)
  {
    hide FromTemplate;
    if b == [] {
      assert a + b == a;
    } else {
      var k := |b| - 1;
      assert (a + b)[..|a| + k] == a + b[..k];
      IssuedSplits(a, b[..k], id);
    }
  }

  /** An entry posted from the template since an earlier state is among the later ones of its issues. */
  lemma LaterEntryIsIssued(a: seq<Entry>, b: seq<Entry>, id: string, i: nat) returns (k: nat)
    requires |a| <= i < |b| && IssuedBy(b[i], id)
    requires forall j :: 0 <= j < |a| ==> LedgerRuns.SameOrMarked(a[j], b[j])
    ensures |IssuedOf(a, id)| <= k < |IssuedOf(b, id)|
    ensures Calendar.IndexOf(IssuedOf(b, id)[k].period) == MonthOf(b[i])
  {
    hide IssuedOf;
    var n := |a|;
    assert b == b[..n] + b[n..];
    IssuedSplits(b[..n], b[n..], id);
    IssuedMarked(a, b[..n], id);
    var m := EntryIsIssued(b[n..], id, i - n);
    k := |IssuedOf(a, id)| + m;
  }

  // ---------- a run only grows the journal ----------

  lemma StepGrows(b: Books, op: BookOp, today: int)
    requires Invariant.Inv(b.ledger)
    ensures LedgerRuns.Grows(b.ledger, Step(b, op, today).ledger)
  {
    hide Invariant.Inv, LedgerRuns.Grows, LedgerRuns.Perform, Posting.PostIn;
    LedgerRuns.GrowsReflexive(b.ledger);
    match op {
      case Issue(id, given) =>
        if Generate(b, id, given, today).Ok? {
          var p := RequestFor(id, b.templates[id], EntryDate(b.templates[id], given, today));
          var e := Posting.PostAppends(b.ledger, p, today);
          LedgerRuns.AppendGrows(b.ledger, e, Step(b, op, today).ledger);
        }
      case LedgerWork(l) =>
        if LedgerRuns.Perform(b.ledger, l, today).Ok? { LedgerRuns.PerformGrows(b.ledger, l, today); }
      case _ =>
    }
  }

  lemma {:induction false} RunGrows(b: Books, ops: seq<(BookOp, int)>)
    requires Invariant.Inv(b.ledger) && forall x :: x in ops ==> Allowed(x.0)
    ensures Invariant.Inv(Run(b, ops).ledger) && LedgerRuns.Grows(b.ledger, Run(b, ops).ledger)
  {
    hide Invariant.Inv, LedgerRuns.Grows, Step;
    if ops == [] {
      LedgerRuns.GrowsReflexive(b.ledger);
    } else {
      var k := |ops| - 1;
      assert ops[k] in ops && forall x :: x in ops[..k] ==> x in ops;
      var before := Run(b, ops[..k]);
      RunGrows(b, ops[..k]);
      StepKeepsInv(before, ops[k].0, ops[k].1);
      StepGrows(before, ops[k].0, ops[k].1);
      LedgerRuns.GrowsTransitive(b.ledger, before.ledger, Run(b, ops).ledger);
    }
  }

  // ---------- a schedule that keeps to its due dates ----------

  /** No live entry of the template stands in a month its schedule will come to. */
  ghost predicate RoadClear(b: Books, id: string)
    requires Scheduled(b, id)
  {
    var t := b.templates[id];
    forall e :: e in b.ledger.entries && IssuedBy(e, id) && !e.status.REVERSED? ==>
      !Ahead(MonthOf(e), Calendar.MonthIndex(t.nextRunOn.value), t.frequency.Months())
  }

  predicate Scheduled(b: Books, id: string) {
    id in b.templates && !b.templates[id].frequency.MANUAL? && b.templates[id].nextRunOn.Some?
  }

  lemma OnlyTakenIsDuplicate(s: Posting.State, p: Posting.Request, today: int)
    ensures Posting.PostIn(s, p, today) == Err(Posting.DuplicateSource) ==> Posting.Taken(s.entries, p.source)
  {
    Posting.FaultsOfLines(p.lines);
  }

  lemma MonthsDueDiffer(first: int, step: nat, k: nat, n: nat)
    requires step > 0 && k < n
    ensures MonthDue(first, step, k) < MonthDue(first, step, n)
  {
    assert (n - k) * step > 0;
    assert n * step == k * step + (n - k) * step;
  }

  /** Where the schedule is after a run: some whole number of steps on. */
  lemma DueAfter(b: Books, ops: seq<(BookOp, int)>, id: string) returns (n: nat)
    requires Invariant.Inv(b.ledger) && DueDatesOnly(ops, id) && Scheduled(b, id)
    ensures Scheduled(Run(b, ops), id)
    ensures var t := Run(b, ops); var before := |IssuedOf(b.ledger.entries, id)|;
      var first, step := Calendar.MonthIndex(b.templates[id].nextRunOn.value), b.templates[id].frequency.Months();
      && t.templates[id].frequency == b.templates[id].frequency
      && before + n == |IssuedOf(t.ledger.entries, id)|
      && Calendar.MonthIndex(t.templates[id].nextRunOn.value) == MonthDue(first, step, n)
      && forall k :: before <= k < before + n ==>
           Calendar.IndexOf(IssuedOf(t.ledger.entries, id)[k].period) == MonthDue(first, step, k - before)
  {
    hide Invariant.Inv, Run, IssuedOf, Calendar.ToJalali, OwnPeriods, Follows, OnSchedule;
    ScheduleHolds(b, ops, id);
    var t := Run(b, ops);
    var all, before := IssuedOf(t.ledger.entries, id), IssuedOf(b.ledger.entries, id);
    var issues := all[|before|..];
    n := |issues|;
    var first, step := b.templates[id].nextRunOn.value, b.templates[id].frequency.Months();
    var next := Calendar.ToJalali(t.templates[id].nextRunOn.value);
    DueIndex(Calendar.ToJalali(first), step, issues, next);
    forall k | |before| <= k < |before| + n
      ensures Calendar.IndexOf(all[k].period) == MonthDue(Calendar.MonthIndex(first), step, k - |before|)
    {
      ScheduleIsProgression(Calendar.ToJalali(first), step, issues, next, k - |before|);
    }
  }

  lemma DueIndex(first: Calendar.JalaliDate, step: nat, issues: seq<Issued>, next: Calendar.JalaliDate)
    requires OnSchedule(first, step, issues, next)
    ensures Calendar.IndexOf(next) == Calendar.IndexOf(first) + |issues| * step
  {
    if issues != [] {
      var k := |issues| - 1;
      ScheduleIsProgression(first, step, issues, next, k);
      assert |issues| * step == k * step + step;
    }
  }

  /**
   A scheduled template that keeps to its due dates is never refused as already issued, through any run,
   if at the start none of its live entries stands in a month the schedule will come to.
   */
  lemma NeverInItsOwnWay(b: Books, ops: seq<(BookOp, int)>, id: string, today: int)
    requires Invariant.Inv(b.ledger) && DueDatesOnly(ops, id) && Scheduled(b, id) && RoadClear(b, id)
    ensures Generate(Run(b, ops), id, None, today) != Err(AlreadyIssued)
  {
    hide Invariant.Inv, Run, IssuedOf, Calendar.ToJalali, Posting.PostIn;
    var t := Run(b, ops);
    var n := DueAfter(b, ops, id);
    RunGrows(b, ops);
    var due := t.templates[id].nextRunOn.value;
    var p := RequestFor(id, t.templates[id], due);
    OnlyTakenIsDuplicate(t.ledger, p, today);
    if Posting.Taken(t.ledger.entries, p.source) {
      var i :| 0 <= i < |t.ledger.entries| && t.ledger.entries[i].source == p.source
          && !t.ledger.entries[i].status.REVERSED?;
      NotBlockedBy(b, t, id, n, i);
    }
  }

  /** In particular a template that has issued nothing yet is never in its own way. */
  lemma NewTemplateIsNeverRefused(b: Books, ops: seq<(BookOp, int)>, id: string, today: int)
    requires Invariant.Inv(b.ledger) && DueDatesOnly(ops, id) && Scheduled(b, id)
    requires IssuedOf(b.ledger.entries, id) == []
    ensures Generate(Run(b, ops), id, None, today) != Err(AlreadyIssued)
  {
    hide Invariant.Inv, Run, Generate, IssuedOf;
    forall e | e in b.ledger.entries ensures !IssuedBy(e, id) {
      var i :| 0 <= i < |b.ledger.entries| && b.ledger.entries[i] == e;
      if IssuedBy(e, id) { var _ := EntryIsIssued(b.ledger.entries, id, i); }
    }
    NeverInItsOwnWay(b, ops, id, today);
  }

  lemma NotBlockedBy(b: Books, t: Books, id: string, n: nat, i: nat)
    requires Scheduled(b, id) && RoadClear(b, id) && i < |t.ledger.entries|
    requires LedgerRuns.JournalGrows(b.ledger, t.ledger)
    requires IssuedBy(t.ledger.entries[i], id) && !t.ledger.entries[i].status.REVERSED?
    requires var before := |IssuedOf(b.ledger.entries, id)|;
      var first, step := Calendar.MonthIndex(b.templates[id].nextRunOn.value), b.templates[id].frequency.Months();
      && before + n == |IssuedOf(t.ledger.entries, id)|
      && forall k :: before <= k < before + n ==>
           Calendar.IndexOf(IssuedOf(t.ledger.entries, id)[k].period) == MonthDue(first, step, k - before)
    ensures MonthOf(t.ledger.entries[i]) !=
      MonthDue(Calendar.MonthIndex(b.templates[id].nextRunOn.value), b.templates[id].frequency.Months(), n)
  {
    hide Calendar.ToJalali, IssuedOf, MonthDue;
    var first, step := Calendar.MonthIndex(b.templates[id].nextRunOn.value), b.templates[id].frequency.Months();
    if i < |b.ledger.entries| {
      assert LedgerRuns.SameOrMarked(b.ledger.entries[i], t.ledger.entries[i])
          && b.ledger.entries[i] in b.ledger.entries;
    } else {
      var k := LaterEntryIsIssued(b.ledger.entries, t.ledger.entries, id, i);
      MonthsDueDiffer(first, step, k - |IssuedOf(b.ledger.entries, id)|, n);
    }
  }

  // ---------- after a date given by hand ----------

  /** With its lines in order, a posting into an open year is a duplicate exactly when its key is taken. */
  lemma DuplicateExactly(s: Posting.State, p: Posting.Request, today: int)
    requires p.lines != [] && BalancedLines(p.lines) && !p.allowClosedYear
    requires forall l :: l in p.lines ==>
      l.account in s.accounts && s.accounts[l.account].postable && Posting.OneSided(l)
    ensures Posting.PostIn(s, p, today) == Err(Posting.DuplicateSource) <==>
      Invariant.YearOpenOn(s, p.date.GetOr(today)) && Posting.Taken(s.entries, p.source)
  {
    hide SideTotal;
    Posting.TotalsNonNegative(p.lines);
    OnlyTakenIsDuplicate(s, p, today);
  }

  lemma AppendKeepsUsable(s: Posting.State, e: Entry, lines: seq<Line>)
    requires forall l :: l in e.lines ==> l.account in s.accounts
    requires forall l :: l in lines ==> l.account in s.accounts && s.accounts[l.account].postable
    ensures var t := Posting.Append(s, e);
      && (forall l :: l in lines ==> l.account in t.accounts && t.accounts[l.account].postable)
      && t.years == s.years && t.entries == s.entries + [e]
  {
    hide Posted;
  }

  /**
   After a call with a date given by hand, the next call without one is refused as already issued if and
   only if its due day lies in an open year and a live entry of the template already bears the month a
   step after that date.
   */
  lemma HandDateExactly(b: Books, id: string, date: int, today: int, later: int)
    requires Generate(b, id, Some(date), today).Ok? && !b.templates[id].frequency.MANUAL?
    ensures var t := Generate(b, id, Some(date), today).value; var step := b.templates[id].frequency.Months();
      && Scheduled(t, id)
      && (var due := t.templates[id].nextRunOn.value;
          && Calendar.MonthIndex(due) == Calendar.MonthIndex(date) + step
          && (Generate(t, id, None, later) == Err(AlreadyIssued) <==>
                Invariant.YearOpenOn(b.ledger, due) && MonthIssued(b.ledger.entries, id, Calendar.ToJalali(due))))
  {
    hide Calendar.ToJalali, Calendar.AddJalaliMonths, Posting.PostIn, Posting.ApplyAll, Posting.YearOf, Posting.MaxNo,
        SideTotal;
    var t := Generate(b, id, Some(date), today).value;
    var template := b.templates[id];
    var p := RequestFor(id, template, date);
    GenerateIssues(b, id, Some(date), today);
    Posting.PostInExactly(b.ledger, p, today);
    var e := Posting.PostAppends(b.ledger, p, today);
    AppendKeepsUsable(b.ledger, e, p.lines);
    var due := t.templates[id].nextRunOn.value;
    var next := RequestFor(id, t.templates[id], due);
    DuplicateExactly(t.ledger, next, later);
    KeyOfOtherMonth(b.ledger.entries, e, id, Calendar.ToJalali(due));
  }

  lemma KeyOfOtherMonth(entries: seq<Entry>, e: Entry, id: string, d: Calendar.JalaliDate)
    requires e.source != External(RecurringEntry(id, d.jy, d.jm))
    ensures Posting.Taken(entries + [e], External(RecurringEntry(id, d.jy, d.jm))) <==> MonthIssued(entries, id, d)
  {
  }

  /** The key of a live entry with a real month is taken for its own month. */
  lemma SameMonthSameKey(e: Entry, id: string, day: int)
    requires IssuedBy(e, id) && 1 <= e.source.doc.jm <= 12 && MonthOf(e) == Calendar.MonthIndex(day)
    ensures var d := Calendar.ToJalali(day); e.source == External(RecurringEntry(id, d.jy, d.jm))
  {
    hide Calendar.ToJalali;
    Calendar.DateOfDay(day);
  }

  lemma TakenIsRefused(b: Books, id: string, today: int, e: Entry)
    requires Scheduled(b, id) && e in b.ledger.entries && !e.status.REVERSED? && IssuedBy(e, id)
    requires 1 <= e.source.doc.jm <= 12 && MonthOf(e) == Calendar.MonthIndex(b.templates[id].nextRunOn.value)
    ensures Generate(b, id, None, today).Err?
  {
    hide Calendar.ToJalali, Posting.PostIn, SideTotal;
    var due := b.templates[id].nextRunOn.value;
    SameMonthSameKey(e, id, due);
    Posting.PostInExactly(b.ledger, RequestFor(id, b.templates[id], due), today);
  }

  /** One operation takes the due month on by a step, or leaves it. */
  lemma StepMovesDue(b: Books, op: BookOp, today: int, id: string)
    requires Scheduled(b, id) && (op.Issue? && op.id == id ==> op.given.None?)
    ensures Scheduled(Step(b, op, today), id)
    ensures var t := Step(b, op, today).templates[id]; var due := b.templates[id].nextRunOn.value;
      && t.frequency == b.templates[id].frequency
      && (|| t.nextRunOn.value == due
          || (op == Issue(id, None) && Generate(b, id, None, today).Ok?
              && Calendar.MonthIndex(t.nextRunOn.value) == Calendar.MonthIndex(due) + t.frequency.Months()))
  {
    hide Calendar.ToJalali, Generate, LedgerRuns.Step, IssuedOf;
    if op.Issue? && Generate(b, op.id, op.given, today).Ok? {
      GenerateIssues(b, op.id, op.given, today);
    }
  }

  /**
   A live entry in a month the schedule will come to stops it there: through any run without dates given
   by hand, as long as the entry is not reversed, the due month never passes it, and once the due month
   is that one every call is refused.
   */
  lemma {:induction false} StallLasts(b: Books, ops: seq<(BookOp, int)>, id: string, i: nat, later: int)
    requires Invariant.Inv(b.ledger) && DueDatesOnly(ops, id) && Scheduled(b, id)
    requires i < |b.ledger.entries| && IssuedBy(b.ledger.entries[i], id) && 1 <= b.ledger.entries[i].source.doc.jm <= 12
    requires Ahead(MonthOf(b.ledger.entries[i]), Calendar.MonthIndex(b.templates[id].nextRunOn.value),
                   b.templates[id].frequency.Months())
    requires i < |Run(b, ops).ledger.entries| && !Run(b, ops).ledger.entries[i].status.REVERSED?
    ensures var t := Run(b, ops); var month := MonthOf(b.ledger.entries[i]);
      && Scheduled(t, id) && t.templates[id].frequency == b.templates[id].frequency
      && Ahead(month, Calendar.MonthIndex(t.templates[id].nextRunOn.value), t.templates[id].frequency.Months())
      && (Calendar.MonthIndex(t.templates[id].nextRunOn.value) == month ==> Generate(t, id, None, later).Err?)
  {
    hide Invariant.Inv, Step, Generate, Calendar.ToJalali, Ahead;
    var t, e := Run(b, ops), b.ledger.entries[i];
    RunGrows(b, ops);
    assert LedgerRuns.SameOrMarked(e, t.ledger.entries[i]);
    if ops != [] {
      var k := |ops| - 1;
      assert ops[k] in ops && forall x :: x in ops[..k] ==> x in ops;
      var before := Run(b, ops[..k]);
      RunGrows(b, ops[..k]);
      StepGrows(before, ops[k].0, ops[k].1);
      assert LedgerRuns.SameOrMarked(before.ledger.entries[i], t.ledger.entries[i]);
      StallLasts(b, ops[..k], id, i, ops[k].1);
      StepMovesDue(before, ops[k].0, ops[k].1, id);
      var due, step := Calendar.MonthIndex(before.templates[id].nextRunOn.value),
          before.templates[id].frequency.Months();
      if due != MonthOf(e) { AheadOfNext(MonthOf(e), due, step); }
    }
    if Calendar.MonthIndex(t.templates[id].nextRunOn.value) == MonthOf(e) {
      TakenIsRefused(t, id, later, t.ledger.entries[i]);
    }
  }

  lemma AheadOfNext(month: int, due: int, step: nat)
    requires Ahead(month, due, step) && month != due
    ensures Ahead(month, due + step, step)
  {
    var j: nat :| month == MonthDue(due, step, j);
    assert month == MonthDue(due + step, step, j - 1);
  }

  // ---------- a template that stalls ----------

  const RENT: seq<Line> := [Line("1101", 0, 100), Line("5101", 100, 0)]

  /** 11 Dey 1348 is 1 January 1970; thirty days before it, 11 Azar 1348. */
  const STALLING: seq<(BookOp, int)> := [
    (LedgerWork(LedgerRuns.NewYear("1348", -100, 100)), -60),
    (NewTemplate("rent", RENT, MONTHLY, Some(0)), -60),
    (Issue("rent", None), 0),
    (Issue("rent", Some(-30)), 1)]

  const EMPTY_BOOKS: Books := Books(
    Posting.State(["1101", "5101", "3102"],
                  map["1101" := Account(ASSET, true, 0), "5101" := Account(EXPENSE, true, 0),
                      "3102" := Account(EQUITY, true, 0)],
                  [], []),
    map[])

  lemma TwoDays()
    ensures Calendar.ToJalali(0) == Calendar.JalaliDate(1348, 10, 11)
    ensures Calendar.ToJalali(-30) == Calendar.JalaliDate(1348, 9, 11)
  {
  }

  lemma RentIsWellFormed()
    ensures WellFormed(RENT)
  {
    assert [] + [RENT[0]] == [RENT[0]] && [RENT[0]] + [RENT[1]] == RENT;
    forall side ensures SideTotal(RENT, side) == 100 {
      PostedAppend([], RENT[0], "", side);
      PostedAppend([RENT[0]], RENT[1], "", side);
    }
  }

  /** One open year around the two days, and the template due on a day. */
  ghost predicate RentDue(b: Books, due: int) {
    && "rent" in b.templates && b.ledger.years == [Year("1348", -100, 100, false)]
    && (var t := b.templates["rent"]; t.lines == RENT && t.frequency == MONTHLY && t.nextRunOn == Some(due) && t.active)
    && forall l :: l in RENT ==> l.account in b.ledger.accounts && b.ledger.accounts[l.account].postable
  }

  /** A month not yet issued is posted, and the template comes due in the month after it. */
  lemma RentIssued(b: Books, given: Option<int>, today: int, due: int) returns (t: Books, e: Entry, next: int)
    requires RentDue(b, due) && -100 <= given.GetOr(due) <= 100
    requires Calendar.InCalendar(Calendar.MonthIndex(given.GetOr(due)) + 1)
    requires !MonthIssued(b.ledger.entries, "rent", Calendar.ToJalali(given.GetOr(due)))
    ensures Generate(b, "rent", given, today) == Ok(t) && RentDue(t, next)
    ensures t.ledger.entries == b.ledger.entries + [e] && e.status == POSTED
    ensures var d := Calendar.ToJalali(given.GetOr(due)); e.source == External(RecurringEntry("rent", d.jy, d.jm))
    ensures Calendar.MonthIndex(next) == Calendar.MonthIndex(given.GetOr(due)) + 1
  {
    hide Calendar.ToJalali, Calendar.InCalendar, Posting.PostIn, SideTotal, Posted, Calendar.AddJalaliMonths, IssuedOf;
    var date := given.GetOr(due);
    var p := RequestFor("rent", b.templates["rent"], date);
    RentIsWellFormed();
    assert Posting.YearOf(b.ledger.years, date) == Some(0);
    GenerateExactly(b, "rent", given, today);
    t := Generate(b, "rent", given, today).value;
    GenerateIssues(b, "rent", given, today);
    e := Posting.PostAppends(b.ledger, p, today);
    AppendKeepsUsable(b.ledger, e, RENT);
    next := t.templates["rent"].nextRunOn.value;
  }

  lemma RunOneMore(b: Books, ops: seq<(BookOp, int)>, k: nat, t: Books)
    requires k < |ops| && Run(b, ops[..k]) == t
    ensures Run(b, ops[..k + 1]) == Step(t, ops[k].0, ops[k].1)
  {
    assert ops[..k + 1][..k] == ops[..k];
  }

  lemma RentCreated() returns (b: Books)
    ensures Run(EMPTY_BOOKS, STALLING[..2]) == b && RentDue(b, 0) && b.ledger.entries == []
  {
    assert Run(EMPTY_BOOKS, STALLING[..0]) == EMPTY_BOOKS;
    RunOneMore(EMPTY_BOOKS, STALLING, 0, EMPTY_BOOKS);
    RentIsWellFormed();
    b := Run(EMPTY_BOOKS, STALLING[..1]);
    RunOneMore(EMPTY_BOOKS, STALLING, 1, b);
    b := Run(EMPTY_BOOKS, STALLING[..2]);
  }

  /** From empty books: one entry on its due date, one dated by hand a month earlier, and the template is stuck. */
  lemma HandDateStalls(later: int)
    ensures LedgerRuns.Initial(EMPTY_BOOKS.ledger)
    ensures Generate(Run(EMPTY_BOOKS, STALLING), "rent", None, later) == Err(AlreadyIssued)
  {
    hide Run, Generate, Calendar.ToJalali, RentDue, Calendar.InCalendar, MonthIssued;
    TwoDays();
    InItsYears();
    var b := RentCreated();
    NothingIssued(Calendar.JalaliDate(1348, 10, 11));
    var c, e, due := RentIssued(b, None, 0, 0);
    RunOneMore(EMPTY_BOOKS, STALLING, 2, b);
    assert c.ledger.entries == [e];
    OnlyDeyIssued(e, Calendar.JalaliDate(1348, 9, 11));
    var d, f, last := RentIssued(c, Some(-30), 1, due);
    RunOneMore(EMPTY_BOOKS, STALLING, 3, c);
    assert STALLING[..4] == STALLING;
    RentStuck(c, d, e, due, last, later);
  }

  lemma NothingIssued(d: Calendar.JalaliDate)
    ensures !MonthIssued([], "rent", d)
  {
  }

  lemma OnlyDeyIssued(e: Entry, d: Calendar.JalaliDate)
    requires e.source == External(RecurringEntry("rent", 1348, 10)) && d.jm != 10
    ensures !MonthIssued([e], "rent", d)
  {
  }

  lemma InItsYears()
    ensures Calendar.InCalendar(12 * 1348 + 10) && Calendar.InCalendar(12 * 1348 + 9)
  {
  }

  lemma DaysOfDey(day: int)
    requires Calendar.MonthIndex(day) == 12 * 1348 + 9
    ensures var d := Calendar.ToJalali(day); d.jy == 1348 && d.jm == 10
    ensures -100 <= day <= 100
  {
    Calendar.DateOfDay(day);
  }

  lemma RentStuck(c: Books, d: Books, e: Entry, due: int, last: int, later: int)
    requires Generate(c, "rent", Some(-30), 1) == Ok(d) && c.ledger.entries == [e] && RentDue(c, due)
        && RentDue(d, last)
    requires e.status == POSTED && e.source == External(RecurringEntry("rent", 1348, 10))
    requires Calendar.MonthIndex(last) == 12 * 1348 + 9
    ensures Generate(d, "rent", None, later) == Err(AlreadyIssued)
  {
    hide Generate, Calendar.ToJalali;
    DaysOfDey(last);
    assert Posting.YearOf(c.ledger.years, last) == Some(0);
    assert e in c.ledger.entries;
    HandDateExactly(c, "rent", -30, 1, later);
  }
}
