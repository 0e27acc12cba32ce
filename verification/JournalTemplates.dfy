/**
 Recurring journal templates: checked when stored, posted once per Jalali period, and moved on by
 Jalali months.
 */
module JournalTemplates {
  import opened Common
  import opened Journal
  import opened LedgerService
  import Calendar = Jalali
  import Posting
  import LedgerRuns
  import Invariant = LedgerInvariant

  datatype Frequency = MONTHLY | QUARTERLY | YEARLY | MANUAL {
    /** Jalali months to the next due date; none for a manual template. */
    function Months(): nat {
      match this
      case MONTHLY => 1
      case QUARTERLY => 3
      case YEARLY => 12
      case MANUAL => 0
    }
  }

  datatype Template = Template(
    lines: seq<Line>, frequency: Frequency, nextRunOn: Option<int>, lastRunOn: Option<int>, active: bool)

  datatype TemplateError =
    | NotFound | Inactive | NoTitle | NoDescription | BadFrequency | NoDueDate
    | TooFewLines | NoAccount(line: nat) | BadAmount(line: nat) | TwoSided(line: nat) | ZeroAmount(line: nat)
    | NotBalanced | AlreadyIssued | Refused(error: Posting.Error) | NoNextDate(why: Calendar.CalendarError)

  // ---------- checking a template ----------

  function Problem(l: Line, i: nat): Option<TemplateError> {
    if l.account == "" then Some(NoAccount(i))
    else if l.debit < 0 || l.credit < 0 then Some(BadAmount(i))
    else if l.debit > 0 && l.credit > 0 then Some(TwoSided(i))
    else if l.debit == 0 && l.credit == 0 then Some(ZeroAmount(i))
    else None
  }

  predicate WellFormed(lines: seq<Line>) {
    && |lines| >= 2
    && (forall l :: l in lines ==> l.account != "" && Posting.OneSided(l))
    && SideTotal(lines, DebitSide) == SideTotal(lines, CreditSide)
  }

  /** The first faulty line decides the error; the balance comes last. */
  ghost predicate Verdict(lines: seq<Line>, r: Result<(), TemplateError>) {
    match r
    case Ok(_) => WellFormed(lines)
    case Err(TooFewLines) => |lines| < 2
    case Err(NotBalanced) =>
      && |lines| >= 2 && (forall i :: 0 <= i < |lines| ==> Problem(lines[i], i).None?)
      && SideTotal(lines, DebitSide) != SideTotal(lines, CreditSide)
    case Err(e) =>
      && |lines| >= 2
      && exists i :: 0 <= i < |lines| && Problem(lines[i], i) == Some(e)
           && forall j :: 0 <= j < i ==> Problem(lines[j], j).None?
  }

  lemma FaultDecides(lines: seq<Line>, i: nat, e: TemplateError)
    requires 2 <= |lines| && i < |lines| && Problem(lines[i], i) == Some(e)
    requires forall j :: 0 <= j < i ==> Problem(lines[j], j).None?
    ensures Verdict(lines, Err(e)) && !WellFormed(lines)
  {
    hide SideTotal;
    assert lines[i] in lines;
  }

  lemma BalanceDecides(lines: seq<Line>)
    requires 2 <= |lines| && forall j :: 0 <= j < |lines| ==> Problem(lines[j], j).None?
    ensures WellFormed(lines) <==> SideTotal(lines, DebitSide) == SideTotal(lines, CreditSide)
    ensures Verdict(lines, if WellFormed(lines) then Ok(()) else Err(NotBalanced))
  {
    hide SideTotal;
  }

  lemma TooShort(lines: seq<Line>)
    requires |lines| < 2
    ensures Verdict(lines, Err(TooFewLines)) && !WellFormed(lines)
  {
  }

  lemma NothingAddsUp()
    ensures SideTotal([], DebitSide) == 0 == SideTotal([], CreditSide)
  {
  }

  method AssertBalanced(lines: seq<Line>) returns (r: Result<(), TemplateError>)
    ensures Verdict(lines, r)
    ensures r.Ok? <==> WellFormed(lines)
  {
    hide Verdict, WellFormed, SideTotal;
    if |lines| < 2 {
      TooShort(lines);
      return Err(TooFewLines);
    }
    NothingAddsUp();
    var debit, credit := 0, 0;
    for i := 0 to |lines|
      invariant forall j :: 0 <= j < i ==> Problem(lines[j], j).None?
      invariant debit == SideTotal(lines[..i], DebitSide) && credit == SideTotal(lines[..i], CreditSide)
    {
      var line := lines[i];
      if Problem(line, i).Some? { FaultDecides(lines, i, Problem(line, i).value); }
      if line.account == "" { return Err(NoAccount(i)); }
      if line.debit < 0 || line.credit < 0 { return Err(BadAmount(i)); }
      if line.debit > 0 && line.credit > 0 { return Err(TwoSided(i)); }
      if line.debit == 0 && line.credit == 0 { return Err(ZeroAmount(i)); }
      assert lines[..i + 1] == lines[..i] + [line];
      PostedAppend(lines[..i], line, "", DebitSide);
      PostedAppend(lines[..i], line, "", CreditSide);
      debit, credit := debit + line.debit, credit + line.credit;
    }
    assert lines[..|lines|] == lines;
    BalanceDecides(lines);
    if debit != credit { return Err(NotBalanced); }
    r := Ok(());
  }

  /** Errors that depend on the state of the ledger and not on the template. */
  predicate StateError(e: Posting.Error) {
    e.NoFiscalYear? || e.YearClosed? || e.AccountNotFound? || e.NotPostable? || e.DuplicateSource?
  }

  /** A stored template is never refused for its own lines. */
  lemma StoredTemplatesAreSound(s: Posting.State, source: Source, date: Option<int>, lines: seq<Line>, today: int)
    requires WellFormed(lines)
    ensures var r := Posting.PostIn(s, Posting.Request(source, date, lines, false), today);
      r.Err? ==> StateError(r.error)
  {
    Posting.TotalsNonNegative(lines);
  }

  // ---------- generating an entry ----------

  datatype Books = Books(ledger: Posting.State, templates: map<string, Template>)

  function EntryDate(t: Template, given: Option<int>, today: int): int {
    if given.Some? then given.value else t.nextRunOn.GetOr(today)
  }

  /** The period of the date is part of the document's key. */
  function RequestFor(id: string, t: Template, date: int): Posting.Request {
    var d := Calendar.ToJalali(date);
    Posting.Request(External(RecurringEntry(id, d.jy, d.jm)), Some(date), t.lines, false)
  }

  /** The next due date, which a manual template keeps. */
  function NextRun(t: Template, date: int): Result<Option<int>, Calendar.CalendarError> {
    if t.frequency.MANUAL? then Ok(t.nextRunOn)
    else match Calendar.AddJalaliMonths(date, t.frequency.Months())
      case Err(e) => Err(e)
      case Ok(next) => Ok(Some(next))
  }

  function Generate(b: Books, id: string, given: Option<int>, today: int): Result<Books, TemplateError> {
    if id !in b.templates then Err(NotFound)
    else if !b.templates[id].active then Err(Inactive)
    else
      var t := b.templates[id];
      var date := EntryDate(t, given, today);
      match Posting.PostIn(b.ledger, RequestFor(id, t, date), today)
      case Err(DuplicateSource) => Err(AlreadyIssued)
      case Err(e) => Err(Refused(e))
      case Ok(ledger) =>
        match NextRun(t, date)
        case Err(e) => Err(NoNextDate(e))
        case Ok(next) => Ok(Books(ledger, b.templates[id := t.(lastRunOn := Some(date), nextRunOn := next)]))
  }

  /** In the supported years a call fails only for the template's state or the ledger's, never for a missing day. */
  lemma GenerateExactly(b: Books, id: string, given: Option<int>, today: int)
    requires id in b.templates ==>
      Calendar.InCalendar(Calendar.MonthIndex(EntryDate(b.templates[id], given, today))
          + b.templates[id].frequency.Months())
    ensures Generate(b, id, given, today).Ok? <==>
      && id in b.templates && b.templates[id].active
      && Posting.Acceptable(b.ledger, RequestFor(id, b.templates[id], EntryDate(b.templates[id], given, today)), today)
  {
    hide Calendar.ToJalali, Calendar.AddJalaliMonths, Posting.PostIn, Posting.Acceptable, Calendar.InCalendar;
    if id in b.templates {
      var t := b.templates[id];
      var date := EntryDate(t, given, today);
      Posting.PostInExactly(b.ledger, RequestFor(id, t, date), today);
      if !t.frequency.MANUAL? { Calendar.AddMonthsExactly(date, t.frequency.Months()); }
    }
  }

  // ---------- runs of the books ----------

  datatype BookOp =
    | Issue(id: string, given: Option<int>)
    | SetActive(id: string, active: bool)
    | NewTemplate(id: string, lines: seq<Line>, frequency: Frequency, nextRunOn: Option<int>)
    | LedgerWork(op: LedgerRuns.Op)

  /** Recurring entries are posted from templates alone. */
  predicate Allowed(op: BookOp) {
    op.LedgerWork? && op.op.Post? ==> !op.op.doc.RecurringEntry?
  }

  function Create(b: Books, id: string, lines: seq<Line>, frequency: Frequency, nextRunOn: Option<int>)
    : Result<Books, TemplateError>
  {
    if !frequency.MANUAL? && nextRunOn.None? then Err(NoDueDate)
    else if !WellFormed(lines) then Err(NotBalanced)
    else Ok(b.(templates := b.templates[id := Template(lines, frequency, nextRunOn, None, true)]))
  }

  /** A failed operation leaves the books as they were; a new template always gets a fresh key. */
  function Step(b: Books, op: BookOp, today: int): Books {
    match op
    case Issue(id, given) => (match Generate(b, id, given, today) case Ok(t) => t case Err(_) => b)
    case SetActive(id, active) =>
      if id in b.templates then b.(templates := b.templates[id := b.templates[id].(active := active)]) else b
    case NewTemplate(id, lines, frequency, nextRunOn) =>
      if id in b.templates then b
      else (match Create(b, id, lines, frequency, nextRunOn) case Ok(t) => t case Err(_) => b)
    case LedgerWork(l) => b.(ledger := LedgerRuns.Step(b.ledger, l, today))
  }

  function Run(b: Books, ops: seq<(BookOp, int)>): Books {
    if ops == [] then b
    else
      var k := |ops| - 1;
      Step(Run(b, ops[..k]), ops[k].0, ops[k].1)
  }

  // ---------- the schedule ----------

  /** One entry posted from a template: its date, and the period of its document with the day of the month. */
  datatype Issued = Issued(date: int, period: Calendar.JalaliDate)

  /** What the journal holds from one template, in posting order. */
  function IssuedOf(entries: seq<Entry>, id: string): seq<Issued> {
    if entries == [] then []
    else
      var k := |entries| - 1;
      IssuedOf(entries[..k], id) + FromTemplate(entries[k], id)
  }

  function FromTemplate(e: Entry, id: string): seq<Issued> {
    if e.source.External? && e.source.doc.RecurringEntry? && e.source.doc.template == id
    then [Issued(e.date, Calendar.JalaliDate(e.source.doc.jy, e.source.doc.jm, Calendar.ToJalali(e.date).jd))]
    else []
  }

  predicate Follows(date: Calendar.JalaliDate, next: Calendar.JalaliDate, months: nat) {
    Calendar.IndexOf(next) == Calendar.IndexOf(date) + months && next.jd <= date.jd
  }

  /** The issues begin at the first due date, each a step after the one before, and the next is due a step on. */
  ghost predicate OnSchedule(first: Calendar.JalaliDate, months: nat, issues: seq<Issued>, next: Calendar.JalaliDate) {
    && (forall k :: 0 <= k < |issues| - 1 ==> Follows(issues[k].period, issues[k + 1].period, months))
    && (if issues == [] then next == first
        else issues[0].period == first && Follows(issues[|issues| - 1].period, next, months))
  }

  /** Every issue is dated in the period its document is keyed by. */
  ghost predicate OwnPeriods(issues: seq<Issued>) {
    forall k :: 0 <= k < |issues| ==> Calendar.ToJalali(issues[k].date) == issues[k].period
  }

  /** The template's own issues since `before` entries of it, with its present due date. */
  ghost predicate Keeps(b: Books, id: string, before: seq<Issued>, frequency: Frequency, first: int) {
    && id in b.templates && b.templates[id].frequency == frequency && b.templates[id].nextRunOn.Some?
    && before <= IssuedOf(b.ledger.entries, id)
    && OwnPeriods(IssuedOf(b.ledger.entries, id)[|before|..])
    && OnSchedule(Calendar.ToJalali(first), frequency.Months(), IssuedOf(b.ledger.entries, id)[|before|..],
                  Calendar.ToJalali(b.templates[id].nextRunOn.value))
  }

  lemma IssuedAppend(entries: seq<Entry>, e: Entry, id: string)
    ensures IssuedOf(entries + [e], id) == IssuedOf(entries, id) + FromTemplate(e, id)
  {
    assert (entries + [e])[..|entries|] == entries;
  }

  lemma {:induction false} IssuedMarked(a: seq<Entry>, b: seq<Entry>, id: string)
    requires |a| == |b| && forall i :: 0 <= i < |a| ==> LedgerRuns.SameOrMarked(a[i], b[i])
    ensures IssuedOf(a, id) == IssuedOf(b, id)
  {
    if a != [] {
      assert LedgerRuns.SameOrMarked(a[|a| - 1], b[|b| - 1]);
      IssuedMarked(a[..|a| - 1], b[..|b| - 1], id);
    }
  }

  /** An entry that no template wrote. */
  ghost predicate AddsNoIssue(a: seq<Entry>, b: seq<Entry>, id: string) {
    |b| <= |a| + 1 && forall i :: |a| <= i < |b| ==> FromTemplate(b[i], id) == []
  }

  lemma PostAdds(s: Posting.State, p: Posting.Request, today: int, id: string)
    requires Posting.PostIn(s, p, today).Ok? && !(p.source.External? && p.source.doc.RecurringEntry?)
    ensures AddsNoIssue(s.entries, Posting.PostIn(s, p, today).value.entries, id)
  {
  }

  lemma UndoAdds(s: Posting.State, i: nat, today: int, id: string)
    requires Posting.Reverse(s, i, today).Ok?
    ensures AddsNoIssue(s.entries, Posting.Reverse(s, i, today).value.entries, id)
  {
    PostAdds(s, Posting.ReversalRequest(s, i), today, id);
  }

  lemma LedgerWorkAdds(s: Posting.State, op: LedgerRuns.Op, today: int, id: string)
    requires op.Post? ==> !op.doc.RecurringEntry?
    ensures AddsNoIssue(s.entries, LedgerRuns.Step(s, op, today).entries, id)
  {
    if LedgerRuns.Perform(s, op, today).Ok? {
      match op {
        case Undo(i) => UndoAdds(s, i, today, id);
        case UndoSource(source) =>
          var found := Posting.ActiveEntry(s.entries, source);
          if found.Some? { UndoAdds(s, found.value, today, id); }
        case _ =>
      }
    }
  }

  lemma OtherEntryKeepsIssues(a: seq<Entry>, b: seq<Entry>, id: string)
    requires |a| <= |b| && AddsNoIssue(a, b, id)
    requires forall i :: 0 <= i < |a| ==> LedgerRuns.SameOrMarked(a[i], b[i])
    ensures IssuedOf(b, id) == IssuedOf(a, id)
  {
    hide FromTemplate, IssuedOf;
    var n := |a|;
    IssuedMarked(a, b[..n], id);
    if |b| > n {
      assert b == b[..n] + [b[n]];
      IssuedAppend(b[..n], b[n], id);
      assert IssuedOf(a, id) + [] == IssuedOf(a, id);
    } else {
      assert b == b[..n];
    }
  }

  lemma LedgerWorkKeepsIssues(s: Posting.State, op: LedgerRuns.Op, today: int, id: string)
    requires Invariant.Inv(s) && (op.Post? ==> !op.doc.RecurringEntry?)
    ensures IssuedOf(LedgerRuns.Step(s, op, today).entries, id) == IssuedOf(s.entries, id)
  {
    hide Invariant.Inv, AddsNoIssue, IssuedOf, LedgerRuns.Perform, LedgerRuns.SameOrMarked;
    if LedgerRuns.Perform(s, op, today).Ok? {
      LedgerRuns.PerformGrows(s, op, today);
      LedgerWorkAdds(s, op, today, id);
      OtherEntryKeepsIssues(s.entries, LedgerRuns.Step(s, op, today).entries, id);
    }
  }

  lemma ScheduleExtends(
      first: Calendar.JalaliDate, months: nat, issues: seq<Issued>, due: Calendar.JalaliDate, x: Issued,
          next: Calendar.JalaliDate)
    requires OnSchedule(first, months, issues, due) && x.period == due && Follows(due, next, months)
    ensures OnSchedule(first, months, issues + [x], next)
  {
    hide Follows;
  }

  lemma OwnPeriodsExtend(issues: seq<Issued>, x: Issued)
    requires OwnPeriods(issues) && Calendar.ToJalali(x.date) == x.period
    ensures OwnPeriods(issues + [x])
  {
    hide Calendar.ToJalali;
  }

  /** What a successful call does: one more issue, on the due date, and the due date moved on. */
  lemma GenerateIssues(b: Books, id: string, given: Option<int>, today: int)
    requires Generate(b, id, given, today).Ok?
    ensures id in b.templates
    ensures var t := b.templates[id]; var date := EntryDate(t, given, today);
      var r := Generate(b, id, given, today).value;
      var d := Calendar.ToJalali(date);
      && IssuedOf(r.ledger.entries, id) == IssuedOf(b.ledger.entries, id) + [Issued(date, d)]
      && r.ledger.entries == b.ledger.entries + [r.ledger.entries[|b.ledger.entries|]]
      && (var e := r.ledger.entries[|b.ledger.entries|]; e.lines == t.lines && e.date == date && e.status == POSTED)
      && r.templates[id] == t.(lastRunOn := Some(date), nextRunOn := r.templates[id].nextRunOn)
      && (t.frequency.MANUAL? ==> r.templates[id].nextRunOn == t.nextRunOn)
      && (forall other :: other != id ==> IssuedOf(r.ledger.entries, other) == IssuedOf(b.ledger.entries, other))
      && id in r.templates && r.templates[id].frequency == t.frequency
      && (!t.frequency.MANUAL? ==>
            r.templates[id].nextRunOn.Some?
              && Follows(d, Calendar.ToJalali(r.templates[id].nextRunOn.value), t.frequency.Months()))
      && (forall other :: other in b.templates && other != id ==>
        other in r.templates && r.templates[other] == b.templates[other])
  {
    hide Calendar.ToJalali, Calendar.AddJalaliMonths, IssuedOf;
    var t := b.templates[id];
    var date := EntryDate(t, given, today);
    var p := RequestFor(id, t, date);
    var e := Posting.PostAppends(b.ledger, p, today);
    IssuedAppend(b.ledger.entries, e, id);
    forall other | other != id ensures IssuedOf(b.ledger.entries + [e], other) == IssuedOf(b.ledger.entries, other) {
      IssuedAppend(b.ledger.entries, e, other);
      assert IssuedOf(b.ledger.entries, other) + [] == IssuedOf(b.ledger.entries, other);
    }
    if !t.frequency.MANUAL? { Calendar.AddMonthsNeverGrows(date, t.frequency.Months()); }
  }

  /** One step of a schedule, by name. */
  predicate NextByName(frequency: Frequency, date: Calendar.JalaliDate, next: Calendar.JalaliDate) {
    match frequency
    case MONTHLY => (next.jy, next.jm) == if date.jm == 12 then (date.jy + 1, 1) else (date.jy, date.jm + 1)
    case QUARTERLY => (next.jy, next.jm) == if date.jm >= 10 then (date.jy + 1, date.jm - 9) else (date.jy, date.jm + 3)
    case YEARLY => (next.jy, next.jm) == (date.jy + 1, date.jm)
    case MANUAL => true
  }

  lemma StepByName(frequency: Frequency, date: Calendar.JalaliDate, next: Calendar.JalaliDate)
    requires !frequency.MANUAL? && Follows(date, next, frequency.Months())
    requires 1 <= date.jm <= 12 && 1 <= next.jm <= 12
    ensures NextByName(frequency, date, next)
  {
  }

  lemma StepKeeps(b: Books, op: BookOp, today: int, id: string, before: seq<Issued>, frequency: Frequency, first: int)
    requires Invariant.Inv(b.ledger) && Allowed(op) && Keeps(b, id, before, frequency, first) && !frequency.MANUAL?
    requires op.Issue? && op.id == id ==> op.given.None?
    ensures Keeps(Step(b, op, today), id, before, frequency, first)
  {
    hide Invariant.Inv, IssuedOf, OnSchedule, OwnPeriods, Calendar.ToJalali, Follows, Generate, LedgerRuns.Step;
    match op {
      case Issue(i, given) =>
        if Generate(b, i, given, today).Ok? {
          GenerateIssues(b, i, given, today);
          if i == id { IssueKeeps(b, id, before, frequency, first, today); }
        }
      case LedgerWork(l) => LedgerWorkKeepsIssues(b.ledger, l, today, id);
      case _ =>
    }
  }

  lemma IssueKeeps(b: Books, id: string, before: seq<Issued>, frequency: Frequency, first: int, today: int)
    requires Keeps(b, id, before, frequency, first) && !frequency.MANUAL? && Generate(b, id, None, today).Ok?
    ensures Keeps(Generate(b, id, None, today).value, id, before, frequency, first)
  {
    hide IssuedOf, OnSchedule, OwnPeriods, Follows, Generate, Calendar.ToJalali;
    GenerateIssues(b, id, None, today);
    var r := Generate(b, id, None, today).value;
    var due := b.templates[id].nextRunOn.value;
    var d := Calendar.ToJalali(due);
    var x, all := Issued(due, d), IssuedOf(b.ledger.entries, id);
    ScheduleExtends(Calendar.ToJalali(first), frequency.Months(), all[|before|..], d, x,
                    Calendar.ToJalali(r.templates[id].nextRunOn.value));
    OwnPeriodsExtend(all[|before|..], x);
    assert (all + [x])[|before|..] == all[|before|..] + [x];
  }

  lemma StepKeepsInv(b: Books, op: BookOp, today: int)
    requires Invariant.Inv(b.ledger) && Allowed(op)
    ensures Invariant.Inv(Step(b, op, today).ledger)
  {
    hide Invariant.Inv, Posting.PostIn;
    match op {
      case Issue(id, given) =>
        if Generate(b, id, given, today).Ok? {
          Invariant.PostKeepsInv(b.ledger, RequestFor(id, b.templates[id], EntryDate(b.templates[id], given, today)),
              today);
        }
      case LedgerWork(l) =>
        if LedgerRuns.Perform(b.ledger, l, today).Ok? { LedgerRuns.PerformKeepsInv(b.ledger, l, today); }
      case _ =>
    }
  }

  /** No call in the run names a date for this template. */
  predicate DueDatesOnly(ops: seq<(BookOp, int)>, id: string) {
    forall x :: x in ops ==> Allowed(x.0) && (x.0.Issue? && x.0.id == id ==> x.0.given.None?)
  }

  /**
   The scheduler neither skips nor repeats. From any sound books, through any run of ledger work and
   template calls, failed ones included, the entries a scheduled template posts start at its due date
   and follow each other at exactly its step of Jalali months, the day of the month never growing.
   */
  lemma {:induction false} ScheduleHolds(b: Books, ops: seq<(BookOp, int)>, id: string)
    requires Invariant.Inv(b.ledger) && DueDatesOnly(ops, id)
    requires id in b.templates && !b.templates[id].frequency.MANUAL? && b.templates[id].nextRunOn.Some?
    ensures Invariant.Inv(Run(b, ops).ledger)
    ensures Keeps(Run(b, ops), id, IssuedOf(b.ledger.entries, id), b.templates[id].frequency,
        b.templates[id].nextRunOn.value)
  {
    hide Invariant.Inv, Step, Calendar.ToJalali;
    var before := IssuedOf(b.ledger.entries, id);
    if ops == [] {
      assert before[|before|..] == [];
    } else {
      hide Keeps;
      var k := |ops| - 1;
      assert ops[k] in ops && forall x :: x in ops[..k] ==> x in ops;
      ScheduleHolds(b, ops[..k], id);
      StepKeeps(Run(b, ops[..k]), ops[k].0, ops[k].1, id, before, b.templates[id].frequency,
          b.templates[id].nextRunOn.value);
      StepKeepsInv(Run(b, ops[..k]), ops[k].0, ops[k].1);
    }
  }

  /** A schedule is an arithmetic progression of months, so no two of its entries share a period. */
  lemma {:induction false} ScheduleIsProgression(
      first: Calendar.JalaliDate, months: nat, issues: seq<Issued>, next: Calendar.JalaliDate, k: nat)
    requires OnSchedule(first, months, issues, next) && k < |issues|
    ensures Calendar.IndexOf(issues[k].period) == Calendar.IndexOf(first) + k * months
    ensures issues[k].period.jd <= first.jd
  {
    if k > 0 {
      ScheduleIsProgression(first, months, issues, next, k - 1);
      assert Follows(issues[k - 1].period, issues[k - 1 + 1].period, months);
      assert k * months == (k - 1) * months + months;
    }
  }

  /**
   What the frequencies mean. Over any run with due dates only, each entry of a monthly template is dated
   in the month after the one before it, of a quarterly one in the next quarter, of a yearly one in the
   same month of the next year; and so is the date that is due after the last of them.
   */
  lemma EntriesStepByName(b: Books, ops: seq<(BookOp, int)>, id: string, k: nat)
    requires Invariant.Inv(b.ledger) && DueDatesOnly(ops, id)
    requires id in b.templates && !b.templates[id].frequency.MANUAL? && b.templates[id].nextRunOn.Some?
    requires k < |IssuedOf(Run(b, ops).ledger.entries, id)| - |IssuedOf(b.ledger.entries, id)|
    ensures id in Run(b, ops).templates && Run(b, ops).templates[id].nextRunOn.Some?
    ensures var issues := IssuedOf(Run(b, ops).ledger.entries, id)[|IssuedOf(b.ledger.entries, id)|..];
      var date := issues[k].date;
      var next := if k + 1 < |issues| then issues[k + 1].date else Run(b, ops).templates[id].nextRunOn.value;
      && NextByName(b.templates[id].frequency, Calendar.ToJalali(date), Calendar.ToJalali(next))
      && (b.templates[id].frequency == QUARTERLY ==>
            var (jy, quarter) := Calendar.QuarterOf(date);
            Calendar.QuarterOf(next) == if quarter == 4 then (jy + 1, 1) else (jy, quarter + 1))
  {
    hide Run, IssuedOf, Calendar.ToJalali, Invariant.Inv, OnSchedule, OwnPeriods, Follows, DueDatesOnly, NextByName;
    ScheduleHolds(b, ops, id);
    var issues := IssuedOf(Run(b, ops).ledger.entries, id)[|IssuedOf(b.ledger.entries, id)|..];
    var date := issues[k].date;
    var next := if k + 1 < |issues| then issues[k + 1].date else Run(b, ops).templates[id].nextRunOn.value;
    Calendar.DateOfDay(date);
    Calendar.DateOfDay(next);
    EachFollows(Calendar.ToJalali(b.templates[id].nextRunOn.value), b.templates[id].frequency.Months(), issues,
                Calendar.ToJalali(Run(b, ops).templates[id].nextRunOn.value), k);
    StepByName(b.templates[id].frequency, Calendar.ToJalali(date), Calendar.ToJalali(next));
    if b.templates[id].frequency.QUARTERLY? {
      QuarterByName(Calendar.ToJalali(date), Calendar.ToJalali(next));
    }
  }

  lemma QuarterByName(date: Calendar.JalaliDate, next: Calendar.JalaliDate)
    requires NextByName(QUARTERLY, date, next) && 1 <= date.jm <= 12 && 1 <= next.jm <= 12
    ensures var quarter := (date.jm - 1) / 3 + 1;
      (next.jy, (next.jm - 1) / 3 + 1) == if quarter == 4 then (date.jy + 1, 1) else (date.jy, quarter + 1)
  {
  }

  lemma EachFollows(first: Calendar.JalaliDate, months: nat, issues: seq<Issued>, due: Calendar.JalaliDate, k: nat)
    requires OnSchedule(first, months, issues, due) && OwnPeriods(issues) && k < |issues|
    ensures Follows(Calendar.ToJalali(issues[k].date),
                    if k + 1 < |issues| then Calendar.ToJalali(issues[k + 1].date) else due, months)
  {
    hide Calendar.ToJalali, Follows;
  }

  lemma PeriodsDiffer(
      first: Calendar.JalaliDate, months: nat, issues: seq<Issued>, next: Calendar.JalaliDate, i: nat, k: nat)
    requires OnSchedule(first, months, issues, next) && months > 0 && i < k < |issues|
    ensures (issues[i].period.jy, issues[i].period.jm) != (issues[k].period.jy, issues[k].period.jm)
  {
    ScheduleIsProgression(first, months, issues, next, i);
    ScheduleIsProgression(first, months, issues, next, k);
    assert i * months < k * months;
  }

  // ---------- what is checked when a template is stored ----------

  /** Nothing is left after `trim`. */
  predicate Blank(s: string) { forall c :: c in s ==> IsSpace(c) }

  /** A frequency that is not given is monthly. */
  function FrequencyOf(name: Option<string>): Option<Frequency> {
    match name.GetOr("MONTHLY")
    case "MONTHLY" => Some(MONTHLY)
    case "QUARTERLY" => Some(QUARTERLY)
    case "YEARLY" => Some(YEARLY)
    case "MANUAL" => Some(MANUAL)
    case _ => None
  }

  /** Each frequency has its own name, and no name means every month. */
  lemma FrequencyNames(name: string)
    ensures FrequencyOf(Some(name)) == Some(MONTHLY) <==> name == "MONTHLY"
    ensures FrequencyOf(Some(name)) == Some(QUARTERLY) <==> name == "QUARTERLY"
    ensures FrequencyOf(Some(name)) == Some(YEARLY) <==> name == "YEARLY"
    ensures FrequencyOf(Some(name)) == Some(MANUAL) <==> name == "MANUAL"
    ensures FrequencyOf(None) == Some(MONTHLY)
  {
  }

  /** The first objection to what the form holds beside the lines. */
  function FormProblem(title: string, description: string, frequency: Option<string>, nextRunOn: Option<int>)
    : (r: Option<TemplateError>)
  {
    if Blank(title) then Some(NoTitle)
    else if Blank(description) then Some(NoDescription)
    else match FrequencyOf(frequency)
      case None => Some(BadFrequency)
      case Some(f) => if !f.MANUAL? && nextRunOn.None? then Some(NoDueDate) else None
  }

  // ---------- the service ----------

  class TemplateService {
    var templates: map<string, Template>
    const ledger: Ledger

    function View(): Books
      reads this, ledger
    {
      Books(ledger.View(), templates)
    }

    constructor (ledger: Ledger)
      ensures this.ledger == ledger && templates == map[]
    {
      this.ledger := ledger;
      templates := map[];
    }

    /** The form first, then the lines; whatever is wrong first decides the error. */
    method Create(id: string, title: string, description: string, lines: seq<Line>, frequency: Option<string>,
                  nextRunOn: Option<int>)
      returns (r: Result<(), TemplateError>)
      requires id !in templates
      modifies this
      ensures match FormProblem(title, description, frequency, nextRunOn)
        case Some(e) => r == Err(e)
        case None => Verdict(lines, r)
      ensures r.Ok? <==>
        && !Blank(title) && !Blank(description) && WellFormed(lines)
        && (var f := FrequencyOf(frequency); f.Some? && (f.value.MANUAL? || nextRunOn.Some?))
      ensures templates ==
        if r.Ok? then old(templates)[id := Template(lines, FrequencyOf(frequency).value, nextRunOn, None, true)]
        else old(templates)
    {
      hide Verdict, WellFormed;
      var problem := FormProblem(title, description, frequency, nextRunOn);
      if problem.Some? { return Err(problem.value); }
      r := AssertBalanced(lines);
      if r.Ok? { templates := templates[id := Template(lines, FrequencyOf(frequency).value, nextRunOn, None, true)]; }
    }

    method SetActive(id: string, active: bool) returns (r: Result<(), TemplateError>)
      modifies this
      ensures r.Ok? <==> id in old(templates)
      ensures templates == if r.Ok? then old(templates)[id := old(templates)[id].(active := active)] else old(templates)
    {
      if id !in templates { return Err(NotFound); }
      templates := templates[id := templates[id].(active := active)];
      r := Ok(());
    }

    /** Posts the entry, then moves the due date on; a date that cannot be found undoes the posting. */
    method Issue(id: string, given: Option<int>, today: int) returns (r: Result<Books, TemplateError>)
      modifies this, ledger
      ensures r == Generate(old(View()), id, given, today)
      ensures View() == if r.Ok? then r.value else old(View())
      ensures old(ledger.Sound()) ==> ledger.Sound()
    {
      if id !in templates { return Err(NotFound); }
      var t := templates[id];
      if !t.active { return Err(Inactive); }
      var date := EntryDate(t, given, today);
      var savedAccounts, savedEntries := ledger.accounts, ledger.entries;
      var posted := ledger.PostIn(RequestFor(id, t, date), today);
      if posted.Err? {
        return Err(if posted.error.DuplicateSource? then AlreadyIssued else Refused(posted.error));
      }
      var next := NextRun(t, date);
      if next.Err? {
        ledger.accounts, ledger.entries := savedAccounts, savedEntries;
        return Err(NoNextDate(next.error));
      }
      templates := templates[id := t.(lastRunOn := Some(date), nextRunOn := next.value)];
      r := Ok(View());
    }
  }
}
