/**
 Posting and reversing journal entries: the state transitions of the general ledger
 as functions on values, with the database's keys and triggers written out as guards.
 */
module Posting {
  import opened Common
  import opened Journal

  /** Account codes in creation order, the account rows, the fiscal years, the journal. */
  datatype State = State(codes: seq<string>, accounts: map<string, Account>, years: seq<Year>, entries: seq<Entry>)

  datatype Error =
    | NotFound | NoLines | NoFiscalYear | YearClosed | AccountNotFound | NotPostable
    | Unbalanced | ZeroTotal | DuplicateSource | NotOneSided | NegativeAmount
    | AlreadyReversed | AlreadyClosed | DraftsRemain | NoPreviousYear | PreviousYearOpen
    | LedgerDrift | AlreadyDisposed | DuplicateAccount | DuplicateYear | BadRange | Overlap

  datatype Request = Request(source: Source, date: Option<int>, lines: seq<Line>, allowClosedYear: bool)

  // ---------- lookups ----------

  /** The fiscal year a date falls in. */
  function YearOf(years: seq<Year>, date: int): (r: Option<nat>)
    ensures r.Some? ==> r.value < |years| && years[r.value].Holds(date)
    ensures r.None? ==> forall i :: 0 <= i < |years| ==> !years[i].Holds(date)
  {
    if years == [] then None
    else
      var k := |years| - 1;
      if years[k].Holds(date) then Some(k) else YearOf(years[..k], date)
  }

  function MaxNo(entries: seq<Entry>): (r: nat)
    ensures forall e :: e in entries ==> e.no <= r
    ensures entries == [] ==> r == 0
    ensures entries != [] ==> exists e :: e in entries && e.no == r
  {
    if entries == [] then 0
    else
      var k := |entries| - 1;
      assert entries == entries[..k] + [entries[k]];
      var rest := MaxNo(entries[..k]);
      if entries[k].no > rest || k == 0 then entries[k].no else rest
  }

  /** The unique index on (sourceType, sourceId), which REVERSED entries leave. */
  predicate Taken(entries: seq<Entry>, source: Source) {
    source.HasKey() && exists e :: e in entries && e.source == source && !e.status.REVERSED?
  }

  /** The first line the loop or the row check refuses. */
  function FirstFault(lines: seq<Line>): (r: Option<Error>)
    ensures r.None? <==> forall l :: l in lines ==> OneSided(l)
  {
    if lines == [] then None
    else
      var k := |lines| - 1;
      assert lines == lines[..k] + [lines[k]];
      assert lines[k] in lines && forall l :: l in lines[..k] ==> l in lines;
      var earlier := FirstFault(lines[..k]);
      if earlier.Some? then earlier else LineFault(lines[k])
  }

  lemma {:induction false} FaultsOfLines(lines: seq<Line>)
    ensures FirstFault(lines).Some? ==> FirstFault(lines).value.NotOneSided? || FirstFault(lines).value.NegativeAmount?
  {
    if lines != [] { FaultsOfLines(lines[..|lines| - 1]); }
  }

  function LineFault(l: Line): (r: Option<Error>)
    ensures r.None? <==> OneSided(l)
  {
    if (l.debit == 0) == (l.credit == 0) then Some(NotOneSided)
    else if l.debit < 0 || l.credit < 0 then Some(NegativeAmount)
    else None
  }

  predicate OneSided(l: Line) {
    l.debit >= 0 && l.credit >= 0 && (l.debit == 0) != (l.credit == 0)
  }

  // ---------- the cached balance ----------

  function Movement(kind: Kind, debit: int, credit: int): int {
    if kind.DebitNature() then debit - credit else credit - debit
  }

  function Apply(accounts: map<string, Account>, l: Line): map<string, Account>
    requires l.account in accounts
  {
    var a := accounts[l.account];
    accounts[l.account := a.(balance := a.balance + Movement(a.kind, l.debit, l.credit))]
  }

  /** Line after line, as the posting loop does it. */
  function ApplyAll(accounts: map<string, Account>, lines: seq<Line>): (r: map<string, Account>)
    requires forall l :: l in lines ==> l.account in accounts
    ensures r.Keys == accounts.Keys
    ensures forall c :: c in accounts ==>
      && r[c].kind == accounts[c].kind && r[c].postable == accounts[c].postable
      && r[c].balance == accounts[c].balance
           + Movement(accounts[c].kind, Posted(lines, c, DebitSide), Posted(lines, c, CreditSide))
  {
    if lines == [] then accounts
    else
      var k := |lines| - 1;
      assert lines[k] in lines;
      Apply(ApplyAll(accounts, lines[..k]), lines[k])
  }

  // ---------- posting ----------

  /** The checks in the order they are made, the database's own last. */
  function Refusal(s: State, p: Request, today: int): (r: Option<Error>)
    ensures r.None? ==> YearOf(s.years, p.date.GetOr(today)).Some?
    ensures r.None? ==> forall l :: l in p.lines ==> l.account in s.accounts
  {
    var year := YearOf(s.years, p.date.GetOr(today));
    if p.lines == [] then Some(NoLines)
    else if year.None? then Some(NoFiscalYear)
    else if s.years[year.value].closed && !p.allowClosedYear then Some(YearClosed)
    else if exists l :: l in p.lines && l.account !in s.accounts then Some(AccountNotFound)
    else if exists l :: l in p.lines && !s.accounts[l.account].postable then Some(NotPostable)
    else if SideTotal(p.lines, DebitSide) != SideTotal(p.lines, CreditSide) then Some(Unbalanced)
    else if SideTotal(p.lines, DebitSide) == 0 then Some(ZeroTotal)
    else if s.years[year.value].closed then Some(YearClosed)  // trigger on INSERT
    else if Taken(s.entries, p.source) then Some(DuplicateSource)
    else FirstFault(p.lines)
  }

  function NewEntry(s: State, p: Request, today: int): Entry
    requires YearOf(s.years, p.date.GetOr(today)).Some?
  {
    var date := p.date.GetOr(today);
    Entry(MaxNo(s.entries) + 1, YearOf(s.years, date).value, date, p.source, POSTED, p.lines)
  }

  function Append(s: State, e: Entry): State
    requires forall l :: l in e.lines ==> l.account in s.accounts
  {
    s.(accounts := ApplyAll(s.accounts, e.lines), entries := s.entries + [e])
  }

  function PostIn(s: State, p: Request, today: int): Result<State, Error> {
    match Refusal(s, p, today)
    case Some(e) => Err(e)
    case None => Ok(Append(s, NewEntry(s, p, today)))
  }

  /** Everything a request must meet; nothing else is checked. */
  ghost predicate Acceptable(s: State, p: Request, today: int) {
    && p.lines != []
    && (var y := YearOf(s.years, p.date.GetOr(today)); y.Some? && !s.years[y.value].closed)
    && (forall l :: l in p.lines ==> l.account in s.accounts && s.accounts[l.account].postable && OneSided(l))
    && BalancedLines(p.lines)
    && !Taken(s.entries, p.source)
  }

  lemma {:induction false} TotalsNonNegative(lines: seq<Line>)
    requires forall l :: l in lines ==> OneSided(l)
    ensures SideTotal(lines, DebitSide) >= 0 && SideTotal(lines, CreditSide) >= 0
    ensures lines != [] ==> SideTotal(lines, DebitSide) + SideTotal(lines, CreditSide) > 0
  {
    if lines != [] {
      assert lines[|lines| - 1] in lines;
      TotalsNonNegative(lines[..|lines| - 1]);
    }
  }

  /** A request is posted if and only if it is acceptable; `allowClosedYear` changes nothing. */
  lemma PostInExactly(s: State, p: Request, today: int)
    ensures PostIn(s, p, today).Ok? <==> Acceptable(s, p, today)
  {
    if Acceptable(s, p, today) {
      TotalsNonNegative(p.lines);
    }
  }

  /** When only a line is at fault, the posting fails with that line's error. */
  lemma LineFaultRefuses(s: State, p: Request, today: int)
    requires p.lines != [] && !p.allowClosedYear
    requires var y := YearOf(s.years, p.date.GetOr(today)); y.Some? && !s.years[y.value].closed
    requires forall l :: l in p.lines ==> l.account in s.accounts && s.accounts[l.account].postable
    requires BalancedLines(p.lines) && SideTotal(p.lines, DebitSide) != 0
    requires !Taken(s.entries, p.source) && FirstFault(p.lines).Some?
    ensures PostIn(s, p, today) == Err(FirstFault(p.lines).value)
  {
  }

  /** `t` is `s` with one more entry `e`, posted into an open year. */
  ghost predicate Appends(s: State, e: Entry, t: State) {
    && (forall l :: l in e.lines ==> l.account in s.accounts && s.accounts[l.account].postable && OneSided(l))
    && t == Append(s, e)
    && e.no == MaxNo(s.entries) + 1 && e.status == POSTED
    && e.year < |s.years| && s.years[e.year].Holds(e.date) && !s.years[e.year].closed
    && YearOf(s.years, e.date) == Some(e.year)
    && e.lines != [] && BalancedLines(e.lines)
    && !Taken(s.entries, e.source)
  }

  /** What a successful posting adds. */
  lemma PostAppends(s: State, p: Request, today: int) returns (e: Entry)
    requires PostIn(s, p, today).Ok?
    ensures Appends(s, e, PostIn(s, p, today).value)
    ensures e.source == p.source && e.lines == p.lines && e.date == p.date.GetOr(today)
  {
    PostInExactly(s, p, today);
    e := NewEntry(s, p, today);
  }

  lemma OneLineIsUnbalanced(l: Line)
    requires OneSided(l)
    ensures !BalancedLines([l])
  {
    PostedAppend([], l, "", DebitSide);
    PostedAppend([], l, "", CreditSide);
    assert [] + [l] == [l];
  }

  /** The trigger that wants two lines never fires: the balance already forces them. */
  lemma PostedEntriesHaveTwoLines(s: State, p: Request, today: int)
    ensures PostIn(s, p, today).Ok? ==> |p.lines| >= 2
  {
    if |p.lines| == 1 && OneSided(p.lines[0]) {
      assert p.lines == [p.lines[0]];
      OneLineIsUnbalanced(p.lines[0]);
    }
    PostInExactly(s, p, today);
  }

  // ---------- reversing ----------

  function ReversalRequest(s: State, i: nat): Request
    requires i < |s.entries|
  {
    Request(ReversalOf(i), None, Swapped(s.entries[i].lines), false)
  }

  function Reverse(s: State, i: nat, today: int): Result<State, Error> {
    if i >= |s.entries| then Err(NotFound)
    else if s.entries[i].status.REVERSED? then Err(AlreadyReversed)
    else match PostIn(s, ReversalRequest(s, i), today)
      case Err(e) => Err(e)
      case Ok(posted) =>
        var original := s.entries[i];
        if original.year < |s.years| && s.years[original.year].closed then Err(YearClosed)  // trigger on UPDATE
        else Ok(posted.(entries := posted.entries[i := original.(status := REVERSED)]))
  }

  /** The live entry of a source document, if it has one. */
  function ActiveEntry(entries: seq<Entry>, source: Source): (r: Option<nat>)
    ensures r.Some? ==>
      r.value < |entries| && entries[r.value].source == source && !entries[r.value].status.REVERSED?
    ensures r.None? ==>
      forall e :: e in entries ==> e.source == source ==> e.status.REVERSED?
  {
    if entries == [] then None
    else
      var k := |entries| - 1;
      assert entries == entries[..k] + [entries[k]];
      var earlier := ActiveEntry(entries[..k], source);
      if earlier.Some? then earlier
      else if entries[k].source == source && !entries[k].status.REVERSED? then Some(k)
      else None
  }

  /** A document without an entry is passed over in silence. */
  function ReverseBySource(s: State, source: Source, today: int): Result<State, Error> {
    match ActiveEntry(s.entries, source)
    case None => Ok(s)
    case Some(i) => Reverse(s, i, today)
  }
}
