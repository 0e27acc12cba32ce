/**
 Fiscal years: creating them, the closing entry, the opening entry.
 */
module FiscalYears {
  import opened Common
  import opened Journal
  import opened Posting

  /** The account that takes each year's profit or loss. */
  const RETAINED := "3102"

  function CreateAccount(s: State, code: string, kind: Kind, balance: int): Result<State, Error> {
    if code in s.accounts then Err(DuplicateAccount)
    else Ok(s.(codes := s.codes + [code], accounts := s.accounts[code := Account(kind, true, balance)]))
  }

  predicate Overlaps(a: Year, b: Year) { a.startsOn <= b.endsOn && b.startsOn <= a.endsOn }

  function CreateFiscalYear(s: State, code: string, startsOn: int, endsOn: int): Result<State, Error> {
    var y := Year(code, startsOn, endsOn, false);
    if endsOn <= startsOn then Err(BadRange)
    else if exists x :: x in s.years && x.code == code then Err(DuplicateYear)
    else if exists x :: x in s.years && Overlaps(x, y) then Err(Overlap)
    else Ok(s.(years := s.years + [y]))
  }

  // ---------- closing ----------

  predicate TemporaryCode(s: State, code: string) {
    code in s.accounts && s.accounts[code].kind.Temporary()
  }

  /** The line that empties an account whose net is `net`. */
  function ClosingLine(code: string, net: int): Line {
    if net < 0 then Line(code, -net, 0) else Line(code, 0, net)
  }

  /** One line for each revenue or expense account that is not already empty. */
  function ClosingLines(s: State, codes: seq<string>, y: nat): seq<Line> {
    if codes == [] then []
    else
      var k := |codes| - 1;
      var net := Net(s.entries, InYear(y), codes[k]);
      ClosingLines(s, codes[..k], y)
        + (if TemporaryCode(s, codes[k]) && net != 0 then [ClosingLine(codes[k], net)] else [])
  }

  /** Revenue less expense: the nets with their sign turned. */
  function NetIncome(s: State, codes: seq<string>, y: nat): int {
    if codes == [] then 0
    else
      var k := |codes| - 1;
      NetIncome(s, codes[..k], y) - (if TemporaryCode(s, codes[k]) then Net(s.entries, InYear(y), codes[k]) else 0)
  }

  function RetainedLine(income: int): Line {
    if income >= 0 then Line(RETAINED, 0, income) else Line(RETAINED, -income, 0)
  }

  function ClosingRequest(s: State, y: nat): Request
    requires y < |s.years|
  {
    Request(ClosingOf(y), Some(s.years[y].endsOn),
            ClosingLines(s, s.codes, y) + [RetainedLine(NetIncome(s, s.codes, y))], false)
  }

  predicate HasDrafts(s: State, y: nat) {
    exists e :: e in s.entries && e.year == y && e.status.DRAFT?
  }

  function MarkClosed(s: State, y: nat): State
    requires y < |s.years|
  {
    s.(years := s.years[y := s.years[y].(closed := true)])
  }

  function CloseFiscalYear(s: State, y: nat, today: int): Result<State, Error> {
    if y >= |s.years| then Err(NotFound)
    else if s.years[y].closed then Err(AlreadyClosed)
    else if HasDrafts(s, y) then Err(DraftsRemain)
    else if ClosingLines(s, s.codes, y) == [] then Ok(MarkClosed(s, y))
    else match PostIn(s, ClosingRequest(s, y), today)
      case Err(e) => Err(e)
      case Ok(posted) => Ok(posted.(years := s.years[y := s.years[y].(closed := true)]))
  }

  // ---------- opening ----------

  /** The year that ends last before a date. */
  function PreviousYear(years: seq<Year>, date: int): (r: Option<nat>)
    ensures r.Some? ==> r.value < |years| && years[r.value].endsOn < date
    ensures r.Some? ==> forall i :: 0 <= i < |years| && years[i].endsOn < date ==>
        years[i].endsOn <= years[r.value].endsOn
    ensures r.None? ==> forall i :: 0 <= i < |years| ==> years[i].endsOn >= date
  {
    if years == [] then None
    else
      var k := |years| - 1;
      var earlier := PreviousYear(years[..k], date);
      if years[k].endsOn < date && (earlier.None? || years[earlier.value].endsOn < years[k].endsOn) then Some(k)
      else earlier
  }

  function OpeningLine(code: string, net: int): Line {
    if net > 0 then Line(code, net, 0) else Line(code, 0, -net)
  }

  function UpTo(date: int): Filter { Dated(None, Some(date)) }

  /** One line for each asset, liability or equity account with a balance on that day. */
  function OpeningLines(s: State, codes: seq<string>, lastDay: int): seq<Line> {
    if codes == [] then []
    else
      var k := |codes| - 1;
      var net := Net(s.entries, UpTo(lastDay), codes[k]);
      OpeningLines(s, codes[..k], lastDay)
        + (if codes[k] in s.accounts && !TemporaryCode(s, codes[k]) && net != 0
           then [OpeningLine(codes[k], net)] else [])
  }

  function Drift(lines: seq<Line>): int {
    SideTotal(lines, DebitSide) - SideTotal(lines, CreditSide)
  }

  function OpenFiscalYear(s: State, y: nat, today: int): Result<State, Error> {
    if y >= |s.years| then Err(NotFound)
    else if s.years[y].closed then Err(YearClosed)
    else match PreviousYear(s.years, s.years[y].startsOn)
      case None => Err(NoPreviousYear)
      case Some(p) =>
        if !s.years[p].closed then Err(PreviousYearOpen)
        else
          var lines := OpeningLines(s, s.codes, s.years[p].endsOn);
          if lines == [] then Ok(s)
          else if Drift(lines) != 0 then Err(LedgerDrift)
          else PostIn(s, Request(OpeningOf(y), Some(s.years[y].startsOn), lines, false), today)
  }
}
