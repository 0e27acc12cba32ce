/**
 Journal lines and entries, and the sums every report takes over them.
 Amounts are integer cents; dates are day numbers.
 */
module Journal {
  import opened Common

  datatype Kind = ASSET | LIABILITY | EQUITY | REVENUE | EXPENSE {
    /** Balances of these accounts grow with a debit. */
    predicate DebitNature() { ASSET? || EXPENSE? }

    /** Revenue and expense accounts are emptied by the year-end closing. */
    predicate Temporary() { REVENUE? || EXPENSE? }
  }

  datatype Account = Account(kind: Kind, postable: bool, balance: int)

  /** A fiscal year holds its first and its last day. */
  datatype Year = Year(code: string, startsOn: int, endsOn: int, closed: bool) {
    predicate Holds(date: int) { startsOn <= date <= endsOn }
  }

  datatype Line = Line(account: string, debit: int, credit: int)

  datatype Side = DebitSide | CreditSide

  datatype Status = DRAFT | POSTED | REVERSED

  /** The business document behind an entry posted by another subsystem. */
  datatype Document =
    | Unkeyed(docType: string)
    | Keyed(docType: string, docId: string)
    | AssetAcquisition(asset: nat)
    | AssetDepreciation(period: int, part: nat)
    | AssetDisposal(asset: nat)
    | RecurringEntry(template: string, jy: int, jm: int)

  /** `sourceType` and `sourceId` together; only `Unkeyed` has no `sourceId`. */
  datatype Source =
    | External(doc: Document)
    | ReversalOf(entry: nat)
    | ClosingOf(year: nat)
    | OpeningOf(year: nat)
  {
    predicate HasKey() { !(External? && doc.Unkeyed?) }
  }

  datatype Entry = Entry(no: nat, year: nat, date: int, source: Source, status: Status, lines: seq<Line>)

  /** What a report keeps: a range of entry dates, or the entries of one fiscal year. */
  datatype Filter = Dated(from: Option<int>, to: Option<int>) | InYear(year: nat) {
    predicate Keeps(e: Entry) {
      && !e.status.DRAFT?
      && match this
         case Dated(from, to) =>
           (from.Some? ==> from.value <= e.date) && (to.Some? ==> e.date <= to.value)
         case InYear(y) => e.year == y
    }
  }

  const Everything: Filter := Dated(None, None)

  // ---------- sums over lines and entries ----------

  function Amount(l: Line, side: Side): int {
    match side
    case DebitSide => l.debit
    case CreditSide => l.credit
  }

  /** What the lines put on one side of one account. */
  function Posted(lines: seq<Line>, code: string, side: Side): int {
    if lines == [] then 0
    else
      var k := |lines| - 1;
      Posted(lines[..k], code, side) + (if lines[k].account == code then Amount(lines[k], side) else 0)
  }

  function PostedNet(lines: seq<Line>, code: string): int {
    Posted(lines, code, DebitSide) - Posted(lines, code, CreditSide)
  }

  /** What the lines put on one side, whatever the account. */
  function SideTotal(lines: seq<Line>, side: Side): int {
    if lines == [] then 0
    else
      var k := |lines| - 1;
      SideTotal(lines[..k], side) + Amount(lines[k], side)
  }

  /** One side of one account over the entries a filter keeps. */
  function Turnover(entries: seq<Entry>, f: Filter, code: string, side: Side): int {
    if entries == [] then 0
    else
      var k := |entries| - 1;
      Turnover(entries[..k], f, code, side)
        + (if f.Keeps(entries[k]) then Posted(entries[k].lines, code, side) else 0)
  }

  function Net(entries: seq<Entry>, f: Filter, code: string): int {
    Turnover(entries, f, code, DebitSide) - Turnover(entries, f, code, CreditSide)
  }

  function JournalTotal(entries: seq<Entry>, f: Filter, side: Side): int {
    if entries == [] then 0
    else
      var k := |entries| - 1;
      JournalTotal(entries[..k], f, side)
        + (if f.Keeps(entries[k]) then SideTotal(entries[k].lines, side) else 0)
  }

  // ---------- double-entry: accounts and lines give the same totals ----------

  predicate AccountsIn(lines: seq<Line>, codes: seq<string>) {
    forall l :: l in lines ==> l.account in codes
  }

  lemma {:induction false} ChartTotalsLines(codes: seq<string>, lines: seq<Line>, side: Side)
    requires Distinct(codes) && AccountsIn(lines, codes)
    ensures SumOver(codes, c => Posted(lines, c, side)) == SideTotal(lines, side)
  {
    if lines == [] {
      SumOverPlus(codes, c => 0, c => 0, c => 0);
      SumOverEqual(codes, c => Posted(lines, c, side), c => 0);
    } else {
      var k := |lines| - 1;
      ChartTotalsLines(codes, lines[..k], side);
      assert lines[k] in lines;
      SumOverPoint(codes, c => Posted(lines[..k], c, side), c => Posted(lines, c, side),
                   lines[k].account, Amount(lines[k], side));
    }
  }

  /** Grouping the journal by account and adding the groups loses nothing. */
  lemma {:induction false} ChartTotalsJournal(codes: seq<string>, entries: seq<Entry>, f: Filter, side: Side)
    requires Distinct(codes)
    requires forall e :: e in entries ==> AccountsIn(e.lines, codes)
    ensures SumOver(codes, c => Turnover(entries, f, c, side)) == JournalTotal(entries, f, side)
  {
    if entries == [] {
      SumOverPlus(codes, c => 0, c => 0, c => 0);
      SumOverEqual(codes, c => Turnover(entries, f, c, side), c => 0);
    } else {
      var k := |entries| - 1;
      var e := entries[k];
      assert e in entries;
      ChartTotalsJournal(codes, entries[..k], f, side);
      if f.Keeps(e) {
        ChartTotalsLines(codes, e.lines, side);
        SumOverPlus(codes, c => Turnover(entries[..k], f, c, side), c => Posted(e.lines, c, side),
                    c => Turnover(entries, f, c, side));
      } else {
        SumOverEqual(codes, c => Turnover(entries[..k], f, c, side), c => Turnover(entries, f, c, side));
      }
    }
  }

  ghost predicate BalancedLines(lines: seq<Line>) {
    SideTotal(lines, DebitSide) == SideTotal(lines, CreditSide)
  }

  lemma {:induction false} BalancedJournal(entries: seq<Entry>, f: Filter)
    requires forall e :: e in entries ==> BalancedLines(e.lines)
    ensures JournalTotal(entries, f, DebitSide) == JournalTotal(entries, f, CreditSide)
  {
    if entries != [] {
      assert entries[|entries| - 1] in entries;
      BalancedJournal(entries[..|entries| - 1], f);
    }
  }

  /** Over a balanced journal the nets of all accounts cancel, for every filter. */
  lemma NetsCancel(codes: seq<string>, entries: seq<Entry>, f: Filter)
    requires Distinct(codes)
    requires forall e :: e in entries ==> AccountsIn(e.lines, codes) && BalancedLines(e.lines)
    ensures SumOver(codes, c => Net(entries, f, c)) == 0
  {
    ChartTotalsJournal(codes, entries, f, DebitSide);
    ChartTotalsJournal(codes, entries, f, CreditSide);
    BalancedJournal(entries, f);
    SumOverPlus(codes, c => Net(entries, f, c), c => Turnover(entries, f, c, CreditSide),
                c => Turnover(entries, f, c, DebitSide));
  }

  // ---------- how the sums change when the journal changes ----------

  lemma TurnoverAppend(entries: seq<Entry>, e: Entry, f: Filter, code: string, side: Side)
    ensures Turnover(entries + [e], f, code, side)
         == Turnover(entries, f, code, side) + (if f.Keeps(e) then Posted(e.lines, code, side) else 0)
  {
    assert (entries + [e])[..|entries|] == entries;
  }

  lemma NetAppend(entries: seq<Entry>, e: Entry, f: Filter, code: string)
    ensures Net(entries + [e], f, code)
         == Net(entries, f, code) + (if f.Keeps(e) then PostedNet(e.lines, code) else 0)
  {
    TurnoverAppend(entries, e, f, code, DebitSide);
    TurnoverAppend(entries, e, f, code, CreditSide);
  }

  /** Two journals with the same lines, dates, years and draft flags give the same sums. */
  ghost predicate SameFigures(a: seq<Entry>, b: seq<Entry>) {
    && |a| == |b|
    && forall i :: 0 <= i < |a| ==>
         && a[i].lines == b[i].lines && a[i].date == b[i].date && a[i].year == b[i].year
         && (a[i].status.DRAFT? <==> b[i].status.DRAFT?)
  }

  lemma {:induction false} TurnoverSameFigures(a: seq<Entry>, b: seq<Entry>, f: Filter, code: string, side: Side)
    requires SameFigures(a, b)
    ensures Turnover(a, f, code, side) == Turnover(b, f, code, side)
  {
    if a != [] {
      TurnoverSameFigures(a[..|a| - 1], b[..|b| - 1], f, code, side);
    }
  }

  lemma NetSameFigures(a: seq<Entry>, b: seq<Entry>, f: Filter, code: string)
    requires SameFigures(a, b)
    ensures Net(a, f, code) == Net(b, f, code)
  {
    TurnoverSameFigures(a, b, f, code, DebitSide);
    TurnoverSameFigures(a, b, f, code, CreditSide);
  }

  lemma {:induction false} PostedZero(lines: seq<Line>, code: string, side: Side)
    requires forall l :: l in lines ==> l.account != code
    ensures Posted(lines, code, side) == 0
  {
    if lines != [] {
      assert lines[|lines| - 1] in lines;
      PostedZero(lines[..|lines| - 1], code, side);
    }
  }

  lemma {:induction false} NetZero(entries: seq<Entry>, f: Filter, code: string, side: Side)
    requires forall e, l :: e in entries && l in e.lines ==> l.account != code
    ensures Turnover(entries, f, code, side) == 0
  {
    if entries != [] {
      var k := |entries| - 1;
      assert entries[k] in entries;
      PostedZero(entries[k].lines, code, side);
      NetZero(entries[..k], f, code, side);
    }
  }

  lemma PostedAppend(lines: seq<Line>, l: Line, code: string, side: Side)
    ensures Posted(lines + [l], code, side)
         == Posted(lines, code, side) + (if l.account == code then Amount(l, side) else 0)
    ensures SideTotal(lines + [l], side) == SideTotal(lines, side) + Amount(l, side)
  {
    assert (lines + [l])[..|lines|] == lines;
  }

  // ---------- debit and credit change places ----------

  function Swap(l: Line): Line { Line(l.account, l.credit, l.debit) }

  function Swapped(lines: seq<Line>): (r: seq<Line>)
    ensures |r| == |lines| && forall i :: 0 <= i < |r| ==> r[i] == Swap(lines[i])
  {
    seq(|lines|, i requires 0 <= i < |lines| => Swap(lines[i]))
  }

  lemma {:induction false} SwappedNegates(lines: seq<Line>, code: string)
    ensures Posted(Swapped(lines), code, DebitSide) == Posted(lines, code, CreditSide)
    ensures Posted(Swapped(lines), code, CreditSide) == Posted(lines, code, DebitSide)
    ensures SideTotal(Swapped(lines), DebitSide) == SideTotal(lines, CreditSide)
    ensures SideTotal(Swapped(lines), CreditSide) == SideTotal(lines, DebitSide)
  {
    if lines != [] {
      var k := |lines| - 1;
      SwappedNegates(lines[..k], code);
      assert Swapped(lines)[..k] == Swapped(lines[..k]);
    }
  }
}
