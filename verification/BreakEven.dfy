/**
 A shop whose year nets to nothing, and so cannot be closed.
 */
module BreakEven {
  import opened Common
  import opened Journal
  import opened Posting
  import opened FiscalYears
  import opened LedgerInvariant
  import opened YearEnd
  import opened LedgerRuns

  const SALES := "4101"

  const COSTS := "5101"

  const CHART: State := State(
    [SALES, COSTS, RETAINED],
    map[SALES := Account(REVENUE, true, 0), COSTS := Account(EXPENSE, true, 0), RETAINED := Account(EQUITY, true, 0)],
    [], [])

  /** Goods for 100 given away for a service worth 100. */
  const BARTER: seq<Line> := [Line(COSTS, 100, 0), Line(SALES, 0, 100)]

  const YEAR: seq<(Op, int)> := [(NewYear("1403", 1, 10), 5), (Post(Unkeyed("MANUAL"), Some(5), BARTER, false), 5)]

  lemma CodesDiffer()
    ensures SALES != COSTS && SALES != RETAINED && COSTS != RETAINED
  {
    assert SALES[0] == '4' && COSTS[0] == '5' && RETAINED[0] == '3';
  }

  lemma BarterPosts(c: string)
    ensures PostedNet(BARTER, c) == (if c == COSTS then 100 else if c == SALES then -100 else 0)
    ensures BalancedLines(BARTER)
  {
    CodesDiffer();
    assert BARTER == [BARTER[0]] + [BARTER[1]] && [BARTER[0]] == [] + [BARTER[0]];
    forall side, code
      ensures Posted(BARTER, code, side)
           == (if code == COSTS then Amount(BARTER[0], side) else 0)
              + (if code == SALES then Amount(BARTER[1], side) else 0)
      ensures SideTotal(BARTER, side) == 100
    {
      PostedAppend([], BARTER[0], code, side);
      PostedAppend([BARTER[0]], BARTER[1], code, side);
    }
  }

  /** The books after the barter. */
  ghost predicate Bartered(s: State) {
    && Inv(s) && s.codes == CHART.codes && s.years == [Year("1403", 1, 10, false)]
    && (exists e :: s.entries == [e] && e.year == 0 && e.status == POSTED && e.lines == BARTER)
    && s.accounts.Keys == CHART.accounts.Keys
    && forall c :: c in s.accounts ==> s.accounts[c].kind == CHART.accounts[c].kind && s.accounts[c].postable
  }

  function Barter(): Request { Request(External(Unkeyed("MANUAL")), Some(5), BARTER, false) }

  lemma BarterPosted(s: State)
    requires s == CHART.(years := [Year("1403", 1, 10, false)])
    ensures PostIn(s, Barter(), 5).Ok?
    ensures var t := PostIn(s, Barter(), 5).value; Inv(t) ==> Bartered(t)
  {
    hide Posted, SideTotal, Inv, PostIn;
    CodesDiffer();
    BarterPosts(SALES);
    assert YearOf(s.years, 5) == Some(0);
    PostInExactly(s, Barter(), 5);
    var e := PostAppends(s, Barter(), 5);
    assert [] + [e] == [e];
  }

  lemma ChartIsInitial()
    ensures Initial(CHART)
  {
    CodesDiffer();
  }

  lemma BarterAccepted()
    ensures Initial(CHART) && Bartered(Run(CHART, YEAR))
  {
    hide PostIn, Bartered, Initial, Inv, YearOf;
    var a := CHART.(years := [Year("1403", 1, 10, false)]);
    assert YEAR[..1][..0] == [] && YEAR[..2] == YEAR && YEAR[..2][..1] == YEAR[..1];
    assert Run(CHART, YEAR[..1]) == a;
    BarterPosted(a);
    ChartIsInitial();
    InitialIsSound(CHART);
    RunIsSound(CHART, YEAR);
  }

  lemma BarterNets(s: State, c: string)
    requires Bartered(s)
    ensures Net(s.entries, InYear(0), c) == (if c == COSTS then 100 else if c == SALES then -100 else 0)
  {
    hide Inv, Turnover, Posted;
    var e :| s.entries == [e] && e.year == 0 && e.status == POSTED && e.lines == BARTER;
    BarterPosts(c);
    NothingYet(InYear(0), c);
    assert [] + [e] == [e];
    NetAppend([], e, InYear(0), c);
  }

  lemma NothingYet(f: Filter, c: string)
    ensures Net([], f, c) == 0
  {
  }

  lemma BarterIncome(s: State)
    requires Bartered(s)
    ensures NetIncome(s, s.codes, 0) == 0 && !NoTemporaryBalance(s, 0)
  {
    hide Inv, Net;
    CodesDiffer();
    BarterNets(s, SALES);
    BarterNets(s, COSTS);
    var codes := s.codes;
    assert codes[..2][..1] == codes[..1] && codes[..1][..0] == [];
    assert NetIncome(s, codes[..1], 0) == 100 && NetIncome(s, codes[..2], 0) == 0;
    assert SALES in codes && TemporaryCode(s, SALES);
  }

  /** From a new company's chart: one balanced entry, no income, and the year cannot be closed on any day. */
  lemma BarterYearCannotClose(today: int)
    ensures Initial(CHART)
    ensures CloseFiscalYear(Run(CHART, YEAR), 0, today) == Err(NotOneSided)
  {
    hide Inv, Run, CloseFiscalYear, NetIncome, NoTemporaryBalance;
    BarterAccepted();
    BarterIncome(Run(CHART, YEAR));
    BreakEvenYearIsRefused(Run(CHART, YEAR), 0, today);
  }
}
