/**
 What an opening entry carries, and what it carries again: entries are traced back along their
 reversals, and those that come from an earlier opening are set apart from the business itself.
 */
module Openings {
  import opened Common
  import opened Journal
  import opened Posting
  import opened FiscalYears
  import opened LedgerInvariant
  import opened YearEnd
  import opened LedgerRuns

  // ---------- where an entry comes from ----------

  /** The entry at the start of its chain of reversals. */
  function Root(entries: seq<Entry>, i: nat): (r: nat)
    requires i < |entries|
    ensures r <= i
  {
    match entries[i].source
    case ReversalOf(j) => if j < i then Root(entries, j) else i
    case _ => i
  }

  /** How many reversals lie between an entry and its root. */
  function Depth(entries: seq<Entry>, i: nat): nat
    requires i < |entries|
  {
    match entries[i].source
    case ReversalOf(j) => if j < i then Depth(entries, j) + 1 else 0
    case _ => 0
  }

  /** An opening entry, a reversal of one, a reversal of that, and so on. */
  predicate FromOpening(entries: seq<Entry>, i: nat)
    requires i < |entries|
  {
    entries[Root(entries, i)].source.OpeningOf?
  }

  /** The first `n` entries with every opening and its reversals struck out. */
  function Business(entries: seq<Entry>, n: nat): seq<Entry>
    requires n <= |entries|
  {
    if n == 0 then []
    else Business(entries, n - 1) + (if FromOpening(entries, n - 1) then [] else [entries[n - 1]])
  }

  /** What the struck-out entries put on an account. */
  function OpeningNet(entries: seq<Entry>, n: nat, f: Filter, c: string): int
    requires n <= |entries|
  {
    if n == 0 then 0
    else
      OpeningNet(entries, n - 1, f, c)
        + (if FromOpening(entries, n - 1) && f.Keeps(entries[n - 1]) then PostedNet(entries[n - 1].lines, c) else 0)
  }

  lemma NothingPosted(f: Filter, c: string)
    ensures Net([], f, c) == 0
  {
  }

  lemma {:induction false} NetSplits(entries: seq<Entry>, n: nat, f: Filter, c: string)
    requires n <= |entries|
    ensures Net(entries[..n], f, c) == Net(Business(entries, n), f, c) + OpeningNet(entries, n, f, c)
  {
    hide PostedNet, Root, Turnover, FromOpening;
    if n == 0 {
      NothingPosted(f, c);
    } else {
      var e := entries[n - 1];
      NetSplits(entries, n - 1, f, c);
      assert entries[..n] == entries[..n - 1] + [e];
      NetAppend(entries[..n - 1], e, f, c);
      NetAppend(Business(entries, n - 1), e, f, c);
      assert Business(entries, n - 1) + [] == Business(entries, n - 1);
    }
  }

  /**
   The opening entry carries an account's business balance, and again whatever earlier openings and
   their reversals left on it by that day: it is right exactly when they left nothing.
   */
  lemma OpeningCarriesOnce(s: State, y: nat, e: Entry, t: State, c: string)
    requires Inv(s) && OpensWith(s, y, e, t) && c in s.accounts && !TemporaryCode(s, c)
    ensures
      var n, day := |s.entries|, UpTo(LastDayBefore(s, y));
      var own, again := Net(Business(s.entries, n), day, c), OpeningNet(s.entries, n, day, c);
      PostedNet(e.lines, c) == own + again && (PostedNet(e.lines, c) == own <==> again == 0)
  {
    hide Business, OpeningNet, Turnover, Posted;
    OpeningLinesPosted(s, s.codes, LastDayBefore(s, y), c);
    NetSplits(s.entries, |s.entries|, UpTo(LastDayBefore(s, y)), c);
    assert s.entries[..|s.entries|] == s.entries;
  }

  // ---------- which openings still stand ----------

  /** How many of the first `n` entries come from entry `i`, itself among them. */
  function ChainLength(entries: seq<Entry>, n: nat, i: nat): nat
    requires n <= |entries|
  {
    if n == 0 then 0 else ChainLength(entries, n - 1, i) + (if Root(entries, n - 1) == i then 1 else 0)
  }

  /** An opening stands if it was never reversed, or its last reversal was itself reversed. */
  predicate Stands(entries: seq<Entry>, n: nat, i: nat)
    requires n <= |entries|
  {
    ChainLength(entries, n, i) % 2 == 1
  }

  /** What the standing openings among the first `m` entries put on an account. */
  function StandingNet(entries: seq<Entry>, m: nat, n: nat, f: Filter, c: string): int
    requires m <= n <= |entries|
  {
    if m == 0 then 0
    else
      StandingNet(entries, m - 1, n, f, c)
        + (if entries[m - 1].source.OpeningOf? && f.Keeps(entries[m - 1]) && Stands(entries, n, m - 1)
           then PostedNet(entries[m - 1].lines, c) else 0)
  }

  /** The report holds an entry that comes from an opening together with what reverses it, or neither. */
  ghost predicate KeepsPairs(entries: seq<Entry>, f: Filter) {
    forall i: nat, j: nat :: Undoes(entries, i, j) && FromOpening(entries, i) ==>
        (f.Keeps(entries[i]) <==> f.Keeps(entries[j]))
  }

  /** Two entries equally far from one root are the same entry. */
  lemma {:induction false} OnePlaceOneEntry(entries: seq<Entry>, a: nat, b: nat)
    requires ReversalsOK(entries) && a < |entries| && b < |entries|
    requires Root(entries, a) == Root(entries, b) && Depth(entries, a) == Depth(entries, b)
    ensures a == b
  {
    if Depth(entries, a) > 0 {
      var i, j := entries[a].source.entry, entries[b].source.entry;
      OnePlaceOneEntry(entries, i, j);
      assert Undoes(entries, i, a) && Undoes(entries, j, b);
    }
  }

  lemma {:induction false} NothingBefore(entries: seq<Entry>, n: nat, i: nat)
    requires n <= |entries| && n <= i
    ensures ChainLength(entries, n, i) == 0
  {
    if n > 0 { NothingBefore(entries, n - 1, i); }
  }

  lemma OneDeeper(entries: seq<Entry>, m: nat, n: nat)
    requires m < n < |entries| && entries[n].source == ReversalOf(m)
    ensures Root(entries, n) == Root(entries, m) && Depth(entries, n) == Depth(entries, m) + 1
  {
  }

  /** An entry stands as deep in its chain as the chain is long when it is posted. */
  lemma {:induction false} DepthIsLength(entries: seq<Entry>, n: nat)
    requires ReversalsOK(entries) && n < |entries|
    ensures ChainLength(entries, n, Root(entries, n)) == Depth(entries, n)
    decreases n, n + 1
  {
    if Depth(entries, n) == 0 {
      NothingBefore(entries, n, n);
    } else {
      ChainPauses(entries, entries[n].source.entry, n, n);
    }
  }

  /** Between an entry and its reversal nothing joins the chain. */
  lemma {:induction false} ChainPauses(entries: seq<Entry>, m: nat, k: nat, n: nat)
    requires ReversalsOK(entries) && m < k <= n < |entries| && entries[n].source == ReversalOf(m)
    ensures ChainLength(entries, k, Root(entries, m)) == Depth(entries, m) + 1
    decreases n, k
  {
    hide ReversalsOK, Root, Depth;
    OneDeeper(entries, m, n);
    if k == m + 1 {
      DepthIsLength(entries, m);
    } else {
      ChainPauses(entries, m, k - 1, n);
      if Root(entries, k - 1) == Root(entries, m) {
        DepthIsLength(entries, k - 1);
        OnePlaceOneEntry(entries, k - 1, n);
      }
    }
  }

  /** A report keeps all of an opening's chain or none of it. */
  lemma {:induction false} KeepsWholeChain(entries: seq<Entry>, n: nat, f: Filter)
    requires ReversalsOK(entries) && KeepsPairs(entries, f) && n < |entries| && FromOpening(entries, n)
    ensures f.Keeps(entries[n]) <==> f.Keeps(entries[Root(entries, n)])
  {
    if Depth(entries, n) > 0 {
      var m := entries[n].source.entry;
      assert Undoes(entries, m, n);
      KeepsWholeChain(entries, m, f);
    }
  }

  /** Down a chain the lines keep turning their sign. */
  lemma {:induction false} DepthDecidesSign(entries: seq<Entry>, n: nat, c: string)
    requires ReversalsOK(entries) && n < |entries|
    ensures var at := PostedNet(entries[Root(entries, n)].lines, c);
      PostedNet(entries[n].lines, c) == (if Depth(entries, n) % 2 == 0 then at else -at)
  {
    hide Posted;
    if Depth(entries, n) > 0 {
      var m := entries[n].source.entry;
      assert Undoes(entries, m, n);
      DepthDecidesSign(entries, m, c);
      SwappedNegates(entries[m].lines, c);
    }
  }

  /** Entry `n` joins the chain of its root and leaves every other opening as it stood. */
  lemma {:induction false} StandingStep(entries: seq<Entry>, m: nat, n: nat, f: Filter, c: string)
    requires m <= n < |entries|
    ensures var i := Root(entries, n);
      StandingNet(entries, m, n + 1, f, c) == StandingNet(entries, m, n, f, c)
        + (if i < m && entries[i].source.OpeningOf? && f.Keeps(entries[i])
           then (if Stands(entries, n, i) then -PostedNet(entries[i].lines, c) else PostedNet(entries[i].lines, c))
           else 0)
  {
    hide PostedNet, Root;
    if m > 0 { StandingStep(entries, m - 1, n, f, c); }
  }

  /** Openings and their reversals leave on an account exactly what the standing openings put on it. */
  lemma {:induction false} OpeningNetIsStanding(entries: seq<Entry>, n: nat, f: Filter, c: string)
    requires ReversalsOK(entries) && KeepsPairs(entries, f) && n <= |entries|
    ensures OpeningNet(entries, n, f, c) == StandingNet(entries, n, n, f, c)
  {
    hide PostedNet, ReversalsOK, KeepsPairs, Depth;
    if n > 0 {
      var k := n - 1;
      OpeningNetIsStanding(entries, k, f, c);
      StandingStep(entries, k, k, f, c);
      DepthIsLength(entries, k);
      NothingBefore(entries, k, k);
      DepthDecidesSign(entries, k, c);
      if FromOpening(entries, k) { KeepsWholeChain(entries, k, f); }
    }
  }

  /**
   When each reversal of an earlier opening falls on the same side of the day as what it reverses, an
   account is carried right exactly when the openings still standing put nothing on it.
   */
  lemma StandingOpeningsRepeat(s: State, y: nat, e: Entry, t: State, c: string)
    requires Inv(s) && OpensWith(s, y, e, t) && c in s.accounts && !TemporaryCode(s, c)
    requires KeepsPairs(s.entries, UpTo(LastDayBefore(s, y)))
    ensures
      var n, day := |s.entries|, UpTo(LastDayBefore(s, y));
      var own, again := Net(Business(s.entries, n), day, c), StandingNet(s.entries, n, n, day, c);
      PostedNet(e.lines, c) == own + again && (PostedNet(e.lines, c) == own <==> again == 0)
  {
    hide Business, OpeningNet, Turnover, Posted, StandingNet, KeepsPairs;
    OpeningCarriesOnce(s, y, e, t, c);
    OpeningNetIsStanding(s.entries, |s.entries|, UpTo(LastDayBefore(s, y)), c);
  }

  // ---------- a shop that carries too much ----------

  const PAID_IN: seq<Line> := [Line("1101", 100, 0), Line(RETAINED, 0, 100)]

  const MANUAL := Unkeyed("MANUAL")

  /** A new company: one asset account, and retained earnings. */
  const NEW_SHOP: State :=
    State(["1101", RETAINED], map["1101" := Account(ASSET, true, 0), RETAINED := Account(EQUITY, true, 0)], [], [])

  /** 100 is paid in during the first of three years; the second is opened, and both are closed. */
  const HISTORY: seq<(Op, int)> := [
    (NewYear("1403", 1, 10), 5), (NewYear("1404", 11, 20), 5), (NewYear("1405", 21, 30), 5),
    (Post(MANUAL, Some(5), PAID_IN, false), 5), (CloseYear(0), 12), (OpenYear(1), 12), (CloseYear(1), 22)]

  function ShopAccounts(balance: int): map<string, Account> {
    map["1101" := Account(ASSET, true, balance), RETAINED := Account(EQUITY, true, balance)]
  }

  function ShopYears(closed: nat): seq<Year> {
    [Year("1403", 1, 10, closed > 0), Year("1404", 11, 20, closed > 1), Year("1405", 21, 30, false)]
  }

  const PAYMENT := Entry(1, 0, 5, External(MANUAL), POSTED, PAID_IN)

  const FIRST_OPENING := Entry(2, 1, 11, OpeningOf(1), POSTED, PAID_IN)

  function Shop(balance: int, closed: nat, entries: seq<Entry>): State {
    State(["1101", RETAINED], ShopAccounts(balance), ShopYears(closed), entries)
  }

  lemma CashIsNotRetained()
    ensures "1101" != RETAINED
  {
    assert "1101"[0] != RETAINED[0];
  }

  lemma PaidInPosts(amount: int, c: string)
    ensures var lines := [Line("1101", amount, 0), Line(RETAINED, 0, amount)];
      && PostedNet(lines, c) == (if c == "1101" then amount else if c == RETAINED then -amount else 0)
      && Posted(lines, "1101", DebitSide) == amount && Posted(lines, "1101", CreditSide) == 0
      && Posted(lines, RETAINED, DebitSide) == 0 && Posted(lines, RETAINED, CreditSide) == amount
      && BalancedLines(lines)
  {
    CashIsNotRetained();
    var first := [Line("1101", amount, 0)];
    var lines := first + [Line(RETAINED, 0, amount)];
    assert lines == [Line("1101", amount, 0), Line(RETAINED, 0, amount)] && first == [] + [Line("1101", amount, 0)];
    forall side, code
      ensures Posted(lines, code, side)
           == (if code == "1101" then Amount(first[0], side) else 0)
              + (if code == RETAINED then Amount(Line(RETAINED, 0, amount), side) else 0)
      ensures SideTotal(lines, side) == amount
    {
      PostedAppend([], Line("1101", amount, 0), code, side);
      PostedAppend(first, Line(RETAINED, 0, amount), code, side);
    }
  }

  lemma ShopYearsFound(closed: nat)
    ensures var years := ShopYears(closed);
      && YearOf(years, 5) == Some(0) && YearOf(years, 10) == Some(0) && YearOf(years, 11) == Some(1)
      && YearOf(years, 20) == Some(1) && YearOf(years, 21) == Some(2)
      && PreviousYear(years, 11) == Some(0) && PreviousYear(years, 21) == Some(1)
  {
  }

  lemma YearsCreated()
    ensures Run(NEW_SHOP, HISTORY[..3]) == Shop(0, 0, [])
  {
    hide Run;
    var a, b, c := Year("1403", 1, 10, false), Year("1404", 11, 20, false), Year("1405", 21, 30, false);
    assert "1403"[3] != "1404"[3] && "1403"[3] != "1405"[3] && "1404"[3] != "1405"[3];
    RunNothing(NEW_SHOP, HISTORY);
    RunOneMore(NEW_SHOP, HISTORY, 0, NEW_SHOP);
    RunOneMore(NEW_SHOP, HISTORY, 1, NEW_SHOP.(years := [a]));
    RunOneMore(NEW_SHOP, HISTORY, 2, NEW_SHOP.(years := [a, b]));
    assert Shop(0, 0, []) == NEW_SHOP.(years := [a, b, c]);
  }

  lemma RunNothing(s: State, ops: seq<(Op, int)>)
    ensures Run(s, ops[..0]) == s
  {
  }

  lemma RunOneMore(s: State, ops: seq<(Op, int)>, k: nat, t: State)
    requires k < |ops| && Run(s, ops[..k]) == t
    ensures Run(s, ops[..k + 1]) == Step(t, ops[k].0, ops[k].1)
  {
    assert ops[..k + 1][..k] == ops[..k];
  }

  /** Posting the same two lines adds their amount to both balances. */
  lemma ShopPosts(balance: int, closed: nat, entries: seq<Entry>, p: Request, amount: int, no: nat, year: nat,
      today: int)
    requires closed <= 2 && amount > 0 && p.lines == [Line("1101", amount, 0), Line(RETAINED, 0, amount)]
    requires p.date.Some? && YearOf(ShopYears(closed), p.date.value) == Some(year) && closed <= year
    requires MaxNo(entries) + 1 == no && !Taken(entries, p.source)
    ensures PostIn(Shop(balance, closed, entries), p, today)
         == Ok(Shop(balance + amount, closed, entries + [Entry(no, year, p.date.value, p.source, POSTED, p.lines)]))
  {
    hide Posted, SideTotal, YearOf, MaxNo, Taken, ApplyAll;
    var s := Shop(balance, closed, entries);
    CashIsNotRetained();
    PaidInPosts(amount, "1101");
    PostInExactly(s, p, today);
    var e := NewEntry(s, p, today);
    assert ApplyAll(s.accounts, e.lines) == ShopAccounts(balance + amount);
  }

  /** The shop has no revenue or expense accounts, so its years close without an entry. */
  lemma ShopCloses(balance: int, y: nat, entries: seq<Entry>, today: int)
    requires y < 2 && forall e :: e in entries ==> !e.status.DRAFT?
    ensures CloseFiscalYear(Shop(balance, y, entries), y, today) == Ok(Shop(balance, y + 1, entries))
  {
    hide Net, ClosingLines;
    var s := Shop(balance, y, entries);
    ClosingLinesShape(s, s.codes, y);
    assert ClosingLines(s, s.codes, y) == [] by {
      assert forall c :: c in s.codes ==> !TemporaryCode(s, c);
    }
    assert s.years[y := s.years[y].(closed := true)] == ShopYears(y + 1);
  }

  lemma ShopCarries(s: State, lastDay: int, amount: int)
    requires s.codes == ["1101", RETAINED] && "1101" in s.accounts && RETAINED in s.accounts && amount > 0
    requires !TemporaryCode(s, "1101") && !TemporaryCode(s, RETAINED)
    requires Net(s.entries, UpTo(lastDay), "1101") == amount && Net(s.entries, UpTo(lastDay), RETAINED) == -amount
    ensures OpeningLines(s, s.codes, lastDay) == [Line("1101", amount, 0), Line(RETAINED, 0, amount)]
  {
    hide Net;
    var one := s.codes[..1];
    assert one[..0] == [] && one[0] == "1101" && s.codes[1] == RETAINED;
    assert OpeningLines(s, [], lastDay) == [];
    assert OpeningLines(s, one, lastDay) == [Line("1101", amount, 0)];
  }

  /** By the end of the first year the shop has the 100 paid in, by the end of the second 200. */
  lemma ShopNets(c: string)
    requires c == "1101" || c == RETAINED
    ensures var sign := if c == "1101" then 1 else -1;
      && Net([PAYMENT], UpTo(10), c) == sign * 100
      && Net([PAYMENT, FIRST_OPENING], UpTo(20), c) == sign * 200
  {
    hide Posted, Turnover;
    CashIsNotRetained();
    PaidInPosts(100, c);
    EmptyNet(UpTo(10), c);
    EmptyNet(UpTo(20), c);
    assert [] + [PAYMENT] == [PAYMENT] && [PAYMENT] + [FIRST_OPENING] == [PAYMENT, FIRST_OPENING];
    NetAppend([], PAYMENT, UpTo(10), c);
    NetAppend([], PAYMENT, UpTo(20), c);
    NetAppend([PAYMENT], FIRST_OPENING, UpTo(20), c);
  }

  lemma EmptyNet(f: Filter, c: string)
    ensures Net([], f, c) == 0
  {
  }

  lemma ShopKeys(y: nat, entries: seq<Entry>)
    requires (y == 1 && entries == [PAYMENT]) || (y == 2 && entries == [PAYMENT, FIRST_OPENING])
    ensures MaxNo(entries) == y && !Taken(entries, OpeningOf(y))
  {
    assert [PAYMENT, FIRST_OPENING][..1] == [PAYMENT] && [PAYMENT][..0] == [];
  }

  lemma ShopOpens(y: nat, entries: seq<Entry>, balance: int, today: int)
    requires (y == 1 && entries == [PAYMENT]) || (y == 2 && entries == [PAYMENT, FIRST_OPENING])
    ensures var lines := [Line("1101", 100 * y, 0), Line(RETAINED, 0, 100 * y)];
      OpenFiscalYear(Shop(balance, y, entries), y, today)
        == Ok(Shop(balance + 100 * y, y, entries + [Entry(y + 1, y, 10 * y + 1, OpeningOf(y), POSTED, lines)]))
  {
    hide Net, PostIn, OpeningLines, PreviousYear, YearOf, MaxNo, Taken, Posted, SideTotal;
    var s := Shop(balance, y, entries);
    var lines := [Line("1101", 100 * y, 0), Line(RETAINED, 0, 100 * y)];
    ShopKeys(y, entries);
    CashIsNotRetained();
    ShopYearsFound(y);
    ShopNets("1101");
    ShopNets(RETAINED);
    ShopCarries(s, 10 * y, 100 * y);
    PaidInPosts(100 * y, "1101");
    ShopPosts(balance, y, entries, Request(OpeningOf(y), Some(10 * y + 1), lines, false), 100 * y, y + 1, y, today);
  }

  lemma ShopHistory()
    ensures Run(NEW_SHOP, HISTORY) == Shop(200, 2, [PAYMENT, FIRST_OPENING])
  {
    hide PostIn, OpenFiscalYear, CloseFiscalYear, YearOf, PreviousYear, Run;
    YearsCreated();
    ShopYearsFound(0);
    RunOneMore(NEW_SHOP, HISTORY, 3, Shop(0, 0, []));
    ShopPosts(0, 0, [], Request(External(MANUAL), Some(5), PAID_IN, false), 100, 1, 0, 5);
    RunOneMore(NEW_SHOP, HISTORY, 4, Shop(100, 0, [PAYMENT]));
    ShopCloses(100, 0, [PAYMENT], 12);
    RunOneMore(NEW_SHOP, HISTORY, 5, Shop(100, 1, [PAYMENT]));
    ShopOpens(1, [PAYMENT], 100, 12);
    RunOneMore(NEW_SHOP, HISTORY, 6, Shop(200, 1, [PAYMENT, FIRST_OPENING]));
    ShopCloses(200, 1, [PAYMENT, FIRST_OPENING], 22);
    assert HISTORY[..7] == HISTORY;
  }

  lemma ShopBusiness()
    ensures var entries := [PAYMENT, FIRST_OPENING];
      && Net(Business(entries, 2), UpTo(20), "1101") == 100
      && StandingNet(entries, 2, 2, UpTo(20), "1101") == 100
  {
    hide Net, Posted;
    var entries := [PAYMENT, FIRST_OPENING];
    PaidInPosts(100, "1101");
    ShopNets("1101");
    EmptyNet(UpTo(20), "1101");
    NetAppend([], PAYMENT, UpTo(20), "1101");
    assert Business(entries, 0) == [] && Business(entries, 1) == [] + [PAYMENT]
        && Business(entries, 2) == [] + [PAYMENT];
    assert ChainLength(entries, 1, 1) == 0 && ChainLength(entries, 2, 1) == 1;
    assert StandingNet(entries, 1, 2, UpTo(20), "1101") == 0;
  }

  /**
   The shop's history is an ordinary run of a new company, and the second opening at its end succeeds:
   it carries 200 of cash where the business has 100, because the first opening still stands.
   */
  lemma SecondOpeningCountsTwice()
    ensures Initial(NEW_SHOP) && Run(NEW_SHOP, HISTORY) == Shop(200, 2, [PAYMENT, FIRST_OPENING])
    ensures OpenFiscalYear(Run(NEW_SHOP, HISTORY), 2, 22) == Ok(Shop(400, 2,
      [PAYMENT, FIRST_OPENING,
       Entry(3, 2, 21, OpeningOf(2), POSTED, [Line("1101", 200, 0), Line(RETAINED, 0, 200)])]))
    ensures Net(Business([PAYMENT, FIRST_OPENING], 2), UpTo(20), "1101") == 100
    ensures StandingNet([PAYMENT, FIRST_OPENING], 2, 2, UpTo(20), "1101") == 100
  {
    hide PostIn, OpenFiscalYear, CloseFiscalYear, Net, Run, StandingNet, Business;
    CashIsNotRetained();
    ShopHistory();
    ShopOpens(2, [PAYMENT, FIRST_OPENING], 200, 22);
    assert forall e :: [PAYMENT, FIRST_OPENING] + [e] == [PAYMENT, FIRST_OPENING, e];
    ShopBusiness();
  }
}
