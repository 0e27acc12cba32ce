/**
 What holds of the ledger in every reachable state, and why each operation keeps it.
 */
module LedgerInvariant {
  import opened Common
  import opened Journal
  import opened Posting
  import opened FiscalYears

  // ---------- the parts of the invariant ----------

  /** The chart lists every account once and retained earnings belong to equity. */
  ghost predicate ChartOK(s: State) {
    && Distinct(s.codes)
    && (forall c :: c in s.codes <==> c in s.accounts)
    && RETAINED in s.accounts && s.accounts[RETAINED].kind.EQUITY?
  }

  ghost predicate YearsOK(years: seq<Year>) {
    && (forall i :: 0 <= i < |years| ==> years[i].startsOn < years[i].endsOn)
    && (forall i, j :: 0 <= i < j < |years| ==> !Overlaps(years[i], years[j]))
  }

  ghost predicate EntryOK(s: State, e: Entry) {
    && !e.status.DRAFT?
    && e.year < |s.years| && s.years[e.year].Holds(e.date)
    && (forall l :: l in e.lines ==> l.account in s.accounts && s.accounts[l.account].postable && OneSided(l))
    && BalancedLines(e.lines) && e.lines != []
    && (e.source.ClosingOf? ==> e.source.year < |s.years| && s.years[e.source.year].closed)
  }

  ghost predicate EntriesOK(s: State) {
    forall e :: e in s.entries ==> EntryOK(s, e)
  }

  ghost predicate NumbersRise(entries: seq<Entry>) {
    forall i, j :: 0 <= i < j < |entries| ==> entries[i].no < entries[j].no
  }

  /** Entry `j` undoes entry `i`: it came later, swaps the lines, and `i` is marked. */
  ghost predicate Undoes(entries: seq<Entry>, i: nat, j: nat) {
    && i < j < |entries|
    && entries[j].source == ReversalOf(i)
    && entries[i].status.REVERSED?
    && entries[j].lines == Swapped(entries[i].lines)
  }

  ghost predicate ReversalsOK(entries: seq<Entry>) {
    && (forall i, j :: 0 <= j < |entries| && entries[j].source == ReversalOf(i) ==> Undoes(entries, i, j))
    && (forall i :: 0 <= i < |entries| && entries[i].status.REVERSED? ==> exists j :: Undoes(entries, i, j))
    && (forall i, j, k :: Undoes(entries, i, j) && Undoes(entries, i, k) ==> j == k)
  }

  /** In a closed year every revenue and expense account is empty. */
  ghost predicate ClosedEmpty(s: State) {
    forall y, c :: 0 <= y < |s.years| && s.years[y].closed && TemporaryCode(s, c) ==>
      Net(s.entries, InYear(y), c) == 0
  }

  ghost predicate Inv(s: State) {
    ChartOK(s) && YearsOK(s.years) && EntriesOK(s) && NumbersRise(s.entries) && ReversalsOK(s.entries) && ClosedEmpty(s)
  }

  // ---------- adding one posted entry ----------

  lemma YearOfUnique(years: seq<Year>, date: int, y: nat)
    requires YearsOK(years) && y < |years| && years[y].Holds(date)
    ensures YearOf(years, date) == Some(y)
  {
    var r := YearOf(years, date);
    if r.Some? && r.value != y {
      assert Overlaps(years[r.value], years[y]);
      assert Overlaps(years[y], years[r.value]);
    }
  }

  lemma NumbersKeepRising(s: seq<Entry>, e: Entry)
    requires NumbersRise(s) && e.no == MaxNo(s) + 1
    ensures NumbersRise(s + [e])
  {
    var t := s + [e];
    forall i, j | 0 <= i < j < |t| ensures t[i].no < t[j].no {
      assert t[i] in s;
    }
  }

  lemma AppendKeepsEntries(s: State, e: Entry, t: State)
    requires Inv(s) && Appends(s, e, t) && !e.source.ClosingOf?
    ensures EntriesOK(t) && ChartOK(t) && NumbersRise(t.entries)
  {
    forall x | x in t.entries ensures EntryOK(t, x) {
      assert x in s.entries || x == e;
    }
    NumbersKeepRising(s.entries, e);
  }

  /** An entry lands in an open year, so the sums of closed years do not move. */
  lemma AppendKeepsClosedYears(s: State, e: Entry, t: State)
    requires ClosedEmpty(s) && Appends(s, e, t)
    ensures ClosedEmpty(t)
  {
    forall y, c | 0 <= y < |t.years| && t.years[y].closed && TemporaryCode(t, c)
      ensures Net(t.entries, InYear(y), c) == 0
    {
      NetAppend(s.entries, e, InYear(y), c);
      assert TemporaryCode(s, c);
    }
  }

  lemma AppendKeepsReversals(s: seq<Entry>, e: Entry)
    requires ReversalsOK(s) && e.status == POSTED && !e.source.ReversalOf?
    ensures ReversalsOK(s + [e])
  {
    var t := s + [e];
    forall i | 0 <= i < |t| && t[i].status.REVERSED? ensures exists j :: Undoes(t, i, j) {
      var j :| Undoes(s, i, j);
      assert Undoes(t, i, j);
    }
    forall i, j | 0 <= j < |t| && t[j].source == ReversalOf(i) ensures Undoes(t, i, j) {
      assert Undoes(s, i, j);
    }
    forall i, j, k | Undoes(t, i, j) && Undoes(t, i, k) ensures j == k {
      assert Undoes(s, i, j) && Undoes(s, i, k);
    }
  }

  lemma PostKeepsInv(s: State, p: Request, today: int)
    requires Inv(s) && PostIn(s, p, today).Ok? && p.source.External?
    ensures Inv(PostIn(s, p, today).value)
  {
    var e := PostAppends(s, p, today);
    AppendKeepsInv(s, e, PostIn(s, p, today).value);
  }

  lemma AppendKeepsInv(s: State, e: Entry, t: State)
    requires Inv(s) && Appends(s, e, t) && !e.source.ReversalOf? && !e.source.ClosingOf?
    ensures Inv(t)
  {
    AppendKeepsEntries(s, e, t);
    AppendKeepsClosedYears(s, e, t);
    AppendKeepsReversals(s.entries, e);
  }

  // ---------- reversing ----------

  lemma SwappedLinesOK(s: State, i: nat)
    requires EntriesOK(s) && i < |s.entries|
    ensures var r := Swapped(s.entries[i].lines);
      && r != [] && BalancedLines(r)
      && forall l :: l in r ==> l.account in s.accounts && s.accounts[l.account].postable && OneSided(l)
  {
    var lines := s.entries[i].lines;
    assert EntryOK(s, s.entries[i]);
    SwappedNegates(lines, "");
    forall l | l in Swapped(lines)
      ensures l.account in s.accounts && s.accounts[l.account].postable && OneSided(l)
    {
      var k :| 0 <= k < |lines| && Swapped(lines)[k] == l;
      assert lines[k] in lines;
    }
  }

  lemma ReversalKeyFree(s: seq<Entry>, i: nat)
    requires ReversalsOK(s) && i < |s| && !s[i].status.REVERSED?
    ensures !Taken(s, ReversalOf(i))
  {
    forall j | 0 <= j < |s| ensures s[j].source != ReversalOf(i) {
      assert !Undoes(s, i, j);
    }
  }

  predicate YearOpenOn(s: State, date: int) {
    var y := YearOf(s.years, date); y.Some? && !s.years[y.value].closed
  }

  /** A reversal succeeds exactly when the entry is live and both years are open. */
  lemma ReverseExactly(s: State, i: nat, today: int)
    requires Inv(s)
    ensures Reverse(s, i, today).Ok? <==>
      && i < |s.entries| && s.entries[i].status.POSTED?
      && s.entries[i].year < |s.years| && !s.years[s.entries[i].year].closed
      && YearOpenOn(s, today)
  {
    if i < |s.entries| {
      assert EntryOK(s, s.entries[i]);
      if !s.entries[i].status.REVERSED? {
        PostInExactly(s, ReversalRequest(s, i), today);
        SwappedLinesOK(s, i);
        ReversalKeyFree(s.entries, i);
      }
    }
  }

  /** `t` is `s` with entry `i` undone by the new entry `e`. */
  ghost predicate Reverses(s: State, i: nat, e: Entry, p: State, t: State) {
    && i < |s.entries| && s.entries[i].status.POSTED?
    && s.entries[i].year < |s.years| && !s.years[s.entries[i].year].closed
    && Appends(s, e, p) && e.source == ReversalOf(i) && e.lines == Swapped(s.entries[i].lines)
    && t == p.(entries := p.entries[i := s.entries[i].(status := REVERSED)])
  }

  lemma ReverseAppends(s: State, i: nat, today: int) returns (e: Entry, p: State)
    requires Inv(s) && Reverse(s, i, today).Ok?
    ensures Reverses(s, i, e, p, Reverse(s, i, today).value) && e.date == today
  {
    ReverseExactly(s, i, today);
    p := PostIn(s, ReversalRequest(s, i), today).value;
    e := PostAppends(s, ReversalRequest(s, i), today);
  }

  lemma UndoKeepsReversals(s: seq<Entry>, i: nat, e: Entry)
    requires ReversalsOK(s) && i < |s| && s[i].status.POSTED?
    requires e.status == POSTED && e.source == ReversalOf(i) && e.lines == Swapped(s[i].lines)
    ensures ReversalsOK((s + [e])[i := s[i].(status := REVERSED)])
  {
    var t := (s + [e])[i := s[i].(status := REVERSED)];
    var n := |s|;
    ReversalKeyFree(s, i);
    assert Undoes(t, i, n);
    forall a, b | 0 <= b < |t| && t[b].source == ReversalOf(a) ensures Undoes(t, a, b) {
      if b < n { assert Undoes(s, a, b); }
    }
    forall a | 0 <= a < |t| && t[a].status.REVERSED? ensures exists b :: Undoes(t, a, b) {
      if a != i {
        var b :| Undoes(s, a, b);
        assert Undoes(t, a, b);
      }
    }
    forall a: nat, b: nat, c: nat | Undoes(t, a, b) && Undoes(t, a, c) ensures b == c {
      if a == i {
        assert !Undoes(s, i, b) && !Undoes(s, i, c);
      } else {
        assert Undoes(s, a, b) && Undoes(s, a, c);
      }
    }
  }

  lemma ReverseKeepsInv(s: State, i: nat, today: int)
    requires Inv(s) && Reverse(s, i, today).Ok?
    ensures Inv(Reverse(s, i, today).value)
  {
    var e, p := ReverseAppends(s, i, today);
    UndoKeepsInv(s, i, e, p, Reverse(s, i, today).value);
  }

  lemma UndoKeepsEntries(s: State, i: nat, e: Entry, p: State, t: State)
    requires EntriesOK(s) && EntriesOK(p) && Reverses(s, i, e, p, t)
    ensures EntriesOK(t)
  {
    var marked := s.entries[i].(status := REVERSED);
    assert EntryOK(s, s.entries[i]) && p.entries[i] == s.entries[i];
    forall x | x in t.entries ensures EntryOK(t, x) {
      assert x in p.entries || x == marked;
      assert EntryOK(p, p.entries[i]);
    }
  }

  lemma UndoKeepsClosedYears(s: State, i: nat, e: Entry, p: State, t: State)
    requires ClosedEmpty(p) && Reverses(s, i, e, p, t)
    ensures ClosedEmpty(t)
  {
    forall y, c | 0 <= y < |t.years| && t.years[y].closed && TemporaryCode(t, c)
      ensures Net(t.entries, InYear(y), c) == 0
    {
      NetSameFigures(p.entries, t.entries, InYear(y), c);
      assert TemporaryCode(p, c);
    }
  }

  lemma UndoKeepsInv(s: State, i: nat, e: Entry, p: State, t: State)
    requires Inv(s) && Reverses(s, i, e, p, t)
    ensures Inv(t)
  {
    hide EntriesOK, ClosedEmpty, ReversalsOK;
    AppendKeepsEntries(s, e, p);
    AppendKeepsClosedYears(s, e, p);
    UndoKeepsReversals(s.entries, i, e);
    UndoKeepsEntries(s, i, e, p, t);
    UndoKeepsClosedYears(s, i, e, p, t);
  }

  // ---------- accounts and years ----------

  lemma CreateAccountKeepsInv(s: State, code: string, kind: Kind, balance: int)
    requires Inv(s) && CreateAccount(s, code, kind, balance).Ok?
    ensures Inv(CreateAccount(s, code, kind, balance).value)
  {
    var t := CreateAccount(s, code, kind, balance).value;
    forall e | e in t.entries ensures EntryOK(t, e) {
      assert EntryOK(s, e);
    }
    forall y, c | 0 <= y < |t.years| && t.years[y].closed && TemporaryCode(t, c)
      ensures Net(t.entries, InYear(y), c) == 0
    {
      if c in s.accounts {
        assert TemporaryCode(s, c);
      } else {
        forall e, l | e in s.entries && l in e.lines ensures l.account != c {
          assert EntryOK(s, e);
        }
        NetZero(s.entries, InYear(y), c, DebitSide);
        NetZero(s.entries, InYear(y), c, CreditSide);
      }
    }
  }

  lemma CreateFiscalYearKeepsInv(s: State, code: string, startsOn: int, endsOn: int)
    requires Inv(s) && CreateFiscalYear(s, code, startsOn, endsOn).Ok?
    ensures Inv(CreateFiscalYear(s, code, startsOn, endsOn).value)
  {
    var t := CreateFiscalYear(s, code, startsOn, endsOn).value;
    forall e | e in t.entries ensures EntryOK(t, e) {
      assert EntryOK(s, e);
    }
    forall i, j | 0 <= i < j < |t.years| ensures !Overlaps(t.years[i], t.years[j]) {
      assert t.years[i] in s.years;
    }
    forall y, c | 0 <= y < |t.years| && t.years[y].closed && TemporaryCode(t, c)
      ensures Net(t.entries, InYear(y), c) == 0
    {
      assert TemporaryCode(s, c);
    }
  }

  lemma SharedDay(a: Year, b: Year)
    requires a.startsOn < a.endsOn && b.startsOn < b.endsOn
    ensures Overlaps(a, b) <==> exists day :: a.Holds(day) && b.Holds(day)
  {
    if Overlaps(a, b) {
      var day := if a.startsOn <= b.startsOn then b.startsOn else a.startsOn;
      assert a.Holds(day) && b.Holds(day);
    }
  }

  /**
   A fiscal year is taken if and only if it ends after it starts, its code is new and it has no day in
   common with another; it is then open, and nothing else changes.
   */
  lemma CreateFiscalYearExactly(s: State, code: string, startsOn: int, endsOn: int)
    requires Inv(s)
    ensures var y := Year(code, startsOn, endsOn, false); var r := CreateFiscalYear(s, code, startsOn, endsOn);
      && (r.Ok? <==>
          && startsOn < endsOn
          && (forall x :: x in s.years ==> x.code != code && forall day :: x.Holds(day) ==> !y.Holds(day)))
      && (r.Ok? ==> r.value == State(s.codes, s.accounts, s.years + [y], s.entries))
  {
    var y := Year(code, startsOn, endsOn, false);
    forall x | x in s.years && startsOn < endsOn
      ensures Overlaps(x, y) <==> exists day :: x.Holds(day) && y.Holds(day)
    {
      SharedDay(x, y);
    }
  }

  /** A new account takes postings and stands last in the chart; a code that is in use is refused. */
  lemma CreateAccountExactly(s: State, code: string, kind: Kind, balance: int)
    requires Inv(s)
    ensures var r := CreateAccount(s, code, kind, balance);
      && (r.Ok? <==> code !in s.codes)
      && (r.Ok? ==>
          && r.value.codes == s.codes + [code] && r.value.years == s.years && r.value.entries == s.entries
          && r.value.accounts.Keys == s.accounts.Keys + {code}
          && (forall c :: c in s.accounts ==> r.value.accounts[c] == s.accounts[c])
          && r.value.accounts[code].postable && r.value.accounts[code].kind == kind
          && r.value.accounts[code].balance == balance
          && Net(r.value.entries, Everything, code) == 0)
  {
    if code !in s.codes {
      forall e, l | e in s.entries && l in e.lines ensures l.account != code { assert EntryOK(s, e); }
      NetZero(s.entries, Everything, code, DebitSide);
      NetZero(s.entries, Everything, code, CreditSide);
    }
  }
}
