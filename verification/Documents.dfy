/**
 Business documents in the ledger: each has at most one live entry, and undoing a document by its
 source undoes exactly that entry.
 */
module Documents {
  import opened Common
  import opened Journal
  import opened Posting
  import opened FiscalYears
  import opened LedgerInvariant
  import opened YearEnd
  import opened LedgerRuns

  ghost predicate LiveFor(e: Entry, source: Source) { e.source == source && !e.status.REVERSED? }

  /** No two live entries belong to the same keyed source. */
  ghost predicate KeyedOnce(entries: seq<Entry>) {
    forall i, j :: 0 <= i < j < |entries| && entries[i].source.HasKey() && LiveFor(entries[i], entries[i].source) ==>
        !LiveFor(entries[j], entries[i].source)
  }

  // ---------- one live entry for each document ----------

  lemma AppendKeepsKeyedOnce(s: State, e: Entry, t: State)
    requires KeyedOnce(s.entries) && Appends(s, e, t)
    ensures KeyedOnce(t.entries)
  {
    forall i, j | 0 <= i < j < |t.entries| && t.entries[i].source.HasKey()
                  && LiveFor(t.entries[i], t.entries[i].source)
      ensures !LiveFor(t.entries[j], t.entries[i].source)
    {
      assert t.entries[i] == s.entries[i] && s.entries[i] in s.entries;
    }
  }

  lemma MarkKeepsKeyedOnce(entries: seq<Entry>, i: nat)
    requires KeyedOnce(entries) && i < |entries|
    ensures KeyedOnce(entries[i := entries[i].(status := REVERSED)])
  {
  }

  lemma UndoKeepsKeyedOnce(s: State, i: nat, today: int)
    requires Inv(s) && KeyedOnce(s.entries) && Reverse(s, i, today).Ok?
    ensures KeyedOnce(Reverse(s, i, today).value.entries)
  {
    hide KeyedOnce, Inv;
    var e, p := ReverseAppends(s, i, today);
    AppendKeepsKeyedOnce(s, e, p);
    MarkKeepsKeyedOnce(p.entries, i);
  }

  lemma CloseKeepsKeyedOnce(s: State, y: nat, today: int)
    requires YearsOK(s.years) && KeyedOnce(s.entries) && CloseFiscalYear(s, y, today).Ok?
    ensures KeyedOnce(CloseFiscalYear(s, y, today).value.entries)
  {
    hide KeyedOnce, YearsOK, CloseFiscalYear, Appends;
    var t := CloseFiscalYear(s, y, today).value;
    CloseResult(s, y, today);
    if ClosingLines(s, s.codes, y) != [] {
      var e :| ClosesWith(s, y, e, t);
      var p :| Appends(s, e, p) && t == p.(years := s.years[y := s.years[y].(closed := true)]);
      AppendKeepsKeyedOnce(s, e, p);
    }
  }

  lemma OpenKeepsKeyedOnce(s: State, y: nat, today: int)
    requires YearsOK(s.years) && KeyedOnce(s.entries) && OpenFiscalYear(s, y, today).Ok?
    ensures KeyedOnce(OpenFiscalYear(s, y, today).value.entries)
  {
    hide KeyedOnce, OpenFiscalYear, Appends, Carries, YearsOK;
    OpenResult(s, y, today);
    if Carries(s, y) {
      var e :| OpensWith(s, y, e, OpenFiscalYear(s, y, today).value);
      AppendKeepsKeyedOnce(s, e, OpenFiscalYear(s, y, today).value);
    }
  }

  lemma SoundYears(s: State)
    requires Inv(s)
    ensures YearsOK(s.years)
  {
  }

  lemma StepKeepsKeyedOnce(s: State, op: Op, today: int)
    requires Inv(s) && KeyedOnce(s.entries) && Perform(s, op, today).Ok?
    ensures KeyedOnce(Perform(s, op, today).value.entries)
  {
    hide KeyedOnce, Inv, PostIn, Reverse, CloseFiscalYear, OpenFiscalYear;
    SoundYears(s);
    match op
    case NewAccount(code, _, _) =>
    case NewYear(_, _, _) =>
    case Post(doc, date, lines, allow) =>
      var e := PostAppends(s, Request(External(doc), date, lines, allow), today);
      AppendKeepsKeyedOnce(s, e, Perform(s, op, today).value);
    case Undo(i) => UndoKeepsKeyedOnce(s, i, today);
    case UndoSource(source) =>
      if ActiveEntry(s.entries, source).Some? {
        UndoKeepsKeyedOnce(s, ActiveEntry(s.entries, source).value, today);
      }
    case CloseYear(y) => CloseKeepsKeyedOnce(s, y, today);
    case OpenYear(y) => OpenKeepsKeyedOnce(s, y, today);
  }

  /** In every reachable ledger a document has at most one live entry. */
  lemma {:induction false} OneLiveEntry(s: State, ops: seq<(Op, int)>)
    requires Inv(s) && KeyedOnce(s.entries)
    ensures KeyedOnce(Run(s, ops).entries)
  {
    hide KeyedOnce, Inv, Perform;
    if ops != [] {
      var k := |ops| - 1;
      var before := Run(s, ops[..k]);
      OneLiveEntry(s, ops[..k]);
      RunIsSound(s, ops[..k]);
      if Perform(before, ops[k].0, ops[k].1).Ok? { StepKeepsKeyedOnce(before, ops[k].0, ops[k].1); }
    }
  }

  // ---------- undoing a document ----------

  /** `t` is `s` with entry i marked and its mirror image added on the day. */
  ghost predicate Undone(s: State, i: nat, today: int, t: State)
    requires i < |s.entries|
  {
    && |t.entries| == |s.entries| + 1
    && (forall j :: 0 <= j < |s.entries| ==>
          t.entries[j] == if j == i then s.entries[i].(status := REVERSED) else s.entries[j])
    && t.entries[|s.entries|].source == ReversalOf(i) && t.entries[|s.entries|].date == today
    && t.entries[|s.entries|].status == POSTED
    && forall c :: Net(t.entries, Everything, c) == Net(s.entries, Everything, c) - PostedNet(s.entries[i].lines, c)
  }

  lemma ReverseUndoes(s: State, i: nat, today: int)
    requires Inv(s) && Reverse(s, i, today).Ok?
    ensures i < |s.entries| && Undone(s, i, today, Reverse(s, i, today).value)
  {
    hide Turnover, Posted, MaxNo, SideTotal, Inv;
    var e, p := ReverseAppends(s, i, today);
    var t := Reverse(s, i, today).value;
    assert e == t.entries[|s.entries|];
    forall c ensures Net(t.entries, Everything, c) == Net(s.entries, Everything, c) - PostedNet(s.entries[i].lines, c) {
      ReversalCancels(s, i, today, Everything, c);
      SwappedNegates(s.entries[i].lines, c);
    }
  }

  /** The live entry of a document is the one that is found. */
  lemma LiveIsFound(entries: seq<Entry>, source: Source, i: nat)
    requires KeyedOnce(entries) && source.HasKey() && i < |entries| && LiveFor(entries[i], source)
    ensures ActiveEntry(entries, source) == Some(i)
  {
    var r := ActiveEntry(entries, source);
    assert entries[i] in entries && LiveFor(entries[r.value], source);
  }

  lemma NoneFound(entries: seq<Entry>, source: Source)
    requires forall e :: e in entries ==> !LiveFor(e, source)
    ensures ActiveEntry(entries, source) == None
  {
    var r := ActiveEntry(entries, source);
    if r.Some? { assert entries[r.value] in entries && LiveFor(entries[r.value], source); }
  }

  lemma UndoneIsGone(s: State, i: nat, source: Source, today: int, t: State)
    requires KeyedOnce(s.entries) && i < |s.entries| && LiveFor(s.entries[i], source) && Undone(s, i, today, t)
    requires source.HasKey() && source != ReversalOf(i)
    ensures forall e :: e in t.entries ==> !LiveFor(e, source)
  {
    forall j | 0 <= j < |t.entries| ensures !LiveFor(t.entries[j], source) {
      if j < |s.entries| && j != i {
        assert LiveFor(s.entries[i], s.entries[i].source) && t.entries[j] == s.entries[j];
      }
    }
  }

  lemma LiveIsPosted(s: State, i: nat, source: Source)
    requires Inv(s) && i < |s.entries| && LiveFor(s.entries[i], source)
    ensures s.entries[i].status.POSTED? && s.entries[i].year < |s.years| && source != ReversalOf(i)
  {
    assert EntryOK(s, s.entries[i]);
    assert !Undoes(s.entries, i, i);
  }

  /**
   A document without a live entry is left alone; otherwise its entry is undone, which works exactly
   while the entry's year and the year of the day are open, and then the document has none.
   */
  lemma UndoDocumentExactly(s: State, source: Source, today: int)
    requires Inv(s) && KeyedOnce(s.entries) && source.HasKey()
    ensures (forall e :: e in s.entries ==> !LiveFor(e, source)) ==> ReverseBySource(s, source, today) == Ok(s)
    ensures forall i :: 0 <= i < |s.entries| && LiveFor(s.entries[i], source) ==>
      && s.entries[i].year < |s.years|
      && (ReverseBySource(s, source, today).Ok?
          <==> !s.years[s.entries[i].year].closed && YearOpenOn(s, today))
      && (ReverseBySource(s, source, today).Ok? ==>
          && Undone(s, i, today, ReverseBySource(s, source, today).value)
          && forall e :: e in ReverseBySource(s, source, today).value.entries ==> !LiveFor(e, source))
  {
    hide Inv, KeyedOnce, Reverse, LiveFor, Undone, YearOpenOn;
    if forall e :: e in s.entries ==> !LiveFor(e, source) { NoneFound(s.entries, source); }
    forall i | 0 <= i < |s.entries| && LiveFor(s.entries[i], source)
      ensures
        && s.entries[i].year < |s.years|
        && (ReverseBySource(s, source, today).Ok? <==> !s.years[s.entries[i].year].closed && YearOpenOn(s, today))
        && (ReverseBySource(s, source, today).Ok? ==>
            && Undone(s, i, today, ReverseBySource(s, source, today).value)
            && forall e :: e in ReverseBySource(s, source, today).value.entries ==> !LiveFor(e, source))
    {
      LiveIsFound(s.entries, source, i);
      LiveIsPosted(s, i, source);
      ReverseExactly(s, i, today);
      if Reverse(s, i, today).Ok? {
        ReverseUndoes(s, i, today);
        UndoneIsGone(s, i, source, today, Reverse(s, i, today).value);
      }
    }
  }
}
