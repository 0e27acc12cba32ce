/**
 Budget commitments: money that is promised but not yet spent, under a hard ceiling.
 */
module Budget {
  import opened Common

  datatype BudgetLine = BudgetLine(amount: int, allotted: Option<int>, committed: int, spent: int) {
    /** The ceiling: what was allotted, or else what was approved. */
    function Base(): int { allotted.GetOr(amount) }

    function Available(): int { Base() - committed - spent }
  }

  datatype Status = OPEN | SETTLED | RELEASED

  datatype Source = Source(kind: string, id: Option<string>)

  datatype Commitment = Commitment(line: string, source: Source, amount: int, status: Status)

  datatype State = State(lines: map<string, BudgetLine>, commitments: seq<Commitment>)

  datatype BudgetError =
    | LineNotFound | BadAmount | OverCeiling | OpenExists | CommitmentNotFound | NotOpen | OverCommitment
    | BelowUsed | DuplicateLine | CheckViolated

  // ---------- the operations ----------

  function CreateLine(s: State, id: string, amount: int, allotted: Option<int>): Result<State, BudgetError> {
    if amount < 0 || (allotted.Some? && allotted.value < 0) then Err(BadAmount)
    else if allotted.Some? && allotted.value > amount then Err(OverCeiling)
    else if id in s.lines then Err(DuplicateLine)
    else Ok(s.(lines := s.lines[id := BudgetLine(amount, allotted, 0, 0)]))
  }

  /** The unique index over open commitments with a source document. */
  predicate HasOpen(commitments: seq<Commitment>, source: Source) {
    source.id.Some? && exists c :: c in commitments && c.source == source && c.status.OPEN?
  }

  function Commit(s: State, line: string, source: Source, amount: int): Result<State, BudgetError> {
    if amount <= 0 then Err(BadAmount)
    else if line !in s.lines then Err(LineNotFound)
    else if amount > s.lines[line].Available() then Err(OverCeiling)
    else if HasOpen(s.commitments, source) then Err(OpenExists)
    else
      var l := s.lines[line];
      Ok(State(s.lines[line := l.(committed := l.committed + amount)],
               s.commitments + [Commitment(line, source, amount, OPEN)]))
  }

  /** The actual amount defaults to the whole commitment; the table itself refuses an amount of zero. */
  function Settle(s: State, id: nat, actual: Option<int>): Result<State, BudgetError> {
    if id >= |s.commitments| then Err(CommitmentNotFound)
    else
      var c := s.commitments[id];
      var spent := actual.GetOr(c.amount);
      if !c.status.OPEN? then Err(NotOpen)
      else if spent < 0 then Err(BadAmount)
      else if spent > c.amount then Err(OverCommitment)
      else if spent == 0 then Err(CheckViolated)
      else if c.line !in s.lines then Err(LineNotFound)
      else
        var l := s.lines[c.line];
        Ok(State(s.lines[c.line := l.(committed := l.committed - c.amount, spent := l.spent + spent)],
                 s.commitments[id := c.(status := SETTLED, amount := spent)]))
  }

  function Release(s: State, id: nat): Result<State, BudgetError> {
    if id >= |s.commitments| then Err(CommitmentNotFound)
    else
      var c := s.commitments[id];
      if !c.status.OPEN? then Err(NotOpen)
      else if c.line !in s.lines then Err(LineNotFound)
      else
        var l := s.lines[c.line];
        Ok(State(s.lines[c.line := l.(committed := l.committed - c.amount)],
            s.commitments[id := c.(status := RELEASED)]))
  }

  function Allocate(s: State, line: string, value: int): Result<State, BudgetError> {
    if line !in s.lines then Err(LineNotFound)
    else if value < 0 then Err(BadAmount)
    else if value > s.lines[line].amount then Err(OverCeiling)
    else if value < s.lines[line].committed + s.lines[line].spent then Err(BelowUsed)
    else Ok(s.(lines := s.lines[line := s.lines[line].(allotted := Some(value))]))
  }

  // ---------- the ledger of commitments ----------

  /** What the commitments of one line in one status add up to. */
  function Total(commitments: seq<Commitment>, line: string, status: Status): int {
    if commitments == [] then 0
    else
      var k := |commitments| - 1;
      Total(commitments[..k], line, status) + Share(commitments[k], line, status)
  }

  function Share(c: Commitment, line: string, status: Status): int {
    if c.line == line && c.status == status then c.amount else 0
  }

  lemma TotalAppend(commitments: seq<Commitment>, c: Commitment, line: string, status: Status)
    ensures Total(commitments + [c], line, status) == Total(commitments, line, status) + Share(c, line, status)
  {
    assert (commitments + [c])[..|commitments|] == commitments;
  }

  lemma {:induction false} TotalUpdate(commitments: seq<Commitment>, i: nat, c: Commitment, line: string,
      status: Status)
    requires i < |commitments|
    ensures Total(commitments[i := c], line, status)
         == Total(commitments, line, status) - Share(commitments[i], line, status) + Share(c, line, status)
  {
    var k := |commitments| - 1;
    if i == k {
      assert commitments[i := c][..k] == commitments[..k];
    } else {
      assert commitments[i := c][..k] == commitments[..k][i := c];
      TotalUpdate(commitments[..k], i, c, line, status);
    }
  }

  lemma {:induction false} TotalNonNegative(commitments: seq<Commitment>, line: string, status: Status)
    requires forall c :: c in commitments ==> c.amount > 0
    ensures Total(commitments, line, status) >= 0
  {
    if commitments != [] {
      assert commitments[|commitments| - 1] in commitments;
      TotalNonNegative(commitments[..|commitments| - 1], line, status);
    }
  }

  lemma {:induction false} TotalHolds(commitments: seq<Commitment>, i: nat, line: string, status: Status)
    requires i < |commitments| && forall c :: c in commitments ==> c.amount > 0
    ensures Share(commitments[i], line, status) <= Total(commitments, line, status)
  {
    var k := |commitments| - 1;
    assert commitments[k] in commitments && forall c :: c in commitments[..k] ==> c in commitments;
    TotalNonNegative(commitments[..k], line, status);
    if i < k { TotalHolds(commitments[..k], i, line, status); }
  }

  lemma {:induction false} TotalOfNone(commitments: seq<Commitment>, line: string, status: Status)
    requires forall c :: c in commitments ==> c.line != line
    ensures Total(commitments, line, status) == 0
  {
    if commitments != [] {
      assert commitments[|commitments| - 1] in commitments;
      TotalOfNone(commitments[..|commitments| - 1], line, status);
    }
  }

  // ---------- the invariant ----------

  /** The two running figures of a line are the sums of its commitments, and fit under the ceiling. */
  ghost predicate LineOK(l: BudgetLine, id: string, commitments: seq<Commitment>) {
    && l.committed == Total(commitments, id, OPEN)
    && l.spent == Total(commitments, id, SETTLED)
    && 0 <= l.committed && 0 <= l.spent
    && l.committed + l.spent <= l.Base() <= l.amount
  }

  ghost predicate CommitmentsOK(s: State) {
    forall c :: c in s.commitments ==> c.amount > 0 && c.line in s.lines
  }

  ghost predicate SourcesUnique(commitments: seq<Commitment>) {
    forall i, j ::
      (0 <= i < j < |commitments| && commitments[i].status.OPEN? && commitments[j].status.OPEN?
       && commitments[i].source == commitments[j].source) ==> commitments[i].source.id.None?
  }

  ghost predicate Inv(s: State) {
    && (forall id :: id in s.lines ==> LineOK(s.lines[id], id, s.commitments))
    && CommitmentsOK(s) && SourcesUnique(s.commitments)
  }

  lemma CreateLineKeepsInv(s: State, id: string, amount: int, allotted: Option<int>)
    requires Inv(s) && CreateLine(s, id, amount, allotted).Ok?
    ensures Inv(CreateLine(s, id, amount, allotted).value)
  {
    hide SourcesUnique;
    TotalOfNone(s.commitments, id, OPEN);
    TotalOfNone(s.commitments, id, SETTLED);
  }

  lemma CommitKeepsInv(s: State, line: string, source: Source, amount: int)
    requires Inv(s) && Commit(s, line, source, amount).Ok?
    ensures Inv(Commit(s, line, source, amount).value)
  {
    hide Total;
    var c := Commitment(line, source, amount, OPEN);
    forall id ensures Total(s.commitments + [c], id, OPEN) == Total(s.commitments, id, OPEN) + Share(c, id, OPEN)
              ensures Total(s.commitments + [c], id, SETTLED) == Total(s.commitments, id, SETTLED)
    {
      TotalAppend(s.commitments, c, id, OPEN);
      TotalAppend(s.commitments, c, id, SETTLED);
    }
    assert forall x :: x in s.commitments + [c] ==> x in s.commitments || x == c;
  }

  /** Closing an open commitment, with nothing new opened. */
  lemma ClosingKeepsRest(s: State, id: nat, c: Commitment)
    requires CommitmentsOK(s) && SourcesUnique(s.commitments) && id < |s.commitments|
    requires !c.status.OPEN? && c.amount > 0 && c.line == s.commitments[id].line
    ensures SourcesUnique(s.commitments[id := c])
    ensures forall x :: x in s.commitments[id := c] ==> x.amount > 0 && x.line in s.lines
  {
    assert s.commitments[id] in s.commitments;
    forall x | x in s.commitments[id := c] ensures x in s.commitments || x == c {}
  }

  lemma SettleKeepsInv(s: State, id: nat, actual: Option<int>)
    requires Inv(s) && Settle(s, id, actual).Ok?
    ensures Inv(Settle(s, id, actual).value)
  {
    hide Total, SourcesUnique;
    var was := s.commitments[id];
    var c := was.(status := SETTLED, amount := actual.GetOr(was.amount));
    ClosingKeepsRest(s, id, c);
    TotalHolds(s.commitments, id, was.line, OPEN);
    forall l ensures Total(s.commitments[id := c], l, OPEN) == Total(s.commitments, l, OPEN) - Share(was, l, OPEN)
             ensures Total(s.commitments[id := c], l, SETTLED) == Total(s.commitments, l, SETTLED)
                 + Share(c, l, SETTLED)
    {
      TotalUpdate(s.commitments, id, c, l, OPEN);
      TotalUpdate(s.commitments, id, c, l, SETTLED);
    }
  }

  lemma ReleaseKeepsInv(s: State, id: nat)
    requires Inv(s) && Release(s, id).Ok?
    ensures Inv(Release(s, id).value)
  {
    hide Total, SourcesUnique;
    var was := s.commitments[id];
    var c := was.(status := RELEASED);
    assert was in s.commitments;
    ClosingKeepsRest(s, id, c);
    TotalHolds(s.commitments, id, was.line, OPEN);
    forall l ensures Total(s.commitments[id := c], l, OPEN) == Total(s.commitments, l, OPEN) - Share(was, l, OPEN)
             ensures Total(s.commitments[id := c], l, SETTLED) == Total(s.commitments, l, SETTLED)
    {
      TotalUpdate(s.commitments, id, c, l, OPEN);
      TotalUpdate(s.commitments, id, c, l, SETTLED);
    }
  }

  lemma AllocateKeepsInv(s: State, line: string, value: int)
    requires Inv(s) && Allocate(s, line, value).Ok?
    ensures Inv(Allocate(s, line, value).value)
  {
    hide Total, SourcesUnique;
  }

  // ---------- runs ----------

  datatype BudgetOp =
    | NewLine(id: string, amount: int, allotted: Option<int>)
    | Promise(line: string, source: Source, amount: int)
    | Spend(commitment: nat, actual: Option<int>)
    | Cancel(commitment: nat)
    | Fund(line: string, value: int)

  function Perform(s: State, op: BudgetOp): Result<State, BudgetError> {
    match op
    case NewLine(id, amount, allotted) => CreateLine(s, id, amount, allotted)
    case Promise(line, source, amount) => Commit(s, line, source, amount)
    case Spend(id, actual) => Settle(s, id, actual)
    case Cancel(id) => Release(s, id)
    case Fund(line, value) => Allocate(s, line, value)
  }

  function Step(s: State, op: BudgetOp): State { match Perform(s, op) case Ok(t) => t case Err(_) => s }

  function Run(s: State, ops: seq<BudgetOp>): State {
    if ops == [] then s else Step(Run(s, ops[..|ops| - 1]), ops[|ops| - 1])
  }

  /**
   The hard ceiling: after any sequence of operations the committed figure of every line is the sum
   of its open commitments, the spent figure the sum of its settled ones, and together they never
   pass the allocation, nor the allocation the approval.
   */
  lemma {:induction false} CeilingHolds(s: State, ops: seq<BudgetOp>)
    requires Inv(s)
    ensures Inv(Run(s, ops))
  {
    hide Inv;
    if ops != [] {
      CeilingHolds(s, ops[..|ops| - 1]);
      StepKeepsInv(Run(s, ops[..|ops| - 1]), ops[|ops| - 1]);
    }
  }

  lemma StepKeepsInv(s: State, op: BudgetOp)
    requires Inv(s)
    ensures Inv(Step(s, op))
  {
    hide Inv;
    if Perform(s, op).Ok? {
      match op {
        case NewLine(id, amount, allotted) => CreateLineKeepsInv(s, id, amount, allotted);
        case Promise(line, source, amount) => CommitKeepsInv(s, line, source, amount);
        case Spend(id, actual) => SettleKeepsInv(s, id, actual);
        case Cancel(id) => ReleaseKeepsInv(s, id);
        case Fund(line, value) => AllocateKeepsInv(s, line, value);
      }
    }
  }

  /** A closed commitment never changes again. */
  lemma {:induction false} ClosedForGood(s: State, ops: seq<BudgetOp>, id: nat)
    requires id < |s.commitments| && !s.commitments[id].status.OPEN?
    ensures id < |Run(s, ops).commitments| && Run(s, ops).commitments[id] == s.commitments[id]
  {
    if ops != [] { ClosedForGood(s, ops[..|ops| - 1], id); }
  }

  // ---------- exactly when each operation succeeds, in any budget that can come about ----------

  const NEW: State := State(map[], [])

  lemma NewBudgetsHold(ops: seq<BudgetOp>)
    ensures Inv(Run(NEW, ops))
  {
    assert Inv(NEW);
    CeilingHolds(NEW, ops);
  }

  /** What the commitments of a line have used up: the open ones and the settled ones. */
  function Used(s: State, line: string): int {
    Total(s.commitments, line, OPEN) + Total(s.commitments, line, SETTLED)
  }

  /**
   A commitment is taken exactly when it is positive, fits beside the commitments already there, and
   its document has none open.
   */
  lemma CommitExactly(ops: seq<BudgetOp>, line: string, source: Source, amount: int)
    ensures var s := Run(NEW, ops);
      Commit(s, line, source, amount).Ok? <==>
        && amount > 0 && line in s.lines && Used(s, line) + amount <= s.lines[line].Base()
        && forall c :: c in s.commitments && c.status.OPEN? && c.source == source ==> source.id.None?
  {
    hide Total, CommitmentsOK, SourcesUnique, Run;
    NewBudgetsHold(ops);
  }

  /** An allocation is accepted exactly when it covers the commitments already there and stays within the approval. */
  lemma AllocateExactly(ops: seq<BudgetOp>, line: string, value: int)
    ensures var s := Run(NEW, ops);
      Allocate(s, line, value).Ok? <==> line in s.lines && Used(s, line) <= value <= s.lines[line].amount
  {
    hide Total, CommitmentsOK, SourcesUnique, Run;
    NewBudgetsHold(ops);
    if line in Run(NEW, ops).lines { assert LineOK(Run(NEW, ops).lines[line], line, Run(NEW, ops).commitments); }
  }

  /**
   A line is taken exactly when it is new, not negative, and allotted no more than approved; then all of
   what is allotted, or approved, can be committed, and no other line and no commitment changes.
   */
  lemma CreateLineExactly(ops: seq<BudgetOp>, id: string, amount: int, allotted: Option<int>)
    ensures var s := Run(NEW, ops); var r := CreateLine(s, id, amount, allotted);
      && (r.Ok? <==> id !in s.lines && amount >= 0 && (allotted.Some? ==> 0 <= allotted.value <= amount))
      && (r.Ok? ==>
          && r.value.commitments == s.commitments
          && (forall other :: other != id ==> (other in r.value.lines <==> other in s.lines))
          && (forall other :: other != id && other in s.lines ==> r.value.lines[other] == s.lines[other])
          && Used(r.value, id) == 0 && id in r.value.lines
          && r.value.lines[id].Available() == (if allotted.Some? then allotted.value else amount))
  {
    hide Total, SourcesUnique, Run;
    NewBudgetsHold(ops);
    var s := Run(NEW, ops);
    if id !in s.lines {
      TotalOfNone(s.commitments, id, OPEN);
      TotalOfNone(s.commitments, id, SETTLED);
    }
  }

  /** The service lets an actual amount of zero pass; the table does not, so such a contract must be released. */
  lemma {:induction false} SettleExactly(ops: seq<BudgetOp>, id: nat, actual: Option<int>)
    ensures var s := Run(NEW, ops);
      Settle(s, id, actual).Ok? <==>
        && id < |s.commitments| && s.commitments[id].status.OPEN?
        && (actual.Some? ==> 0 < actual.value <= s.commitments[id].amount)
    ensures var s := Run(NEW, ops);
      id < |s.commitments| && s.commitments[id].status.OPEN? && actual.Some? ==>
        && (actual.value < 0 ==> Settle(s, id, actual) == Err(BadAmount))
        && (actual.value == 0 ==> Settle(s, id, actual) == Err(CheckViolated))
        && (actual.value > s.commitments[id].amount ==> Settle(s, id, actual) == Err(OverCommitment))
  {
    hide Total, SourcesUnique, Run;
    NewBudgetsHold(ops);
    var s := Run(NEW, ops);
    if id < |s.commitments| { assert s.commitments[id] in s.commitments; }
  }

  // ---------- from the promise to the end ----------

  /** While a commitment is open it stays as it was made. */
  lemma {:induction false} OpenStaysAsMade(s: State, ops: seq<BudgetOp>, id: nat)
    requires id < |s.commitments|
    ensures id < |Run(s, ops).commitments|
    ensures Run(s, ops).commitments[id].status.OPEN? ==> Run(s, ops).commitments[id] == s.commitments[id]
  {
    if ops != [] { OpenStaysAsMade(s, ops[..|ops| - 1], id); }
  }

  /**
   Whatever happens on the budget after a commitment, as long as it is open it can be settled at any
   amount above zero up to it, which gives back exactly the part not spent, and it can be released,
   which gives back all of it; no other line moves.
   */
  lemma PromiseComesBack(s: State, line: string, source: Source, amount: int, ops: seq<BudgetOp>, actual: int,
      other: string)
    requires Inv(s) && Commit(s, line, source, amount).Ok? && 0 < actual <= amount
    requires var t := Run(Commit(s, line, source, amount).value, ops); var id := |s.commitments|;
      id < |t.commitments| && t.commitments[id].status.OPEN? && other in t.lines
    ensures var t := Run(Commit(s, line, source, amount).value, ops); var id := |s.commitments|;
      var settled, released := Settle(t, id, Some(actual)), Release(t, id);
      && line in t.lines && settled.Ok? && released.Ok?
      && other in settled.value.lines && other in released.value.lines
      && settled.value.lines[other].Available()
           == t.lines[other].Available() + (if other == line then amount - actual else 0)
      && released.value.lines[other].Available()
           == t.lines[other].Available() + (if other == line then amount else 0)
  {
    hide Total, Run, SourcesUnique;
    var made := Commit(s, line, source, amount).value;
    CommitKeepsInv(s, line, source, amount);
    CeilingHolds(made, ops);
    OpenStaysAsMade(made, ops, |s.commitments|);
    var t := Run(made, ops);
    assert t.commitments[|s.commitments|] in t.commitments;
  }
}
