/**
 The budget lines and their commitments as the service updates them, one transaction per method.
 */
module BudgetService {
  import opened Common
  import opened Budget

  class Service {
    var lines: map<string, BudgetLine>
    var commitments: seq<Commitment>

    function View(): State
      reads this
    {
      State(lines, commitments)
    }

    constructor ()
      ensures View() == State(map[], []) && Inv(View())
    {
      lines, commitments := map[], [];
    }

    method CreateLine(id: string, amount: int, allotted: Option<int>) returns (r: Result<State, BudgetError>)
      modifies this
      ensures r == Budget.CreateLine(old(View()), id, amount, allotted)
      ensures View() == (if r.Ok? then r.value else old(View())) && (Inv(old(View())) ==> Inv(View()))
    {
      hide Inv;
      ghost var before := View();
      if amount < 0 { return Err(BadAmount); }
      if allotted.Some? {
        if allotted.value < 0 { return Err(BadAmount); }
        if allotted.value > amount { return Err(OverCeiling); }
      }
      if id in lines { return Err(DuplicateLine); }
      lines := lines[id := BudgetLine(amount, allotted, 0, 0)];
      r := Ok(View());
      if Inv(before) { CreateLineKeepsInv(before, id, amount, allotted); }
    }

    method Commit(line: string, source: Source, amount: int) returns (r: Result<State, BudgetError>)
      modifies this
      ensures r == Budget.Commit(old(View()), line, source, amount)
      ensures View() == (if r.Ok? then r.value else old(View())) && (Inv(old(View())) ==> Inv(View()))
    {
      hide Inv;
      ghost var before := View();
      if amount <= 0 { return Err(BadAmount); }
      if line !in lines { return Err(LineNotFound); }
      var l := lines[line];
      if amount > l.Available() { return Err(OverCeiling); }
      if HasOpen(commitments, source) { return Err(OpenExists); }
      commitments := commitments + [Commitment(line, source, amount, OPEN)];
      lines := lines[line := l.(committed := l.committed + amount)];
      r := Ok(View());
      if Inv(before) { CommitKeepsInv(before, line, source, amount); }
    }

    method Settle(id: nat, actualAmount: Option<int>) returns (r: Result<State, BudgetError>)
      modifies this
      ensures r == Budget.Settle(old(View()), id, actualAmount)
      ensures View() == (if r.Ok? then r.value else old(View())) && (Inv(old(View())) ==> Inv(View()))
    {
      hide Inv;
      ghost var before := View();
      if id >= |commitments| { return Err(CommitmentNotFound); }
      var c := commitments[id];
      if !c.status.OPEN? { return Err(NotOpen); }
      var committed := c.amount;
      var actual := if actualAmount.None? then committed else actualAmount.value;
      if actual < 0 { return Err(BadAmount); }
      if actual > committed { return Err(OverCommitment); }
      if actual == 0 { return Err(CheckViolated); }
      if c.line !in lines { return Err(LineNotFound); }
      commitments := commitments[id := c.(status := SETTLED, amount := actual)];
      var l := lines[c.line];
      lines := lines[c.line := l.(committed := l.committed - committed, spent := l.spent + actual)];
      r := Ok(View());
      if Inv(before) { SettleKeepsInv(before, id, actualAmount); }
    }

    method Release(id: nat) returns (r: Result<State, BudgetError>)
      modifies this
      ensures r == Budget.Release(old(View()), id)
      ensures View() == (if r.Ok? then r.value else old(View())) && (Inv(old(View())) ==> Inv(View()))
    {
      hide Inv;
      ghost var before := View();
      if id >= |commitments| { return Err(CommitmentNotFound); }
      var c := commitments[id];
      if !c.status.OPEN? { return Err(NotOpen); }
      if c.line !in lines { return Err(LineNotFound); }
      commitments := commitments[id := c.(status := RELEASED)];
      var l := lines[c.line];
      lines := lines[c.line := l.(committed := l.committed - c.amount)];
      r := Ok(View());
      if Inv(before) { ReleaseKeepsInv(before, id); }
    }

    method Allocate(line: string, value: int) returns (r: Result<State, BudgetError>)
      modifies this
      ensures r == Budget.Allocate(old(View()), line, value)
      ensures View() == (if r.Ok? then r.value else old(View())) && (Inv(old(View())) ==> Inv(View()))
    {
      hide Inv;
      ghost var before := View();
      if line !in lines { return Err(LineNotFound); }
      var l := lines[line];
      if value < 0 { return Err(BadAmount); }
      if value > l.amount { return Err(OverCeiling); }
      if value < l.committed + l.spent { return Err(BelowUsed); }
      lines := lines[line := l.(allotted := Some(value))];
      r := Ok(View());
      if Inv(before) { AllocateKeepsInv(before, line, value); }
    }
  }
}
