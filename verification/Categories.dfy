/**
 Product categories: a table of parent links that must stay a forest, and the tree built from it.
 */
module Categories {
  import opened Common

  datatype Category = Category(parent: Option<string>, products: nat)

  type Table = map<string, Category>

  datatype CategoryError = OwnParent | ParentNotFound | Cycle | NotFound | DuplicateKey | HasProducts | HasChildren

  /** A form field: not sent, null, or a text. */
  datatype Field = Absent | Null | Text(value: string)

  // ---------- ancestors ----------

  /** The parent, if it can be seen in the table. */
  function Parent(m: Table, x: string): Option<string>
    requires x in m
  {
    var p := m[x].parent; if p.Some? && p.value in m then p else None
  }

  /** The k-th ancestor; a category is its own zeroth. */
  function Up(m: Table, x: string, k: nat): (r: Option<string>)
    ensures r.Some? ==> r.value in m
    decreases k
  {
    if x !in m then None
    else if k == 0 then Some(x)
    else if Parent(m, x).None? then None
    else Up(m, Parent(m, x).value, k - 1)
  }

  lemma {:induction false} UpPlus(m: Table, x: string, j: nat, k: nat)
    ensures Up(m, x, j + k) == if Up(m, x, j).Some? then Up(m, Up(m, x, j).value, k) else None
    decreases j
  {
    if j > 0 && x in m && Parent(m, x).Some? { UpPlus(m, Parent(m, x).value, j - 1, k); }
  }

  lemma UpStep(m: Table, x: string, k: nat)
    ensures Up(m, x, k + 1) == if Up(m, x, k).Some? then Parent(m, Up(m, x, k).value) else None
  {
    UpPlus(m, x, k, 1);
    if Up(m, x, k).Some? {
      var y := Up(m, x, k).value;
      assert Parent(m, y).Some? ==> Up(m, Parent(m, y).value, 0) == Parent(m, y);
    }
  }

  /** `x` stands somewhere below `id`. */
  ghost predicate Below(m: Table, x: string, id: string) {
    exists k: nat :: k > 0 && Up(m, x, k) == Some(id)
  }

  /** Going up from `x` comes to an end. */
  ghost predicate Ends(m: Table, x: string) { exists k: nat :: Up(m, x, k) == None }

  ghost predicate Forest(m: Table) {
    && (forall x :: x in m && m[x].parent.Some? ==> m[x].parent.value in m)
    && (forall x :: x in m ==> Ends(m, x))
  }

  // ---------- the descendant query ----------

  function ChildrenOf(m: Table, parents: set<string>): set<string> {
    set x | x in m && m[x].parent.Some? && m[x].parent.value in parents
  }

  lemma {:induction false} ClosedHoldsDescendants(m: Table, id: string, sub: set<string>, x: string, k: nat)
    requires ChildrenOf(m, sub + {id}) <= sub
    requires k > 0 && Up(m, x, k) == Some(id)
    ensures x in sub
    decreases k
  {
    var p := Parent(m, x).value;
    if k > 1 {
      ClosedHoldsDescendants(m, id, sub, p, k - 1);
    } else {
      assert Up(m, p, 0) == Some(p);
    }
    assert x in ChildrenOf(m, sub + {id});
  }

  lemma ChildIsBelow(m: Table, x: string, id: string)
    requires x in m && id in m && m[x].parent == Some(id)
    ensures Below(m, x, id)
  {
    assert Up(m, id, 0) == Some(id) && Up(m, x, 1) == Some(id);
  }

  lemma ChildOfBelowIsBelow(m: Table, x: string, y: string, id: string)
    requires x in m && y in m && m[x].parent == Some(y) && Below(m, y, id)
    ensures Below(m, x, id)
  {
    var k: nat :| k > 0 && Up(m, y, k) == Some(id);
    assert Up(m, x, k + 1) == Some(id);
  }

  /** The recursive query: rows are added round by round until a round brings nothing new. */
  method Descendants(m: Table, id: string) returns (sub: set<string>)
    requires id in m
    ensures forall x :: x in sub <==> Below(m, x, id)
  {
    sub := ChildrenOf(m, {id});
    var working := sub;
    forall x | x in sub ensures Below(m, x, id) { ChildIsBelow(m, x, id); }
    while working != {}
      invariant working <= sub <= m.Keys
      invariant forall x :: x in sub ==> Below(m, x, id)
      invariant ChildrenOf(m, sub - working + {id}) <= sub
      decreases m.Keys - sub, working
    {
      var found := ChildrenOf(m, working) - sub;
      forall x | x in found ensures Below(m, x, id) {
        ChildOfBelowIsBelow(m, x, m[x].parent.value, id);
      }
      assert ChildrenOf(m, sub + {id}) <= sub + found;
      if found != {} {
        var x :| x in found;
        assert x in m.Keys - sub && x !in m.Keys - (sub + found);
      }
      assert sub + found - found == sub;
      working, sub := found, sub + found;
    }
    forall x | Below(m, x, id) ensures x in sub {
      var k: nat :| k > 0 && Up(m, x, k) == Some(id);
      ClosedHoldsDescendants(m, id, sub, x, k);
    }
  }

  // ---------- the operations ----------

  function Create(m: Table, id: string, parent: Field): Result<Table, CategoryError> {
    if parent.Text? && parent.value != "" && parent.value !in m then Err(ParentNotFound)
    else if id in m then Err(DuplicateKey)
    else Ok(m[id := Category(if parent.Text? && parent.value != "" then Some(parent.value) else None, 0)])
  }

  ghost function Update(m: Table, id: string, parent: Field): Result<Table, CategoryError> {
    if parent.Text? && parent.value != "" && parent.value == id then Err(OwnParent)
    else if parent.Text? && parent.value != "" && parent.value !in m then Err(ParentNotFound)
    else if parent.Text? && parent.value != "" && Below(m, parent.value, id) then Err(Cycle)
    else if id !in m then Err(NotFound)
    else match parent
      case Absent => Ok(m)
      case Null => Ok(m[id := m[id].(parent := None)])
      case Text(p) => Ok(m[id := m[id].(parent := if p == "" then None else Some(p))])
  }

  function Remove(m: Table, id: string): Result<Table, CategoryError> {
    if id !in m then Err(NotFound)
    else if m[id].products > 0 then Err(HasProducts)
    else if ChildrenOf(m, {id}) != {} then Err(HasChildren)
    else Ok(m - {id})
  }

  // ---------- the table stays a forest ----------

  /** A chain that ends leaves the ends of another table alone as long as both agree along it. */
  lemma {:induction false} EndsCarries(m: Table, t: Table, x: string, k: nat)
    requires Up(m, x, k) == None
    requires forall j :: 0 <= j < k && Up(m, x, j).Some? ==>
      var y := Up(m, x, j).value;
      && y in t && t[y].parent == m[y].parent
      && (m[y].parent.Some? ==> (m[y].parent.value in m <==> m[y].parent.value in t))
    ensures x in m ==> Up(t, x, k) == None
    decreases k
  {
    if x in m {
      assert Up(m, x, 0) == Some(x);
      if k > 0 && Parent(m, x).Some? {
        var p := Parent(m, x).value;
        forall j | 0 <= j < k - 1 && Up(m, p, j).Some?
          ensures var y := Up(m, p, j).value;
            && y in t && t[y].parent == m[y].parent
            && (m[y].parent.Some? ==> (m[y].parent.value in m <==> m[y].parent.value in t))
        {
          assert Up(m, x, j + 1) == Up(m, p, j);
        }
        EndsCarries(m, t, p, k - 1);
      }
    }
  }

  /** Where a chain meets the moved category it goes on from the new parent, and that chain ends. */
  lemma {:induction false} MovedEnds(m: Table, t: Table, id: string, x: string, k: nat)
    requires Up(m, x, k) == None && x in m && id in m
    requires t.Keys == m.Keys && forall y :: y in m && y != id ==> t[y].parent == m[y].parent
    requires Ends(t, id)
    ensures Ends(t, x)
    decreases k
  {
    if x != id {
      if Parent(m, x).None? {
        assert Up(t, x, 1) == None;
      } else {
        var p := Parent(m, x).value;
        assert k > 0;
        MovedEnds(m, t, id, p, k - 1);
        var j: nat :| Up(t, p, j) == None;
        assert Up(t, x, j + 1) == None;
      }
    }
  }

  lemma RootEnds(t: Table, id: string)
    requires id in t && Parent(t, id).None?
    ensures Ends(t, id)
  {
    assert Up(t, id, 1) == None;
  }

  /** A parent that is not below the category does not come back to it. */
  lemma NewParentEnds(m: Table, id: string, p: string)
    requires Forest(m) && id in m && p in m && p != id && !Below(m, p, id)
    ensures Ends(m[id := m[id].(parent := Some(p))], id)
  {
    var t := m[id := m[id].(parent := Some(p))];
    var k: nat :| Up(m, p, k) == None;
    forall j | 0 <= j < k && Up(m, p, j).Some? ensures Up(m, p, j).value != id {
      assert Up(m, p, 0) == Some(p);
    }
    EndsCarries(m, t, p, k);
    assert Up(t, id, k + 1) == None;
  }

  /** A move that the checks let through cannot close a cycle. */
  lemma UpdateKeepsForest(m: Table, id: string, parent: Field)
    requires Forest(m) && Update(m, id, parent).Ok?
    ensures Forest(Update(m, id, parent).value)
  {
    var t := Update(m, id, parent).value;
    if t != m {
      if t[id].parent.Some? { NewParentEnds(m, id, t[id].parent.value); } else { RootEnds(t, id); }
      forall x | x in t ensures Ends(t, x) {
        var k: nat :| Up(m, x, k) == None;
        MovedEnds(m, t, id, x, k);
      }
    }
  }

  /** And one that the cycle check stops would have closed one: the check is exact. */
  lemma CycleCheckIsExact(m: Table, id: string, p: string)
    requires Forest(m) && id in m && p in m && p != id && p != ""
    ensures Update(m, id, Text(p)).Ok? <==> Forest(m[id := m[id].(parent := Some(p))])
  {
    var t := m[id := m[id].(parent := Some(p))];
    if Below(m, p, id) {
      var k: nat :| k > 0 && Up(m, p, k) == Some(id);
      var n := ShortestWay(m, p, id, k);
      SamePathUp(m, t, p, id, n);
      assert Up(t, id, n + 1) == Some(id);
      if Forest(t) {
        var e: nat :| Up(t, id, e) == None;
        NeverEnds(t, id, n + 1, e);
      }
    } else {
      UpdateKeepsForest(m, id, Text(p));
    }
  }

  lemma {:induction false} ShortestWay(m: Table, x: string, id: string, k: nat) returns (n: nat)
    requires Up(m, x, k) == Some(id)
    ensures n <= k && Up(m, x, n) == Some(id) && forall j :: 0 <= j < n ==> Up(m, x, j) != Some(id)
  {
    n := 0;
    while Up(m, x, n) != Some(id)
      invariant n <= k && forall j :: 0 <= j < n ==> Up(m, x, j) != Some(id)
      decreases k - n
    {
      n := n + 1;
    }
  }

  lemma {:induction false} SamePathUp(m: Table, t: Table, x: string, id: string, n: nat)
    requires t.Keys == m.Keys && forall y :: y in m && y != id ==> t[y].parent == m[y].parent
    requires Up(m, x, n) == Some(id) && forall j :: 0 <= j < n ==> Up(m, x, j) != Some(id)
    ensures Up(t, x, n) == Some(id)
    decreases n
  {
    if n > 0 {
      var p := Parent(m, x).value;
      assert Up(m, x, 0) == Some(x);
      forall j | 0 <= j < n - 1 ensures Up(m, p, j) != Some(id) { assert Up(m, x, j + 1) == Up(m, p, j); }
      SamePathUp(m, t, p, id, n - 1);
    }
  }

  /** Going round a cycle of length `n` never ends. */
  lemma {:induction false} NeverEnds(t: Table, id: string, n: nat, e: nat)
    requires n > 0 && Up(t, id, n) == Some(id)
    ensures Up(t, id, e).Some?
    decreases e
  {
    if e >= n {
      UpPlus(t, id, n, e - n);
      NeverEnds(t, id, n, e - n);
    } else {
      UpPlus(t, id, e, n - e);
    }
  }

  lemma CreateKeepsForest(m: Table, id: string, parent: Field)
    requires Forest(m) && Create(m, id, parent).Ok?
    ensures Forest(Create(m, id, parent).value)
  {
    var t := Create(m, id, parent).value;
    forall x | x in m ensures Ends(t, x) {
      var k: nat :| Up(m, x, k) == None;
      EndsCarries(m, t, x, k);
    }
    if t[id].parent.Some? {
      var k: nat :| Up(t, t[id].parent.value, k) == None;
      assert Up(t, id, k + 1) == None;
    } else {
      RootEnds(t, id);
    }
  }

  lemma RemoveKeepsForest(m: Table, id: string)
    requires Forest(m) && Remove(m, id).Ok?
    ensures Forest(Remove(m, id).value)
  {
    var t := Remove(m, id).value;
    forall x | x in t && t[x].parent.Some? ensures t[x].parent.value in t {
      assert x !in ChildrenOf(m, {id});
    }
    forall x | x in t ensures Ends(t, x) {
      var k: nat :| Up(m, x, k) == None;
      forall j | 0 <= j < k && Up(m, x, j).Some?
        ensures Up(m, x, j).value in t && t[Up(m, x, j).value].parent == m[Up(m, x, j).value].parent
      {
        NoChildNoWay(m, x, id, j);
      }
      forall y | y in t && m[y].parent.Some? ensures m[y].parent.value in t { assert y !in ChildrenOf(m, {id}); }
      EndsCarries(m, t, x, k);
    }
  }

  lemma {:induction false} NoChildNoWay(m: Table, x: string, id: string, j: nat)
    requires ChildrenOf(m, {id}) == {} && x != id
    ensures Up(m, x, j) != Some(id)
    decreases j
  {
    if j > 0 && x in m && Parent(m, x).Some? {
      assert x !in ChildrenOf(m, {id});
      NoChildNoWay(m, Parent(m, x).value, id, j - 1);
    }
  }

  // ---------- runs ----------

  datatype CategoryOp =
    | Add(id: string, parent: Field)
    | Edit(id: string, parent: Field)
    | Drop(id: string)
    | Stock(id: string, products: nat)

  ghost function Step(m: Table, op: CategoryOp): Table {
    match op
    case Add(id, parent) => (match Create(m, id, parent) case Ok(t) => t case Err(_) => m)
    case Edit(id, parent) => (match Update(m, id, parent) case Ok(t) => t case Err(_) => m)
    case Drop(id) => (match Remove(m, id) case Ok(t) => t case Err(_) => m)
    case Stock(id, products) => if id in m then m[id := m[id].(products := products)] else m
  }

  ghost function Run(m: Table, ops: seq<CategoryOp>): Table {
    if ops == [] then m else Step(Run(m, ops[..|ops| - 1]), ops[|ops| - 1])
  }

  lemma StockKeepsForest(m: Table, id: string, products: nat)
    requires Forest(m) && id in m
    ensures Forest(m[id := m[id].(products := products)])
  {
    var t := m[id := m[id].(products := products)];
    forall x | x in t ensures Ends(t, x) {
      var k: nat :| Up(m, x, k) == None;
      EndsCarries(m, t, x, k);
    }
  }

  /** After any sequence of creations, moves, removals and product changes the parents form a forest. */
  lemma {:induction false} AlwaysAForest(m: Table, ops: seq<CategoryOp>)
    requires Forest(m)
    ensures Forest(Run(m, ops))
  {
    hide Forest;
    if ops != [] {
      var k := |ops| - 1;
      AlwaysAForest(m, ops[..k]);
      var s := Run(m, ops[..k]);
      match ops[k] {
        case Add(id, parent) => if Create(s, id, parent).Ok? { CreateKeepsForest(s, id, parent); }
        case Edit(id, parent) => if Update(s, id, parent).Ok? { UpdateKeepsForest(s, id, parent); }
        case Drop(id) => if Remove(s, id).Ok? { RemoveKeepsForest(s, id); }
        case Stock(id, products) => if id in s { StockKeepsForest(s, id, products); }
      }
    }
  }
}
