/**
 The category tree: linked in place from the listed rows, every row once, product counts conserved.
 */
module CategoryTree {
  import opened Common
  import opened Categories

  datatype Tree = Tree(id: string, products: nat, children: seq<Tree>)

  // ---------- what the linked nodes look like from outside ----------

  /** The rows with one parent, in the order they were listed; `None` gives the roots. */
  function Under(m: Table, order: seq<string>, parent: Option<string>): seq<string> {
    if order == [] then []
    else
      var k := |order| - 1;
      Under(m, order[..k], parent) + (if IsUnder(m, order[k], parent) then [order[k]] else [])
  }

  predicate IsUnder(m: Table, x: string, parent: Option<string>) { x in m && Parent(m, x) == parent }

  /** The forest hanging from some rows, `n` levels deep. */
  function Build(m: Table, order: seq<string>, ids: seq<string>, n: nat): seq<Tree>
    decreases n, |ids|
  {
    if n == 0 || ids == [] then []
    else
      var k := |ids| - 1;
      Build(m, order, ids[..k], n) + [Tree(ids[k], Products(m, ids[k]),
          Build(m, order, Under(m, order, Some(ids[k])), n - 1))]
  }

  lemma BuildStep(m: Table, order: seq<string>, ids: seq<string>, n: nat)
    ensures n == 0 || ids == [] ==> Build(m, order, ids, n) == []
    ensures n > 0 && ids != [] ==>
      var k := |ids| - 1;
      Build(m, order, ids, n)
        == Build(m, order, ids[..k], n) + [Tree(ids[k], Products(m, ids[k]),
            Build(m, order, Under(m, order, Some(ids[k])), n - 1))]
  {
  }

  function Products(m: Table, x: string): nat { if x in m then m[x].products else 0 }

  function Occurrences(ts: seq<Tree>, x: string): nat
    decreases ts
  {
    if ts == [] then 0
    else
      var k := |ts| - 1;
      Occurrences(ts[..k], x) + (if ts[k].id == x then 1 else 0) + Occurrences(ts[k].children, x)
  }

  function ProductTotal(ts: seq<Tree>): nat
    decreases ts
  {
    if ts == [] then 0
    else
      var k := |ts| - 1;
      ProductTotal(ts[..k]) + ts[k].products + ProductTotal(ts[k].children)
  }

  /** The listing holds every row of the table once. */
  ghost predicate Lists(order: seq<string>, m: Table) {
    Distinct(order) && forall x :: x in order <==> x in m
  }

  // ---------- counting a row ----------

  function Hit(found: Option<string>, id: string): nat { if found == Some(id) then 1 else 0 }

  /** How many of the first `n` ancestors of `x` are `id`. */
  function Hits(m: Table, x: string, id: string, n: nat): nat {
    if n == 0 then 0 else Hits(m, x, id, n - 1) + Hit(Up(m, x, n - 1), id)
  }

  function HitsAny(m: Table, x: string, ids: seq<string>, n: nat): nat {
    if ids == [] then 0 else HitsAny(m, x, ids[..|ids| - 1], n) + Hits(m, x, ids[|ids| - 1], n)
  }

  function Multiplicity(ids: seq<string>, found: Option<string>): nat {
    if ids == [] then 0 else Multiplicity(ids[..|ids| - 1], found) + Hit(found, ids[|ids| - 1])
  }

  lemma {:induction false} HitsAnyStep(m: Table, x: string, ids: seq<string>, n: nat)
    ensures HitsAny(m, x, ids, n + 1) == HitsAny(m, x, ids, n) + Multiplicity(ids, Up(m, x, n))
    ensures HitsAny(m, x, ids, 0) == 0
    decreases ids
  {
    if ids != [] { HitsAnyStep(m, x, ids[..|ids| - 1], n); }
  }

  lemma {:induction false} AbsentMultiplicity(ids: seq<string>, found: Option<string>)
    requires found.Some? ==> found.value !in ids
    ensures Multiplicity(ids, found) == 0
  {
    if ids != [] { AbsentMultiplicity(ids[..|ids| - 1], found); }
  }

  lemma UnderStep(m: Table, order: seq<string>, parent: Option<string>)
    requires order != []
    ensures var k := |order| - 1; var before := Under(m, order[..k], parent);
      Under(m, order, parent) == if IsUnder(m, order[k], parent) then before + [order[k]] else before
  {
    var before := Under(m, order[..|order| - 1], parent);
    assert before + [] == before;
  }

  lemma MultiplicityAppend(ids: seq<string>, id: string, found: Option<string>)
    ensures Multiplicity(ids + [id], found) == Multiplicity(ids, found) + Hit(found, id)
  {
    assert (ids + [id])[..|ids|] == ids;
  }

  /** A listed row is among the children of its own parent once, and of no other. */
  lemma {:induction false} UnderMultiplicity(m: Table, order: seq<string>, parent: Option<string>, y: string)
    requires Distinct(order)
    ensures Multiplicity(Under(m, order, parent), Some(y)) == if y in order && IsUnder(m, y, parent) then 1 else 0
  {
    if order == [] {
      assert Under(m, order, parent) == [];
    } else {
      hide Under, Multiplicity;
      var k := |order| - 1;
      assert order == order[..k] + [order[k]];
      UnderMultiplicity(m, order[..k], parent, y);
      UnderStep(m, order, parent);
      MultiplicityAppend(Under(m, order[..k], parent), order[k], Some(y));
    }
  }

  lemma UpMultiplicity(m: Table, order: seq<string>, parent: Option<string>, x: string, n: nat)
    requires Lists(order, m)
    ensures Multiplicity(Under(m, order, parent), Up(m, x, n))
         == if Up(m, x, n).Some? && Up(m, x, n + 1) == parent then 1 else 0
  {
    UpStep(m, x, n);
    if Up(m, x, n).Some? {
      UnderMultiplicity(m, order, parent, Up(m, x, n).value);
    } else {
      AbsentMultiplicity(Under(m, order, parent), None);
    }
  }

  /** Being found one level further down is being found at an ancestor one further up. */
  lemma {:induction false} HitsThroughChildren(m: Table, order: seq<string>, id: string, x: string, n: nat)
    requires Lists(order, m) && x in m
    ensures Hit(Some(x), id) + HitsAny(m, x, Under(m, order, Some(id)), n) == Hits(m, x, id, n + 1)
  {
    hide Under, HitsAny, Multiplicity;
    if n == 0 {
      HitsAnyStep(m, x, Under(m, order, Some(id)), 0);
    } else {
      HitsThroughChildren(m, order, id, x, n - 1);
      HitsAnyStep(m, x, Under(m, order, Some(id)), n - 1);
      UpMultiplicity(m, order, Some(id), x, n - 1);
      UpStep(m, x, n - 1);
    }
  }

  lemma HitsAnyLast(m: Table, x: string, ids: seq<string>, n: nat)
    requires ids != []
    ensures HitsAny(m, x, ids, n) == HitsAny(m, x, ids[..|ids| - 1], n) + Hits(m, x, ids[|ids| - 1], n)
  {
  }

  lemma NothingCounts(m: Table, order: seq<string>, ids: seq<string>, n: nat, x: string)
    requires n == 0 || ids == []
    ensures Occurrences(Build(m, order, ids, n), x) == HitsAny(m, x, ids, n)
  {
    if n == 0 { HitsAnyStep(m, x, ids, 0); }
  }

  lemma {:induction false} BuildCounts(m: Table, order: seq<string>, ids: seq<string>, n: nat, x: string)
    requires Lists(order, m) && x in m
    ensures Occurrences(Build(m, order, ids, n), x) == HitsAny(m, x, ids, n)
    decreases n, |ids|
  {
    hide Under, Up, Occurrences, Hits, HitsAny, Build, Lists, Products;
    if n == 0 || ids == [] {
      NothingCounts(m, order, ids, n, x);
    } else {
      var k := |ids| - 1;
      var children := Under(m, order, Some(ids[k]));
      BuildStep(m, order, ids, n);
      BuildCounts(m, order, ids[..k], n, x);
      BuildCounts(m, order, children, n - 1, x);
      HitsThroughChildren(m, order, ids[k], x, n - 1);
      HitsAnyLast(m, x, ids, n);
      OccurrencesAppend(Build(m, order, ids[..k], n), Tree(ids[k], Products(m, ids[k]),
          Build(m, order, children, n - 1)), x);
    }
  }

  lemma OccurrencesAppend(ts: seq<Tree>, t: Tree, x: string)
    ensures Occurrences(ts + [t], x) == Occurrences(ts, x) + (if t.id == x then 1 else 0) + Occurrences(t.children, x)
    ensures ProductTotal(ts + [t]) == ProductTotal(ts) + t.products + ProductTotal(t.children)
  {
    assert (ts + [t])[..|ts|] == ts;
  }

  function Roots(m: Table, order: seq<string>): seq<string> {
    Under(m, order, None)
  }

  lemma {:induction false} RootHits(m: Table, order: seq<string>, x: string, n: nat)
    requires Lists(order, m) && x in m
    ensures HitsAny(m, x, Roots(m, order), n) == if Up(m, x, n) == None then 1 else 0
  {
    hide Under, HitsAny, Multiplicity;
    HitsAnyStep(m, x, Roots(m, order), 0);
    if n > 0 {
      RootHits(m, order, x, n - 1);
      HitsAnyStep(m, x, Roots(m, order), n - 1);
      UpMultiplicity(m, order, None, x, n - 1);
      UpStep(m, x, n - 1);
    }
  }

  /**
   In the tree drawn `n` levels deep every row whose chain of parents ends within `n` steps stands
   exactly once, and no other row at all: a row on a cycle never shows up.
   */
  lemma TreeShowsRootedRowsOnce(m: Table, order: seq<string>, x: string, n: nat)
    requires Lists(order, m) && x in m
    ensures Occurrences(Build(m, order, Roots(m, order), n), x) == if Up(m, x, n) == None then 1 else 0
  {
    BuildCounts(m, order, Roots(m, order), n, x);
    RootHits(m, order, x, n);
  }

  // ---------- how deep a forest is ----------

  /** The rows met on the way up. */
  ghost function Path(m: Table, x: string, k: nat): set<string>
    requires forall j :: 0 <= j < k ==> Up(m, x, j).Some?
  {
    if k == 0 then {} else Path(m, x, k - 1) + {Up(m, x, k - 1).value}
  }

  lemma {:induction false} PathHolds(m: Table, x: string, k: nat, j: nat)
    requires j < k && forall i :: 0 <= i < k ==> Up(m, x, i).Some?
    ensures Up(m, x, j).value in Path(m, x, k)
  {
    if j < k - 1 { PathHolds(m, x, k - 1, j); }
  }

  lemma {:induction false} PathComesFrom(m: Table, x: string, k: nat, y: string) returns (j: nat)
    requires (forall i :: 0 <= i < k ==> Up(m, x, i).Some?) && y in Path(m, x, k)
    ensures j < k && Up(m, x, j) == Some(y)
  {
    if y in Path(m, x, k - 1) {
      j := PathComesFrom(m, x, k - 1, y);
    } else {
      j := k - 1;
    }
  }

  lemma PathHas(m: Table, x: string, k: nat, y: string)
    requires forall j :: 0 <= j < k ==> Up(m, x, j).Some?
    ensures y in Path(m, x, k) <==> exists j: nat :: j < k && Up(m, x, j) == Some(y)
  {
    hide Path;
    if y in Path(m, x, k) { var _ := PathComesFrom(m, x, k, y); }
    if j: nat :| j < k && Up(m, x, j) == Some(y) { PathHolds(m, x, k, j); }
  }

  lemma NoRepeat(m: Table, x: string, i: nat, j: nat)
    requires Ends(m, x) && i < j && Up(m, x, i).Some?
    ensures Up(m, x, i) != Up(m, x, j)
  {
    if Up(m, x, i) == Up(m, x, j) {
      var y := Up(m, x, i).value;
      var e: nat :| Up(m, x, e) == None;
      UpPlus(m, x, i, j - i);
      NeverEnds(m, y, j - i, e);
      UpPlus(m, x, e, i);
      UpPlus(m, x, i, e);
    }
  }

  lemma {:induction false} PathSize(m: Table, x: string, k: nat)
    requires Ends(m, x) && forall j :: 0 <= j < k ==> Up(m, x, j).Some?
    ensures |Path(m, x, k)| == k && Path(m, x, k) <= m.Keys
  {
    if k > 0 {
      PathSize(m, x, k - 1);
      var y := Up(m, x, k - 1).value;
      PathHas(m, x, k - 1, y);
      if y in Path(m, x, k - 1) {
        var j: nat :| j < k - 1 && Up(m, x, j) == Some(y);
        NoRepeat(m, x, j, k - 1);
      }
    }
  }

  lemma {:induction false} SubsetSize(a: set<string>, b: set<string>)
    requires a <= b
    ensures |a| <= |b|
  {
    if a != {} {
      var x :| x in a;
      SubsetSize(a - {x}, b - {x});
    }
  }

  lemma {:induction false} GoneStaysGone(m: Table, x: string, i: nat, j: nat)
    requires i <= j && Up(m, x, j).Some?
    ensures Up(m, x, i).Some?
  {
    UpPlus(m, x, i, j - i);
  }

  /** No chain is longer than the table. */
  lemma DepthBound(m: Table, x: string)
    requires Ends(m, x)
    ensures Up(m, x, |m|) == None
  {
    var n := |m|;
    assert |m.Keys| == n;
    if Up(m, x, n).Some? {
      forall j | 0 <= j < n + 1 ensures Up(m, x, j).Some? { GoneStaysGone(m, x, j, n); }
      PathSize(m, x, n + 1);
      SubsetSize(Path(m, x, n + 1), m.Keys);
    }
  }

  // ---------- product counts ----------

  /** Only listed rows, with their own product counts. */
  ghost predicate FromTable(ts: seq<Tree>, m: Table, order: seq<string>)
    decreases ts
  {
    ts == [] ||
    (var k := |ts| - 1;
     && FromTable(ts[..k], m, order) && FromTable(ts[k].children, m, order)
     && ts[k].id in order && ts[k].products == Products(m, ts[k].id))
  }

  function Weighted(ts: seq<Tree>, m: Table, x: string): int { Occurrences(ts, x) * Products(m, x) }

  lemma ThreeTimes(a: nat, b: nat, c: nat, p: nat)
    ensures (a + b + c) * p == a * p + b * p + c * p
  {
  }

  lemma WeightedAppend(ts: seq<Tree>, t: Tree, m: Table, x: string)
    ensures Weighted(ts + [t], m, x)
         == Weighted(ts, m, x) + Weighted(t.children, m, x) + (if x == t.id then Products(m, x) else 0)
  {
    hide Occurrences;
    OccurrencesAppend(ts, t, x);
    ThreeTimes(Occurrences(ts, x), if t.id == x then 1 else 0, Occurrences(t.children, x), Products(m, x));
  }

  /** Adding up the tree is adding up the rows, each as often as it stands in the tree. */
  lemma {:induction false} TotalByRows(ts: seq<Tree>, m: Table, order: seq<string>)
    requires FromTable(ts, m, order) && Distinct(order)
    ensures ProductTotal(ts) == SumOver(order, x => Weighted(ts, m, x))
    decreases ts
  {
    hide Weighted;
    if ts == [] {
      NothingWeighs(m, order);
    } else {
      var k := |ts| - 1;
      var t, before := ts[k], ts[..k];
      assert ts == before + [t];
      TotalByRows(before, m, order);
      TotalByRows(t.children, m, order);
      SumOverPlus(order, x => Weighted(before, m, x), x => Weighted(t.children, m, x),
                  x => Weighted(before, m, x) + Weighted(t.children, m, x));
      forall x ensures Weighted(ts, m, x) == Weighted(before, m, x) + Weighted(t.children, m, x)
          + (if x == t.id then t.products else 0) {
        WeightedAppend(before, t, m, x);
      }
      SumOverPoint(order, x => Weighted(before, m, x) + Weighted(t.children, m, x), x => Weighted(ts, m, x), t.id,
          t.products);
    }
  }

  lemma NothingWeighs(m: Table, order: seq<string>)
    ensures SumOver(order, x => Weighted([], m, x)) == 0
  {
    SumOverEqual(order, x => Weighted([], m, x), x => 0);
    SumOverPlus(order, x => 0, x => 0, x => 0);
  }

  lemma {:induction false} UnderListed(m: Table, order: seq<string>, parent: Option<string>)
    ensures forall y :: y in Under(m, order, parent) ==> y in order
  {
    if order != [] {
      var k := |order| - 1;
      assert order == order[..k] + [order[k]];
      UnderListed(m, order[..k], parent);
    }
  }

  lemma FromTableAppend(ts: seq<Tree>, t: Tree, m: Table, order: seq<string>)
    requires FromTable(ts, m, order) && FromTable(t.children, m, order)
    requires t.id in order && t.products == Products(m, t.id)
    ensures FromTable(ts + [t], m, order)
  {
    assert (ts + [t])[..|ts|] == ts;
  }

  lemma {:induction false} BuildIsFromTable(m: Table, order: seq<string>, ids: seq<string>, n: nat)
    requires forall y :: y in ids ==> y in order
    ensures FromTable(Build(m, order, ids, n), m, order)
    decreases n, |ids|
  {
    BuildStep(m, order, ids, n);
    if n > 0 && ids != [] {
      hide Under, FromTable, Build;
      var k := |ids| - 1;
      var children := Under(m, order, Some(ids[k]));
      UnderListed(m, order, Some(ids[k]));
      BuildIsFromTable(m, order, ids[..k], n);
      BuildIsFromTable(m, order, children, n - 1);
      FromTableAppend(Build(m, order, ids[..k], n), Tree(ids[k], Products(m, ids[k]),
          Build(m, order, children, n - 1)), m, order);
    }
  }

  /** In a forest the tree holds every row exactly once, and its products add up to all of them. */
  lemma TreeIsComplete(m: Table, order: seq<string>)
    requires Forest(m) && Lists(order, m)
    ensures var tree := Build(m, order, Roots(m, order), |m|);
      && (forall x :: x in m ==> Occurrences(tree, x) == 1)
      && ProductTotal(tree) == SumOver(order, x => Products(m, x))
  {
    var roots := Roots(m, order);
    var tree := Build(m, order, roots, |m|);
    forall x | x in m ensures Occurrences(tree, x) == 1 {
      DepthBound(m, x);
      TreeShowsRootedRowsOnce(m, order, x, |m|);
    }
    UnderListed(m, order, None);
    BuildIsFromTable(m, order, roots, |m|);
    TotalByRows(tree, m, order);
    SumOverEqual(order, x => Weighted(tree, m, x), x => Products(m, x));
  }

  // ---------- linking the nodes in place ----------

  class Node {
    const id: string
    const products: nat
    var children: seq<Node>

    constructor (id: string, products: nat)
      ensures this.id == id && this.products == products && children == []
    {
      this.id, this.products, children := id, products, [];
    }
  }

  function NodesOf(byId: map<string, Node>, ids: seq<string>): seq<Node> {
    if ids == [] then []
    else
      var k := |ids| - 1;
      NodesOf(byId, ids[..k]) + (if ids[k] in byId then [byId[ids[k]]] else [])
  }

  /** One node per row, under its own key. */
  ghost predicate NodesFor(byId: map<string, Node>, m: Table) {
    && byId.Keys == m.Keys
    && forall x :: x in m ==> byId[x].id == x && byId[x].products == m[x].products
  }

  ghost predicate Linked(byId: map<string, Node>, m: Table, order: seq<string>)
    reads byId.Values
  {
    && NodesFor(byId, m)
    && forall x :: x in m ==> byId[x].children == NodesOf(byId, Under(m, order, Some(x)))
  }

  /** What a list of nodes shows, `n` levels deep. */
  ghost function Shown(ns: seq<Node>, byId: map<string, Node>, n: nat): seq<Tree>
    reads byId.Values
    decreases n, |ns|
  {
    if n == 0 || ns == [] then []
    else
      var k := |ns| - 1;
      Shown(ns[..k], byId, n)
        + [Tree(ns[k].id, ns[k].products, if ns[k] in byId.Values then Shown(ns[k].children, byId, n - 1) else [])]
  }

  lemma ShownAppend(ns: seq<Node>, node: Node, byId: map<string, Node>, n: nat)
    requires n > 0 && node in byId.Values
    ensures Shown(ns + [node], byId, n)
         == Shown(ns, byId, n) + [Tree(node.id, node.products, Shown(node.children, byId, n - 1))]
  {
    assert (ns + [node])[..|ns|] == ns;
  }

  /** The linked nodes show the tree of the rows. */
  lemma {:induction false} LinkedShowsTree(byId: map<string, Node>, m: Table, order: seq<string>, ids: seq<string>,
      n: nat)
    requires Linked(byId, m, order) && (forall x :: x in order ==> x in m) && (forall x :: x in ids ==> x in m)
    ensures Shown(NodesOf(byId, ids), byId, n) == Build(m, order, ids, n)
    decreases n, |ids|
  {
    hide Under, Build;
    BuildStep(m, order, ids, n);
    if n > 0 && ids != [] {
      hide Shown, NodesOf;
      var k := |ids| - 1;
      assert ids[k] in byId && ids == ids[..k] + [ids[k]];
      UnderListed(m, order, Some(ids[k]));
      LinkedShowsTree(byId, m, order, ids[..k], n);
      LinkedShowsTree(byId, m, order, Under(m, order, Some(ids[k])), n - 1);
      NodesOfAppend(byId, ids[..k], ids[k]);
      ShownAppend(NodesOf(byId, ids[..k]), byId[ids[k]], byId, n);
    }
  }

  lemma NodesOfAppend(byId: map<string, Node>, ids: seq<string>, x: string)
    requires x in byId
    ensures NodesOf(byId, ids + [x]) == NodesOf(byId, ids) + [byId[x]]
  {
    assert (ids + [x])[..|ids|] == ids;
  }

  method MakeNodes(m: Table, order: seq<string>) returns (byId: map<string, Node>)
    requires Lists(order, m)
    ensures NodesFor(byId, m) && fresh(byId.Values)
    ensures forall x, y :: x in byId && y in byId && x != y ==> byId[x] != byId[y]
    ensures forall x :: x in byId ==> byId[x].children == []
  {
    byId := map[];
    for i := 0 to |order|
      invariant forall x :: x in byId <==> x in order[..i]
      invariant forall x :: x in byId ==> fresh(byId[x])
      invariant forall x, y :: x in byId && y in byId && x != y ==> byId[x] != byId[y]
      invariant forall x :: x in byId ==> byId[x].id == x && byId[x].products == m[x].products && byId[x].children == []
    {
      assert order[..i + 1] == order[..i] + [order[i]];
      var node := new Node(order[i], m[order[i]].products);
      byId := byId[order[i] := node];
    }
    assert order[..|order|] == order;
  }

  /** The rows listed so far are linked. */
  ghost predicate LinkedSoFar(byId: map<string, Node>, m: Table, order: seq<string>, roots: seq<Node>)
    reads byId.Values
  {
    && NodesFor(byId, m)
    && (forall x :: x in m ==> byId[x].children == NodesOf(byId, Under(m, order, Some(x))))
    && roots == NodesOf(byId, Under(m, order, None))
  }

  /** The next node is pushed onto its parent, or onto the roots when its parent cannot be seen. */
  method LinkOne(byId: map<string, Node>, m: Table, order: seq<string>, i: nat, roots: seq<Node>)
      returns (grown: seq<Node>)
    requires i < |order| && (forall x :: x in order ==> x in m)
    requires forall x, y :: x in byId && y in byId && x != y ==> byId[x] != byId[y]
    requires LinkedSoFar(byId, m, order[..i], roots)
    modifies byId.Values
    ensures LinkedSoFar(byId, m, order[..i + 1], grown)
  {
    hide Under;
    var id := order[i];
    ghost var listed := order[..i + 1];
    assert listed[..i] == order[..i];
    var node := byId[id];
    var parent := if m[id].parent.Some? && m[id].parent.value in byId then Some(m[id].parent.value) else None;
    assert parent == Parent(m, id);
    UnderStep(m, listed, None);
    grown := roots;
    if parent.Some? {
      byId[parent.value].children := byId[parent.value].children + [node];
    } else {
      NodesOfAppend(byId, Under(m, order[..i], None), id);
      grown := roots + [node];
    }
    forall x | x in m ensures byId[x].children == NodesOf(byId, Under(m, listed, Some(x))) {
      UnderStep(m, listed, Some(x));
      if parent == Some(x) { NodesOfAppend(byId, Under(m, order[..i], Some(x)), id); }
    }
  }

  method BuildTree(m: Table, order: seq<string>) returns (roots: seq<Node>, byId: map<string, Node>)
    requires Lists(order, m)
    ensures Linked(byId, m, order) && fresh(byId.Values)
    ensures roots == NodesOf(byId, Roots(m, order))
    ensures forall n: nat :: Shown(roots, byId, n) == Build(m, order, Roots(m, order), n)
  {
    hide Shown, Build;
    byId := MakeNodes(m, order);
    roots := [];
    for i := 0 to |order|
      invariant LinkedSoFar(byId, m, order[..i], roots)
    {
      roots := LinkOne(byId, m, order, i, roots);
    }
    assert order[..|order|] == order;
    forall n: nat ensures Shown(roots, byId, n) == Build(m, order, Roots(m, order), n) {
      UnderListed(m, order, None);
      LinkedShowsTree(byId, m, order, Roots(m, order), n);
    }
  }

  lemma CreateKeepsForestIfOk(m: Table, id: string, parent: Field)
    requires Forest(m)
    ensures Create(m, id, parent).Ok? ==> Forest(Create(m, id, parent).value)
  {
    if Create(m, id, parent).Ok? { CreateKeepsForest(m, id, parent); }
  }

  lemma RemoveKeepsForestIfOk(m: Table, id: string)
    requires Forest(m)
    ensures Remove(m, id).Ok? ==> Forest(Remove(m, id).value)
  {
    if Remove(m, id).Ok? { RemoveKeepsForest(m, id); }
  }

  lemma NoneIfEmpty(m: Table, id: string)
    ensures |set x | x in m && m[x].parent == Some(id)| > 0 <==> ChildrenOf(m, {id}) != {}
  {
    assert (set x | x in m && m[x].parent == Some(id)) == ChildrenOf(m, {id});
  }

  // ---------- the service ----------

  class CategoryService {
    var rows: Table

    constructor ()
      ensures rows == map[] && Forest(rows)
    {
      rows := map[];
    }

    method Create(id: string, parent: Field) returns (r: Result<Table, CategoryError>)
      requires Forest(rows)
      modifies this
      ensures r == Categories.Create(old(rows), id, parent)
      ensures rows == (if r.Ok? then r.value else old(rows)) && Forest(rows)
    {
      hide Forest;
      CreateKeepsForestIfOk(rows, id, parent);
      var parentId: Option<string> := None;
      if parent.Text? && parent.value != "" {
        if parent.value !in rows { return Err(ParentNotFound); }
        parentId := Some(parent.value);
      }
      if id in rows { return Err(DuplicateKey); }
      rows := rows[id := Category(parentId, 0)];
      r := Ok(rows);
    }

    method Update(id: string, parent: Field) returns (r: Result<Table, CategoryError>)
      requires Forest(rows)
      modifies this
      ensures r == Categories.Update(old(rows), id, parent)
      ensures rows == (if r.Ok? then r.value else old(rows)) && Forest(rows)
    {
      hide Forest, Below, Up;
      if parent.Text? && parent.value != "" {
        if parent.value == id { return Err(OwnParent); }
        if parent.value !in rows { return Err(ParentNotFound); }
        if id in rows {
          var descendants := Descendants(rows, id);
          if parent.value in descendants { return Err(Cycle); }
        } else {
          NothingBelowMissing(rows, parent.value, id);
        }
      }
      if id !in rows { return Err(NotFound); }
      ghost var before := rows;
      match parent {
        case Absent =>
        case Null => rows := rows[id := rows[id].(parent := None)];
        case Text(p) => rows := rows[id := rows[id].(parent := if p == "" then None else Some(p))];
      }
      r := Ok(rows);
      UpdateKeepsForest(before, id, parent);
    }

    method Remove(id: string) returns (r: Result<Table, CategoryError>)
      requires Forest(rows)
      modifies this
      ensures r == Categories.Remove(old(rows), id)
      ensures rows == (if r.Ok? then r.value else old(rows)) && Forest(rows)
    {
      hide Forest;
      RemoveKeepsForestIfOk(rows, id);
      if id !in rows { return Err(NotFound); }
      var children := |set x | x in rows && rows[x].parent == Some(id)|;
      NoneIfEmpty(rows, id);
      if rows[id].products > 0 { return Err(HasProducts); }
      if children > 0 { return Err(HasChildren); }
      rows := rows - {id};
      r := Ok(rows);
    }

    /** Every row once and every product counted, whatever happened to the table before. */
    method ListTree(order: seq<string>) returns (roots: seq<Node>, byId: map<string, Node>)
      requires Forest(rows) && Lists(order, rows)
      ensures forall x :: x in rows ==> Occurrences(Shown(roots, byId, |rows|), x) == 1
      ensures ProductTotal(Shown(roots, byId, |rows|)) == SumOver(order, x => Products(old(rows), x))
    {
      roots, byId := BuildTree(rows, order);
      TreeIsComplete(rows, order);
    }
  }

  lemma NothingBelowMissing(m: Table, x: string, id: string)
    requires id !in m
    ensures !Below(m, x, id)
  {
  }
}
