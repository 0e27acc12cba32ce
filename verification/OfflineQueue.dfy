/**
 The offline write queue: what is queued while there is no network is sent later, oldest first.
 The database of the browser is a map from keys to records whose single operations never fail.
 While one record is on its way others may be queued, and a user may sign out and clear the queue.
 */
module OfflineQueue {
  import opened Common

  datatype Write = Write(id: string, user: string, createdAt: int, attempts: nat)

  /** How one sending ends: accepted, or an error with or without an HTTP status. */
  datatype Answer = Accepted | Failed(status: Option<int>) {
    /** The server will not change its mind. */
    predicate Final() {
      Failed? && status.Some? && 400 <= status.value < 500 && status.value != 408 && status.value != 429
    }
  }

  /** What else can happen on the page while a record is on its way. */
  datatype Event = Arrival(write: Write) | SignOut(user: string, listed: seq<Write>)

  /** One sending: what happened while it was under way, and how it ended. */
  datatype Moment = Moment(events: seq<Event>, answer: Answer)

  /** The stored records, and the history: everything queued, sent, given up and cleared, in order. */
  datatype State = State(
    store: map<string, Write>, queued: seq<Write>, sent: seq<Write>, dropped: seq<Write>, cleared: seq<Write>)

  const MAX_ATTEMPTS := 5

  // ---------- single steps ----------

  function Add(s: State, w: Write): State {
    s.(store := s.store[w.id := w], queued := s.queued + [w])
  }

  function ClearOne(s: State, w: Write): State {
    s.(store := s.store - {w.id}, cleared := s.cleared + [w])
  }

  function ClearItems(s: State, mine: seq<Write>): State {
    if mine == [] then s else ClearOne(ClearItems(s, mine[..|mine| - 1]), mine[|mine| - 1])
  }

  function Happen(s: State, e: Event): State {
    match e
    case Arrival(w) => Add(s, w)
    case SignOut(_, listed) => ClearItems(s, listed)
  }

  function Meanwhile(s: State, events: seq<Event>): State {
    if events == [] then s else Happen(Meanwhile(s, events[..|events| - 1]), events[|events| - 1])
  }

  predicate GivesUp(w: Write, a: Answer) { a.Final() || w.attempts + 1 >= MAX_ATTEMPTS }

  /** A retry writes the record as it was listed, whether it is still stored or not. */
  function Attempt(s: State, w: Write, a: Answer): State {
    if a.Accepted? then s.(store := s.store - {w.id}, sent := s.sent + [w])
    else if GivesUp(w, a) then s.(store := s.store - {w.id}, dropped := s.dropped + [w])
    else s.(store := s.store[w.id := w.(attempts := w.attempts + 1)])
  }

  /** Only an error worth another try stops the flush. */
  predicate GoesOn(w: Write, a: Answer) { a.Accepted? || GivesUp(w, a) }

  /** The records one by one, until an error worth another try, or until the page goes away. */
  function FlushItems(s: State, items: seq<Write>, moments: seq<Moment>): State
    decreases items
  {
    if items == [] || moments == [] then s
    else
      var t := Attempt(Meanwhile(s, moments[0].events), items[0], moments[0].answer);
      if GoesOn(items[0], moments[0].answer) then FlushItems(t, items[1..], moments[1..]) else t
  }

  ghost predicate ByAge(items: seq<Write>) {
    forall i, j :: 0 <= i < j < |items| ==> items[i].id != items[j].id && items[i].createdAt <= items[j].createdAt
  }

  /** The key of a record is one of its fields. */
  ghost predicate Keyed(store: map<string, Write>) { forall k :: k in store ==> store[k].id == k }

  /** The records of one user, oldest first. */
  ghost predicate IsPending(store: map<string, Write>, user: string, items: seq<Write>) {
    && ByAge(items)
    && (forall w :: w in items ==> w.id in store && store[w.id] == w && w.user == user)
    && (forall k :: k in store && store[k].user == user ==> store[k] in items)
  }

  // ---------- runs ----------

  datatype QueueOp =
    | Enqueue(write: Write)
    | Flush(user: string, items: seq<Write>, moments: seq<Moment>)
    | Clear(user: string, items: seq<Write>)

  function Step(s: State, op: QueueOp): State {
    match op
    case Enqueue(w) => Add(s, w)
    case Flush(_, items, moments) => FlushItems(s, items, moments)
    case Clear(_, items) => ClearItems(s, items)
  }

  /** A new record has a key never used before; its time is whatever the clock says. */
  ghost predicate Fresh(s: State, w: Write) {
    w.attempts == 0 && forall q :: q in s.queued ==> q.id != w.id
  }

  ghost predicate LegalEvent(s: State, e: Event) {
    match e
    case Arrival(w) => Fresh(s, w)
    case SignOut(user, listed) => IsPending(s.store, user, listed)
  }

  ghost predicate LegalEvents(s: State, events: seq<Event>) {
    forall i :: 0 <= i < |events| ==> LegalEvent(Meanwhile(s, events[..i]), events[i])
  }

  ghost predicate LegalMoments(s: State, items: seq<Write>, moments: seq<Moment>)
    decreases items
  {
    items == [] || moments == [] ||
    (&& LegalEvents(s, moments[0].events)
     && (GoesOn(items[0], moments[0].answer) ==>
           LegalMoments(Attempt(Meanwhile(s, moments[0].events), items[0], moments[0].answer), items[1..],
               moments[1..])))
  }

  ghost predicate Legal(s: State, op: QueueOp) {
    match op
    case Enqueue(w) => Fresh(s, w)
    case Flush(user, items, moments) => IsPending(s.store, user, items) && LegalMoments(s, items, moments)
    case Clear(user, items) => IsPending(s.store, user, items)
  }

  function Run(s: State, ops: seq<QueueOp>): State {
    if ops == [] then s else Step(Run(s, ops[..|ops| - 1]), ops[|ops| - 1])
  }

  ghost predicate LegalRun(s: State, ops: seq<QueueOp>) {
    forall k :: 0 <= k < |ops| ==> Legal(Run(s, ops[..k]), ops[k])
  }

  const EMPTY: State := State(map[], [], [], [], [])

  // ---------- what a step leaves alone ----------

  lemma {:induction false} ClearedStore(s: State, mine: seq<Write>, k: string)
    ensures k in ClearItems(s, mine).store <==> k in s.store && forall w :: w in mine ==> w.id != k
    ensures k in ClearItems(s, mine).store ==> ClearItems(s, mine).store[k] == s.store[k]
    ensures ClearItems(s, mine).sent == s.sent && ClearItems(s, mine).queued == s.queued
    ensures ClearItems(s, mine).dropped == s.dropped
  {
    if mine != [] {
      var n := |mine| - 1;
      assert mine == mine[..n] + [mine[n]];
      ClearedStore(s, mine[..n], k);
    }
  }

  lemma {:induction false} MeanwhileLogs(s: State, events: seq<Event>)
    ensures Meanwhile(s, events).sent == s.sent && Meanwhile(s, events).dropped == s.dropped
  {
    if events != [] {
      var n := |events| - 1;
      MeanwhileLogs(s, events[..n]);
      if events[n].SignOut? { ClearedStore(Meanwhile(s, events[..n]), events[n].listed, ""); }
    }
  }

  lemma Members(items: seq<Write>)
    requires items != []
    ensures forall x :: x in items <==> x == items[0] || x in items[1..]
  {
    assert items == [items[0]] + items[1..];
  }

  // ---------- sorting by age ----------

  /** What a flush reports. */
  datatype SyncResult = SyncResult(sent: nat, failed: nat, left: nat)

  function Insert(items: seq<Write>, w: Write): seq<Write> {
    if items == [] || items[|items| - 1].createdAt <= w.createdAt then items + [w]
    else Insert(items[..|items| - 1], w) + [items[|items| - 1]]
  }

  lemma {:induction false} InsertMembers(items: seq<Write>, w: Write)
    ensures forall x :: x in Insert(items, w) <==> x in items || x == w
  {
    if items != [] && items[|items| - 1].createdAt > w.createdAt {
      var k := |items| - 1;
      assert items == items[..k] + [items[k]];
      InsertMembers(items[..k], w);
    }
  }

  lemma {:induction false} InsertKeepsOrder(items: seq<Write>, w: Write)
    requires ByAge(items) && forall x :: x in items ==> x.id != w.id
    ensures ByAge(Insert(items, w))
  {
    if items != [] && items[|items| - 1].createdAt > w.createdAt {
      var k := |items| - 1;
      var shorter, last := items[..k], items[k];
      assert last in items && forall x :: x in shorter ==> x in items;
      InsertKeepsOrder(shorter, w);
      InsertMembers(shorter, w);
      YoungerThanLast(items, k);
      LastByAge(Insert(shorter, w), last);
    } else {
      if items != [] { YoungerThanLast(items, |items| - 1); }
      forall x | x in items ensures x.createdAt <= w.createdAt {
        assert x == items[|items| - 1] || x in items[..|items| - 1];
      }
      LastByAge(items, w);
    }
  }

  lemma YoungerThanLast(items: seq<Write>, k: nat)
    requires ByAge(items) && k == |items| - 1
    ensures forall x :: x in items[..k] ==> x.id != items[k].id && x.createdAt <= items[k].createdAt
    ensures forall x :: x in items <==> x in items[..k] || x == items[k]
  {
    assert items == items[..k] + [items[k]];
    forall x | x in items[..k] ensures x.id != items[k].id && x.createdAt <= items[k].createdAt {
      var i :| 0 <= i < k && items[..k][i] == x;
      assert items[i] == x;
    }
  }

  lemma LastByAge(items: seq<Write>, w: Write)
    requires ByAge(items) && forall x :: x in items ==> x.id != w.id && x.createdAt <= w.createdAt
    ensures ByAge(items + [w])
  {
    forall i, j | 0 <= i < j < |items| + 1
      ensures (items + [w])[i].id != (items + [w])[j].id && (items + [w])[i].createdAt <= (items + [w])[j].createdAt
    {
      assert items[i] in items;
    }
  }

  /** Every stored record once, in whatever order the database gives them. */
  ghost predicate ListsStore(listing: seq<Write>, store: map<string, Write>) {
    && (forall i, j :: 0 <= i < j < |listing| ==> listing[i].id != listing[j].id)
    && (forall w :: w in listing ==> w.id in store && store[w.id] == w)
    && (forall k :: k in store ==> store[k] in listing)
  }

  lemma FlushStep(s: State, items: seq<Write>, moments: seq<Moment>, i: nat)
    requires i <= |items| && i <= |moments|
    ensures FlushItems(s, items[i..], moments[i..]) ==
      if i == |items| || i == |moments| then s
      else
        var t := Attempt(Meanwhile(s, moments[i].events), items[i], moments[i].answer);
        if GoesOn(items[i], moments[i].answer) then FlushItems(t, items[i + 1..], moments[i + 1..]) else t
  {
    if i < |items| && i < |moments| {
      assert items[i..][1..] == items[i + 1..] && moments[i..][1..] == moments[i + 1..];
    }
  }

  // ---------- the queue itself ----------

  class Queue {
    var store: map<string, Write>
    ghost var queued: seq<Write>
    ghost var sent: seq<Write>
    ghost var dropped: seq<Write>
    ghost var cleared: seq<Write>

    ghost function View(): State
      reads this
    {
      State(store, queued, sent, dropped, cleared)
    }

    constructor ()
      ensures View() == State(map[], [], [], [], [])
    {
      store, queued, sent, dropped, cleared := map[], [], [], [], [];
    }

    /** Without a signed-in user nothing is queued. */
    method Enqueue(user: Option<string>, id: string, now: int) returns (ok: bool)
      modifies this
      ensures ok == (user.Some? && id !in old(store))
      ensures View() == if ok then Add(old(View()), Write(id, user.value, now, 0)) else old(View())
    {
      if user.None? || id in store { return false; }
      var w := Write(id, user.value, now, 0);
      store, queued := store[id := w], queued + [w];
      ok := true;
    }

    /** Everything stored, filtered by user and sorted by age. */
    method Pending(user: Option<string>, listing: seq<Write>) returns (items: seq<Write>)
      requires ListsStore(listing, store)
      ensures if user.Some? then IsPending(store, user.value, items) else items == []
    {
      hide Insert;
      items := [];
      if user.None? { return; }
      for i := 0 to |listing|
        invariant ByAge(items)
        invariant forall w :: w in items <==> w in listing[..i] && w.user == user.value
      {
        var w := listing[i];
        assert listing[..i + 1] == listing[..i] + [w];
        if w.user == user.value {
          forall x | x in items ensures x.id != w.id {
            var j :| 0 <= j < i && listing[..i][j] == x;
            assert listing[j].id != listing[i].id;
          }
          InsertKeepsOrder(items, w);
          InsertMembers(items, w);
          items := Insert(items, w);
        }
      }
      assert listing[..|listing|] == listing;
    }

    method ClearListed(listed: seq<Write>)
      modifies this
      ensures View() == ClearItems(old(View()), listed)
    {
      for i := 0 to |listed|
        invariant View() == ClearItems(old(View()), listed[..i])
      {
        assert listed[..i + 1][..i] == listed[..i];
        store, cleared := store - {listed[i].id}, cleared + [listed[i]];
      }
      assert listed[..|listed|] == listed;
    }

    /** What other parts of the page do while a sending is under way. */
    method Wait(events: seq<Event>)
      modifies this
      ensures View() == Meanwhile(old(View()), events)
    {
      hide ClearItems;
      for i := 0 to |events|
        invariant View() == Meanwhile(old(View()), events[..i])
      {
        assert events[..i + 1][..i] == events[..i];
        match events[i] {
          case Arrival(w) => store, queued := store[w.id := w], queued + [w];
          case SignOut(_, listed) => ClearListed(listed);
        }
      }
      assert events[..|events|] == events;
    }

    /** Sends the queue of one user; `moments` says how each sending ends and what happens meanwhile. */
    method Flush(user: Option<string>, listing: seq<Write>, moments: seq<Moment>)
      returns (r: SyncResult, ghost items: seq<Write>)
      requires ListsStore(listing, store)
      modifies this
      ensures if user.Some? then IsPending(old(store), user.value, items) else items == []
      ensures View() == FlushItems(old(View()), items, moments)
      ensures r.sent == |sent| - |old(sent)| && r.failed == |dropped| - |old(dropped)|
      ensures r.left == if user.Some? then |set k | k in store && store[k].user == user.value| else 0
    {
      hide IsPending, ListsStore, Meanwhile, FlushItems;
      var list := Pending(user, listing);
      items := list;
      assert items[0..] == items && moments[0..] == moments;
      var sentNow, failed := 0, 0;
      var i := 0;
      while i < |list| && i < |moments|
        invariant 0 <= i <= |list| && i <= |moments|
        invariant FlushItems(old(View()), items, moments) == FlushItems(View(), list[i..], moments[i..])
        invariant sentNow == |sent| - |old(sent)| && failed == |dropped| - |old(dropped)|
        decreases |list| - i
      {
        var item, m := list[i], moments[i];
        ghost var before := View();
        FlushStep(before, items, moments, i);
        Wait(m.events);
        MeanwhileLogs(before, m.events);
        i := i + 1;
        if m.answer.Accepted? {
          store, sent := store - {item.id}, sent + [item];
          sentNow := sentNow + 1;
        } else if m.answer.Final() {
          store, dropped := store - {item.id}, dropped + [item];
          failed := failed + 1;
        } else if item.attempts + 1 >= MAX_ATTEMPTS {
          store, dropped := store - {item.id}, dropped + [item];
          failed := failed + 1;
        } else {
          store := store[item.id := item.(attempts := item.attempts + 1)];
          assert View() == FlushItems(old(View()), items, moments);
          break;
        }
      }
      if i == |list| || i == |moments| { FlushStep(View(), items, moments, i); }
      var left := if user.Some? then |set k | k in store && store[k].user == user.value| else 0;
      r := SyncResult(sentNow, failed, left);
    }

    /** Signing out clears one's own records. */
    method ClearMine(user: Option<string>, listing: seq<Write>) returns (ghost mine: seq<Write>)
      requires ListsStore(listing, store)
      modifies this
      ensures if user.Some? then IsPending(old(store), user.value, mine) else mine == []
      ensures View() == ClearItems(old(View()), mine)
    {
      var list := Pending(user, listing);
      mine := list;
      ClearListed(list);
    }
  }
}
