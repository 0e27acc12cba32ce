/**
 Where the records of the offline queue are over whole runs: nothing is lost, and each is in one place
 exactly when none was cleared on its way.
 */
module QueuePlaces {
  import opened Common
  import opened OfflineQueue

  // ---------- what always holds ----------

  ghost predicate WasQueued(s: State, w: Write) {
    exists q :: q in s.queued && q.id == w.id && q.user == w.user && q.createdAt == w.createdAt
  }

  function Count(ws: seq<Write>, id: string): nat {
    if ws == [] then 0 else Count(ws[..|ws| - 1], id) + (if ws[|ws| - 1].id == id then 1 else 0)
  }

  /** In how many places a record is. */
  function Places(s: State, id: string): nat {
    (if id in s.store then 1 else 0) + Count(s.sent, id) + Count(s.dropped, id) + Count(s.cleared, id)
  }

  /** Every key was queued at most once; what was queued is somewhere, and what is anywhere was queued. */
  ghost predicate NothingLost(s: State) {
    forall id :: Count(s.queued, id) <= 1 && Count(s.queued, id) <= Places(s, id)
        && (Places(s, id) > 0 ==> Count(s.queued, id) == 1)
  }

  ghost predicate StoreOK(s: State) {
    && (forall k :: k in s.store ==>
      s.store[k].id == k && s.store[k].attempts < MAX_ATTEMPTS && WasQueued(s, s.store[k]))
    && (forall w :: w in s.sent ==> WasQueued(s, w))
  }

  ghost predicate Inv(s: State) { NothingLost(s) && StoreOK(s) }

  /** What a flush works through: records that were queued, each once, with tries left. */
  ghost predicate Listed(s: State, items: seq<Write>) {
    && (forall w :: w in items ==> WasQueued(s, w) && w.attempts < MAX_ATTEMPTS)
    && forall i, j :: 0 <= i < j < |items| ==> items[i].id != items[j].id
  }

  lemma CountAppend(ws: seq<Write>, w: Write, id: string)
    ensures Count(ws + [w], id) == Count(ws, id) + (if w.id == id then 1 else 0)
  {
    assert (ws + [w])[..|ws|] == ws;
  }

  lemma {:induction false} CountAbsent(ws: seq<Write>, id: string)
    ensures Count(ws, id) == 0 <==> forall w :: w in ws ==> w.id != id
  {
    if ws != [] {
      var k := |ws| - 1;
      assert ws == ws[..k] + [ws[k]];
      CountAbsent(ws[..k], id);
    }
  }

  // ---------- in how many places a record is, step by step ----------

  lemma AddPlaces(s: State, w: Write, id: string)
    requires NothingLost(s) && Fresh(s, w)
    ensures Places(Add(s, w), id) == Places(s, id) + (if id == w.id then 1 else 0)
    ensures Count(Add(s, w).queued, id) == Count(s.queued, id) + (if id == w.id then 1 else 0)
    ensures Places(s, w.id) == 0 == Count(s.queued, w.id)
  {
    CountAbsent(s.queued, w.id);
    CountAppend(s.queued, w, id);
    assert Count(s.queued, w.id) == 0;
  }

  /** Wherever a sending ends, the record is in one more place if it was no longer stored. */
  lemma AttemptPlaces(s: State, w: Write, a: Answer, id: string)
    ensures Places(Attempt(s, w, a), id) == Places(s, id) + (if id == w.id && id !in s.store then 1 else 0)
    ensures Attempt(s, w, a).queued == s.queued
  {
    hide Count, GivesUp;
    CountAppend(s.sent, w, id);
    CountAppend(s.dropped, w, id);
  }

  lemma ClearOnePlaces(s: State, w: Write, id: string)
    requires w.id in s.store
    ensures Places(ClearOne(s, w), id) == Places(s, id) && ClearOne(s, w).queued == s.queued
  {
    hide Count;
    CountAppend(s.cleared, w, id);
  }

  lemma {:induction false} ClearPlaces(s: State, mine: seq<Write>, id: string)
    requires forall w :: w in mine ==> w.id in s.store
    requires forall i, j :: 0 <= i < j < |mine| ==> mine[i].id != mine[j].id
    ensures Places(ClearItems(s, mine), id) == Places(s, id) && ClearItems(s, mine).queued == s.queued
  {
    hide Places, ClearOne;
    if mine != [] {
      var n := |mine| - 1;
      assert mine[n] in mine && forall w :: w in mine[..n] ==> w in mine;
      ClearPlaces(s, mine[..n], id);
      ClearedStore(s, mine[..n], mine[n].id);
      ClearOnePlaces(ClearItems(s, mine[..n]), mine[n], id);
    }
  }

  // ---------- nothing is lost ----------

  lemma QueuedStays(s: State, t: State, x: Write)
    requires s.queued <= t.queued && WasQueued(s, x)
    ensures WasQueued(t, x)
  {
    var q :| q in s.queued && q.id == x.id && q.user == x.user && q.createdAt == x.createdAt;
    assert q in t.queued;
  }

  lemma ListedStays(s: State, t: State, items: seq<Write>)
    requires s.queued <= t.queued && Listed(s, items)
    ensures Listed(t, items)
  {
    hide WasQueued;
    forall w | w in items ensures WasQueued(t, w) { QueuedStays(s, t, w); }
  }

  lemma PendingIsListed(s: State, user: string, items: seq<Write>)
    requires StoreOK(s) && IsPending(s.store, user, items)
    ensures Listed(s, items)
  {
    hide WasQueued;
  }

  lemma AddKeepsInv(s: State, w: Write)
    requires Inv(s) && Fresh(s, w)
    ensures Inv(Add(s, w))
  {
    hide WasQueued, Places, Count;
    var t := Add(s, w);
    forall id ensures Count(t.queued, id) <= 1 && Count(t.queued, id) <= Places(t, id)
        && (Places(t, id) > 0 ==> Count(t.queued, id) == 1) {
      AddPlaces(s, w, id);
    }
    NewIsQueued(s, w);
    forall k | k in s.store ensures WasQueued(t, s.store[k]) { QueuedStays(s, t, s.store[k]); }
    forall x | x in s.sent ensures WasQueued(t, x) { QueuedStays(s, t, x); }
  }

  lemma NewIsQueued(s: State, w: Write)
    ensures WasQueued(Add(s, w), w)
  {
    assert w in Add(s, w).queued;
  }

  lemma BumpedIsQueued(s: State, w: Write)
    requires WasQueued(s, w)
    ensures WasQueued(s, w.(attempts := w.attempts + 1))
  {
  }

  lemma AttemptKeepsInv(s: State, w: Write, a: Answer)
    requires Inv(s) && WasQueued(s, w) && w.attempts < MAX_ATTEMPTS
    ensures Inv(Attempt(s, w, a))
  {
    hide WasQueued, Places, Count;
    var t := Attempt(s, w, a);
    QueuedOnce(s, w);
    forall id ensures Count(t.queued, id) <= 1 && Count(t.queued, id) <= Places(t, id)
        && (Places(t, id) > 0 ==> Count(t.queued, id) == 1) {
      AttemptPlaces(s, w, a, id);
    }
    BumpedIsQueued(s, w);
    forall x | WasQueued(s, x) ensures WasQueued(t, x) { QueuedStays(s, t, x); }
    BumpedIsQueued(t, w);
    assert forall x :: x in t.sent ==> x in s.sent || x == w;
  }

  lemma QueuedOnce(s: State, w: Write)
    requires NothingLost(s) && WasQueued(s, w)
    ensures Count(s.queued, w.id) == 1
  {
    CountAbsent(s.queued, w.id);
    assert Count(s.queued, w.id) <= 1;
  }

  lemma ClearKeepsInv(s: State, user: string, mine: seq<Write>)
    requires Inv(s) && IsPending(s.store, user, mine)
    ensures Inv(ClearItems(s, mine))
  {
    hide WasQueued, Places, Count, ClearItems;
    var t := ClearItems(s, mine);
    forall id ensures Places(t, id) == Places(s, id) && t.queued == s.queued { ClearPlaces(s, mine, id); }
    forall k ensures k in t.store ==> k in s.store && t.store[k] == s.store[k] { ClearedStore(s, mine, k); }
    ClearedStore(s, mine, "");
    forall x | WasQueued(s, x) ensures WasQueued(t, x) { QueuedStays(s, t, x); }
  }

  /** Whatever happens during a sending, nothing is lost, and what was listed stays listed. */
  lemma {:induction false} MeanwhileKeepsInv(s: State, events: seq<Event>)
    requires Inv(s) && LegalEvents(s, events)
    ensures Inv(Meanwhile(s, events)) && s.queued <= Meanwhile(s, events).queued
    ensures Meanwhile(s, events).sent == s.sent
  {
    hide Inv, Fresh, IsPending, Add, ClearItems;
    if events != [] {
      var n := |events| - 1;
      assert forall i :: 0 <= i <= n ==> events[..n][..i] == events[..i];
      MeanwhileKeepsInv(s, events[..n]);
      var t := Meanwhile(s, events[..n]);
      assert LegalEvent(t, events[n]);
      match events[n] {
        case Arrival(w) => ArrivalKeepsInv(t, w);
        case SignOut(user, listed) =>
          ClearKeepsInv(t, user, listed);
          ClearedStore(t, listed, "");
      }
    }
  }

  lemma ArrivalKeepsInv(s: State, w: Write)
    requires Inv(s) && Fresh(s, w)
    ensures Inv(Add(s, w)) && s.queued <= Add(s, w).queued && Add(s, w).sent == s.sent
  {
    hide Inv;
    AddKeepsInv(s, w);
  }

  lemma ListedRest(s: State, items: seq<Write>)
    requires Listed(s, items) && items != []
    ensures Listed(s, items[1..]) && WasQueued(s, items[0]) && items[0].attempts < MAX_ATTEMPTS
    ensures forall w :: w in items[1..] ==> w.id != items[0].id
  {
    hide WasQueued;
    var rest := items[1..];
    assert items[0] in items && forall w :: w in rest ==> w in items;
    forall w | w in rest ensures w.id != items[0].id {
      var i :| 0 <= i < |rest| && rest[i] == w;
    }
  }

  /** One sending of a flush, up to its end. */
  lemma SendingKeepsInv(s: State, items: seq<Write>, m: Moment)
    requires Inv(s) && items != [] && Listed(s, items) && LegalEvents(s, m.events)
    ensures var t := Attempt(Meanwhile(s, m.events), items[0], m.answer);
      Inv(t) && Listed(t, items[1..]) && s.queued <= t.queued
  {
    hide Inv, Listed, LegalEvents, Meanwhile, GivesUp;
    MeanwhileKeepsInv(s, m.events);
    var d := Meanwhile(s, m.events);
    ListedStays(s, d, items);
    ListedRest(d, items);
    AttemptKeepsInv(d, items[0], m.answer);
    ListedStays(d, Attempt(d, items[0], m.answer), items[1..]);
  }

  lemma {:induction false} FlushKeepsInv(s: State, items: seq<Write>, moments: seq<Moment>)
    requires Inv(s) && Listed(s, items) && LegalMoments(s, items, moments)
    ensures Inv(FlushItems(s, items, moments)) && s.queued <= FlushItems(s, items, moments).queued
    decreases items
  {
    hide Inv, Listed, LegalEvents, Attempt, Meanwhile;
    if items != [] && moments != [] {
      SendingKeepsInv(s, items, moments[0]);
      if GoesOn(items[0], moments[0].answer) {
        FlushKeepsInv(Attempt(Meanwhile(s, moments[0].events), items[0], moments[0].answer), items[1..], moments[1..]);
      }
    }
  }

  lemma StepKeepsInv(s: State, op: QueueOp)
    requires Inv(s) && Legal(s, op)
    ensures Inv(Step(s, op))
  {
    hide NothingLost, StoreOK, Fresh, IsPending, LegalMoments, Listed;
    match op {
      case Enqueue(w) => AddKeepsInv(s, w);
      case Flush(user, items, moments) =>
        PendingIsListed(s, user, items);
        FlushKeepsInv(s, items, moments);
      case Clear(user, items) => ClearKeepsInv(s, user, items);
    }
  }

  /**
   Over any run of enqueues, flushes with arrivals and sign-outs in between, and clearings, with any
   clock: no key is queued twice, no record is ever lost, nothing is anywhere that was not queued, and
   no stored record has five attempts behind it.
   */
  lemma {:induction false} RunKeepsInv(s: State, ops: seq<QueueOp>)
    requires Inv(s) && LegalRun(s, ops)
    ensures Inv(Run(s, ops))
  {
    hide Inv, Legal, Step;
    if ops != [] {
      var k := |ops| - 1;
      assert forall i :: 0 <= i <= k ==> ops[..k][..i] == ops[..i];
      RunKeepsInv(s, ops[..k]);
      StepKeepsInv(Run(s, ops[..k]), ops[k]);
    }
  }

  // ---------- each record in one place ----------

  ghost predicate EachOnce(s: State) {
    forall id :: Places(s, id) == Count(s.queued, id) <= 1
  }

  ghost predicate Twice(s: State, id: string) { Places(s, id) > Count(s.queued, id) }

  lemma OnceExactly(s: State)
    requires NothingLost(s)
    ensures EachOnce(s) <==> forall id :: !Twice(s, id)
  {
    hide Places, Count;
    if forall id :: !Twice(s, id) {
      forall id ensures Places(s, id) == Count(s.queued, id) <= 1 { assert !Twice(s, id); }
    } else {
      var id :| Twice(s, id);
      assert Places(s, id) != Count(s.queued, id);
    }
  }

  /** When its sending ends, each record the flush comes to is still stored. */
  ghost predicate StillStored(s: State, items: seq<Write>, moments: seq<Moment>)
    decreases items
  {
    items == [] || moments == [] ||
    (var d := Meanwhile(s, moments[0].events);
     && items[0].id in d.store
     && (GoesOn(items[0], moments[0].answer) ==> StillStored(Attempt(d, items[0], moments[0].answer), items[1..],
         moments[1..])))
  }

  lemma HappenPlaces(s: State, e: Event, id: string)
    requires Inv(s) && LegalEvent(s, e)
    ensures Twice(Happen(s, e), id) <==> Twice(s, id)
  {
    hide Places, Count, StoreOK, Add, ClearItems;
    match e
    case Arrival(w) => AddPlaces(s, w, id);
    case SignOut(_, listed) => ClearPlaces(s, listed, id);
  }

  lemma {:induction false} MeanwhilePlaces(s: State, events: seq<Event>, id: string)
    requires Inv(s) && LegalEvents(s, events)
    ensures Twice(Meanwhile(s, events), id) <==> Twice(s, id)
  {
    hide Inv, Twice, Happen, LegalEvent;
    if events != [] {
      var n := |events| - 1;
      assert forall i :: 0 <= i <= n ==> events[..n][..i] == events[..i];
      MeanwhileKeepsInv(s, events[..n]);
      MeanwhilePlaces(s, events[..n], id);
      HappenPlaces(Meanwhile(s, events[..n]), events[n], id);
    }
  }

  /** The places after one sending. */
  lemma SendingPlaces(s: State, items: seq<Write>, m: Moment, id: string)
    requires Inv(s) && items != [] && Listed(s, items) && LegalEvents(s, m.events)
    ensures var d := Meanwhile(s, m.events);
      Twice(Attempt(d, items[0], m.answer), id) <==> Twice(s, id) || (id == items[0].id && id !in d.store)
  {
    hide StoreOK, Listed, LegalEvents, Places, Count, Meanwhile, GivesUp;
    var d := Meanwhile(s, m.events);
    MeanwhileKeepsInv(s, m.events);
    MeanwhilePlaces(s, m.events, id);
    AttemptPlaces(d, items[0], m.answer, id);
    ListedStays(s, d, items);
    ListedRest(d, items);
    QueuedOnce(d, items[0]);
    assert Count(d.queued, items[0].id) <= Places(d, items[0].id);
  }

  lemma {:induction false} FlushKeepsTwice(s: State, items: seq<Write>, moments: seq<Moment>, id: string)
    requires Inv(s) && Listed(s, items) && LegalMoments(s, items, moments) && Twice(s, id)
    ensures Twice(FlushItems(s, items, moments), id)
    decreases items
  {
    hide Inv, Listed, LegalEvents, Attempt, Meanwhile, Twice;
    if items != [] && moments != [] {
      SendingKeepsInv(s, items, moments[0]);
      SendingPlaces(s, items, moments[0], id);
      if GoesOn(items[0], moments[0].answer) {
        FlushKeepsTwice(Attempt(Meanwhile(s, moments[0].events), items[0], moments[0].answer), items[1..],
            moments[1..], id);
      }
    }
  }

  /** A flush leaves every record in one place if and only if none it came to was cleared on its way. */
  lemma {:induction false} FlushOnceExactly(s: State, items: seq<Write>, moments: seq<Moment>)
    requires Inv(s) && EachOnce(s) && Listed(s, items) && LegalMoments(s, items, moments)
    ensures EachOnce(FlushItems(s, items, moments)) <==> StillStored(s, items, moments)
    decreases items
  {
    hide StoreOK, Listed, LegalEvents, Attempt, Meanwhile, Twice, EachOnce, NothingLost;
    FlushKeepsInv(s, items, moments);
    if items != [] && moments != [] {
      var d := Meanwhile(s, moments[0].events);
      var t := Attempt(d, items[0], moments[0].answer);
      SendingKeepsInv(s, items, moments[0]);
      OnceExactly(s);
      OnceExactly(t);
      OnceExactly(FlushItems(s, items, moments));
      forall id ensures Twice(t, id) <==> id == items[0].id && id !in d.store {
        SendingPlaces(s, items, moments[0], id);
      }
      if GoesOn(items[0], moments[0].answer) {
        if items[0].id in d.store {
          FlushOnceExactly(t, items[1..], moments[1..]);
        } else {
          FlushKeepsTwice(t, items[1..], moments[1..], items[0].id);
        }
      }
    }
  }

  ghost predicate NoneClearedOnItsWay(s: State, ops: seq<QueueOp>) {
    forall k :: 0 <= k < |ops| && ops[k].Flush? ==> StillStored(Run(s, ops[..k]), ops[k].items, ops[k].moments)
  }

  lemma StepOnceExactly(s: State, op: QueueOp)
    requires Inv(s) && Legal(s, op) && EachOnce(s)
    ensures EachOnce(Step(s, op)) <==> (op.Flush? ==> StillStored(s, op.items, op.moments))
  {
    hide StoreOK, Places, Count, Listed, LegalMoments, StillStored, FlushItems;
    match op {
      case Enqueue(w) =>
        forall id ensures Places(Add(s, w), id) == Count(Add(s, w).queued, id) <= 1 { AddPlaces(s, w, id); }
      case Flush(user, items, moments) =>
        PendingIsListed(s, user, items);
        FlushOnceExactly(s, items, moments);
      case Clear(user, items) =>
        forall id ensures Places(ClearItems(s, items), id) == Count(ClearItems(s, items).queued, id) <= 1 {
          ClearPlaces(s, items, id);
        }
    }
  }

  lemma StepKeepsTwice(s: State, op: QueueOp, id: string)
    requires Inv(s) && Legal(s, op) && Twice(s, id)
    ensures Twice(Step(s, op), id)
  {
    hide StoreOK, Listed, LegalMoments, Places, Count;
    match op {
      case Enqueue(w) => AddPlaces(s, w, id);
      case Flush(user, items, moments) =>
        PendingIsListed(s, user, items);
        FlushKeepsTwice(s, items, moments, id);
      case Clear(user, items) => ClearPlaces(s, items, id);
    }
  }

  /** Over whole runs: every record is in one place if and only if none was ever cleared on its way. */
  lemma {:induction false} OncePerRunExactly(s: State, ops: seq<QueueOp>)
    requires Inv(s) && EachOnce(s) && LegalRun(s, ops)
    ensures EachOnce(Run(s, ops)) <==> NoneClearedOnItsWay(s, ops)
  {
    hide Inv, EachOnce, Legal, Step, Twice, StillStored;
    if ops != [] {
      var k := |ops| - 1;
      assert forall i :: 0 <= i <= k ==> ops[..k][..i] == ops[..i];
      OncePerRunExactly(s, ops[..k]);
      RunKeepsInv(s, ops[..k]);
      RunKeepsInv(s, ops);
      var t := Run(s, ops[..k]);
      if EachOnce(t) {
        StepOnceExactly(t, ops[k]);
      } else {
        InvParts(t);
        InvParts(Run(s, ops));
        OnceExactly(t);
        var id :| Twice(t, id);
        StepKeepsTwice(t, ops[k], id);
        OnceExactly(Run(s, ops));
      }
    }
  }

  lemma InvParts(s: State)
    requires Inv(s)
    ensures NothingLost(s) && StoreOK(s)
  {
  }

  // ---------- nobody else's records ----------

  /** Nothing in these events is about this record: no new write with its key, no sign-out of its user. */
  ghost predicate Aside(events: seq<Event>, w: Write) {
    forall e :: e in events ==> if e.Arrival? then e.write.id != w.id else e.user != w.user
  }

  lemma HappenLeaves(s: State, e: Event, w: Write)
    requires LegalEvent(s, e) && Aside([e], w) && w.id in s.store && s.store[w.id] == w
    ensures w.id in Happen(s, e).store && Happen(s, e).store[w.id] == w
  {
    assert e in [e];
    if e.SignOut? { ClearedStore(s, e.listed, w.id); }
  }

  lemma {:induction false} MeanwhileLeaves(s: State, events: seq<Event>, w: Write)
    requires LegalEvents(s, events) && Aside(events, w) && w.id in s.store && s.store[w.id] == w
    ensures w.id in Meanwhile(s, events).store && Meanwhile(s, events).store[w.id] == w
  {
    hide LegalEvent;
    if events != [] {
      var n := |events| - 1;
      assert events[n] in events && forall e :: e in events[..n] ==> e in events;
      assert forall i :: 0 <= i <= n ==> events[..n][..i] == events[..i];
      MeanwhileLeaves(s, events[..n], w);
      HappenLeaves(Meanwhile(s, events[..n]), events[n], w);
    }
  }

  /** A flush leaves every record it did not list as it is, unless its own user signs out meanwhile. */
  lemma {:induction false} FlushLeaves(s: State, items: seq<Write>, moments: seq<Moment>, w: Write)
    requires LegalMoments(s, items, moments) && w.id in s.store && s.store[w.id] == w
    requires (forall x :: x in items ==> x.id != w.id) && forall m :: m in moments ==> Aside(m.events, w)
    ensures w.id in FlushItems(s, items, moments).store && FlushItems(s, items, moments).store[w.id] == w
    decreases items
  {
    hide LegalEvents, Meanwhile, Aside, GivesUp;
    if items != [] && moments != [] {
      var m := moments[0];
      assert m in moments;
      Members(items);
      MeanwhileLeaves(s, m.events, w);
      var t := Attempt(Meanwhile(s, m.events), items[0], m.answer);
      if GoesOn(items[0], m.answer) {
        assert forall x :: x in moments[1..] ==> x in moments;
        FlushLeaves(t, items[1..], moments[1..], w);
      }
    }
  }

  /** Flushing or clearing one user's queue leaves every other user's records as they are. */
  lemma OthersUntouched(s: State, op: QueueOp, k: string)
    requires Inv(s) && !op.Enqueue? && Legal(s, op)
    requires k in s.store && s.store[k].user != op.user
    requires op.Flush? ==> forall m :: m in op.moments ==> Aside(m.events, s.store[k])
    ensures k in Step(s, op).store && Step(s, op).store[k] == s.store[k]
  {
    hide LegalMoments, Aside, FlushItems, WasQueued, NothingLost;
    forall w | w in op.items ensures w.id != k {
      assert s.store[w.id] == w;
    }
    if op.Flush? {
      FlushLeaves(s, op.items, op.moments, s.store[k]);
    } else {
      ClearedStore(s, op.items, k);
    }
  }
}
