/**
 The order in which each user's writes are sent over whole runs, with whatever the clock says.
 */
module QueueOrder {
  import opened Common
  import opened OfflineQueue
  import opened QueuePlaces

  // ---------- the order of sending ----------

  /** Nothing of the same user among these is younger. */
  ghost predicate NotOlder(w: Write, sent: seq<Write>) {
    forall x :: x in sent && x.user == w.user ==> x.createdAt <= w.createdAt
  }

  ghost predicate SentSorted(sent: seq<Write>) {
    forall i, j :: 0 <= i < j < |sent| && sent[i].user == sent[j].user ==> sent[i].createdAt <= sent[j].createdAt
  }

  /** A user's writes leave in the order they were made, and nothing stored is older than what has left. */
  ghost predicate InOrder(s: State) {
    SentSorted(s.sent) && forall k :: k in s.store ==> NotOlder(s.store[k], s.sent)
  }

  /** What a flush with these answers sends. */
  function SentBy(items: seq<Write>, answers: seq<Answer>): seq<Write>
    decreases items
  {
    if items == [] || answers == [] || !GoesOn(items[0], answers[0]) then []
    else (if answers[0].Accepted? then [items[0]] else []) + SentBy(items[1..], answers[1..])
  }

  function Answers(moments: seq<Moment>): (r: seq<Answer>)
    ensures |r| == |moments| && forall i :: 0 <= i < |r| ==> r[i] == moments[i].answer
  {
    seq(|moments|, i requires 0 <= i < |moments| => moments[i].answer)
  }

  /**
   What a flush sends depends on its list and the answers alone: signing out in the middle of it takes
   nothing of the list back, so a cleared record is still sent.
   */
  lemma {:induction false} SigningOutStopsNothing(s: State, items: seq<Write>, moments: seq<Moment>)
    ensures FlushItems(s, items, moments).sent == s.sent + SentBy(items, Answers(moments))
    decreases items
  {
    hide Meanwhile;
    if items != [] && moments != [] {
      var m := moments[0];
      MeanwhileLogs(s, m.events);
      if GoesOn(items[0], m.answer) {
        assert Answers(moments)[1..] == Answers(moments[1..]);
        SigningOutStopsNothing(Attempt(Meanwhile(s, m.events), items[0], m.answer), items[1..], moments[1..]);
      }
    }
  }

  lemma {:induction false} SentByIsSorted(items: seq<Write>, answers: seq<Answer>)
    requires ByAge(items)
    ensures forall x :: x in SentBy(items, answers) ==> x in items
    ensures SentSorted(SentBy(items, answers))
    decreases items
  {
    if items != [] && answers != [] && GoesOn(items[0], answers[0]) {
      SentByIsSorted(items[1..], answers[1..]);
      Members(items);
      var rest := SentBy(items[1..], answers[1..]);
      forall x | x in rest ensures items[0].createdAt <= x.createdAt {
        var i :| 0 <= i < |items[1..]| && items[1..][i] == x;
      }
    }
  }

  lemma {:induction false} CountTwo(ws: seq<Write>, i: nat, j: nat)
    requires i < j < |ws| && ws[i].id == ws[j].id
    ensures Count(ws, ws[j].id) >= 2
  {
    var k := |ws| - 1;
    if j < k {
      CountTwo(ws[..k], i, j);
    } else {
      CountAbsent(ws[..k], ws[j].id);
      assert ws[i] in ws[..k] by { assert ws[..k][i] == ws[i]; }
    }
  }

  /** A key names one write for ever. */
  lemma SameWrite(s: State, t: State, x: Write, y: Write)
    requires NothingLost(t) && s.queued <= t.queued && WasQueued(s, x) && WasQueued(t, y) && x.id == y.id
    ensures x.user == y.user && x.createdAt == y.createdAt
  {
    hide Places, Count;
    var p :| p in s.queued && p.id == x.id && p.user == x.user && p.createdAt == x.createdAt;
    var q :| q in t.queued && q.id == y.id && q.user == y.user && q.createdAt == y.createdAt;
    var i :| 0 <= i < |s.queued| && s.queued[i] == p;
    var j :| 0 <= j < |t.queued| && t.queued[j] == q;
    assert Count(t.queued, x.id) <= 1;
    if i < j { CountTwo(t.queued, i, j); } else if j < i { CountTwo(t.queued, j, i); }
  }

  lemma {:induction false} GoneMeanwhile(s: State, events: seq<Event>, k: string)
    requires LegalEvents(s, events) && k !in s.store && exists q :: q in s.queued && q.id == k
    ensures k !in Meanwhile(s, events).store && exists q :: q in Meanwhile(s, events).queued && q.id == k
  {
    if events != [] {
      var n := |events| - 1;
      assert forall i :: 0 <= i <= n ==> events[..n][..i] == events[..i];
      GoneMeanwhile(s, events[..n], k);
      var t := Meanwhile(s, events[..n]);
      assert LegalEvent(t, events[n]);
      var q :| q in t.queued && q.id == k;
      if events[n].SignOut? { ClearedStore(t, events[n].listed, k); }
      assert q in Happen(t, events[n]).queued;
    }
  }

  /** A record that has left, and is not on the flush's list any more, stays away. */
  lemma {:induction false} GoneStays(s: State, items: seq<Write>, moments: seq<Moment>, k: string)
    requires LegalMoments(s, items, moments) && (forall w :: w in items ==> w.id != k)
    requires k !in s.store && exists q :: q in s.queued && q.id == k
    ensures k !in FlushItems(s, items, moments).store
    decreases items
  {
    hide Meanwhile, LegalEvents;
    if items != [] && moments != [] {
      var d := Meanwhile(s, moments[0].events);
      GoneMeanwhile(s, moments[0].events, k);
      Members(items);
      var q :| q in d.queued && q.id == k;
      assert q in Attempt(d, items[0], moments[0].answer).queued;
      if GoesOn(items[0], moments[0].answer) {
        GoneStays(Attempt(d, items[0], moments[0].answer), items[1..], moments[1..], k);
      }
    }
  }

  /** A listed record still stored after a flush is no older than anything the flush sent. */
  lemma {:induction false} LeftAreYounger(s: State, items: seq<Write>, moments: seq<Moment>, j: nat)
    requires Inv(s) && Listed(s, items) && ByAge(items) && LegalMoments(s, items, moments) && j < |items|
    requires items[j].id in FlushItems(s, items, moments).store
    ensures forall x :: x in SentBy(items, Answers(moments)) ==> x.createdAt <= items[j].createdAt
    decreases items
  {
    hide Inv, LegalEvents, Meanwhile, WasQueued, GivesUp;
    if moments != [] && GoesOn(items[0], moments[0].answer) {
      var d := Meanwhile(s, moments[0].events);
      var t := Attempt(d, items[0], moments[0].answer);
      SendingKeepsInv(s, items, moments[0]);
      assert Answers(moments)[1..] == Answers(moments[1..]);
      if j == 0 {
        ListedRest(s, items);
        ListedQueued(t, s, items[0]);
        GoneStays(t, items[1..], moments[1..], items[0].id);
      } else {
        assert items[1..][j - 1] == items[j];
        LeftAreYounger(t, items[1..], moments[1..], j - 1);
      }
    }
  }

  lemma ListedQueued(t: State, s: State, w: Write)
    requires s.queued <= t.queued && WasQueued(s, w)
    ensures exists q :: q in t.queued && q.id == w.id
  {
    QueuedStays(s, t, w);
    var q :| q in t.queued && q.id == w.id && q.user == w.user && q.createdAt == w.createdAt;
  }

  // ---------- what becomes of a record that is cleared on its way ----------

  /** The queue before the flush sends its record `i`. */
  function Before(s: State, items: seq<Write>, moments: seq<Moment>, i: nat): State
    requires i <= |items| && i <= |moments|
    decreases i
  {
    if i == 0 then s
    else Before(Attempt(Meanwhile(s, moments[0].events), items[0], moments[0].answer), items[1..], moments[1..], i - 1)
  }

  /** The flush gets as far as record `i`. */
  ghost predicate Reaches(items: seq<Write>, moments: seq<Moment>, i: nat) {
    i < |items| && i < |moments| && forall j :: 0 <= j < i ==> GoesOn(items[j], moments[j].answer)
  }

  /**
   A record the flush comes to is stored at its end if and only if its sending ended with an error worth
   another try, cleared meanwhile or not: so a cleared one comes back exactly then, and is otherwise
   sent or given up all the same. In every such case it is in two places from then on.
   */
  lemma {:induction false} ClearedRecordReturns(s: State, items: seq<Write>, moments: seq<Moment>, i: nat)
    requires Inv(s) && Listed(s, items) && LegalMoments(s, items, moments) && Reaches(items, moments, i)
    ensures items[i].id in FlushItems(s, items, moments).store <==> !GoesOn(items[i], moments[i].answer)
    ensures items[i].id !in Meanwhile(Before(s, items, moments, i), moments[i].events).store ==>
      Twice(FlushItems(s, items, moments), items[i].id)
    decreases i
  {
    hide Inv, LegalEvents, Meanwhile, WasQueued, GivesUp, Twice, Listed;
    var d := Meanwhile(s, moments[0].events);
    var t := Attempt(d, items[0], moments[0].answer);
    SendingKeepsInv(s, items, moments[0]);
    if i > 0 {
      assert Reaches(items[1..], moments[1..], i - 1) by {
        forall j | 0 <= j < i - 1 ensures GoesOn(items[1..][j], moments[1..][j].answer) {
          assert GoesOn(items[j + 1], moments[j + 1].answer);
        }
      }
      assert GoesOn(items[0], moments[0].answer);
      ClearedRecordReturns(t, items[1..], moments[1..], i - 1);
    } else {
      SendingPlaces(s, items, moments[0], items[0].id);
      if GoesOn(items[0], moments[0].answer) {
        ListedRest(s, items);
        ListedQueued(t, s, items[0]);
        GoneStays(t, items[1..], moments[1..], items[0].id);
        if Twice(t, items[0].id) { FlushKeepsTwice(t, items[1..], moments[1..], items[0].id); }
      }
    }
  }

  /** The first record is cleared on its way by its own user's sign-out. */
  function SignedOutFlush(w: Write, a: Answer): QueueOp { Flush(w.user, [w], [Moment([SignOut(w.user, [w])], a)]) }

  /** A queue of one record: signing out in the middle of its sending clears it, and it is sent or back anyway. */
  lemma ClearedOnItsWay(user: string)
    ensures var w := Write("a", user, 10, 0); var s := Add(EMPTY, w);
      var lost, sent := SignedOutFlush(w, Failed(None)), SignedOutFlush(w, Accepted);
      && Legal(EMPTY, Enqueue(w)) && Legal(s, lost) && Legal(s, sent)
      && Step(s, lost).cleared == [w] && "a" in Step(s, lost).store
      && Step(s, sent).cleared == [w] && Step(s, sent).sent == [w]
  {
    var w := Write("a", user, 10, 0);
    var s, events := Add(EMPTY, w), [SignOut(user, [w])];
    assert [w][..0] == [] && events[..0] == [] && [w][1..] == [];
    assert ClearItems(s, [w]) == ClearOne(s, w);
    assert Meanwhile(s, events) == ClearOne(s, w);
    assert Meanwhile(s, events[..0]) == s && IsPending(s.store, user, [w]);
    assert LegalEvents(s, events);
    forall a: Answer
      ensures Step(s, SignedOutFlush(w, a)) == Attempt(ClearOne(s, w), w, a) && Legal(s, SignedOutFlush(w, a))
    {
      var moments := [Moment(events, a)];
      assert moments[1..] == [];
      assert FlushItems(s, [w], moments) ==
        if GoesOn(w, a) then FlushItems(Attempt(ClearOne(s, w), w, a), [w][1..], moments[1..])
        else Attempt(ClearOne(s, w), w, a);
    }
  }

  // ---------- which new writes a flush leaves ----------

  /** These writes without the ones a sign-out lists. */
  function Without(ws: seq<Write>, listed: seq<Write>): seq<Write> {
    if ws == [] then []
    else
      var k := |ws| - 1;
      Without(ws[..k], listed) + (if exists x :: x in listed && x.id == ws[k].id then [] else [ws[k]])
  }

  /** The new writes after these events: what arrived, without what a later sign-out listed. */
  function Newcomers(ws: seq<Write>, events: seq<Event>): seq<Write> {
    if events == [] then ws
    else
      var k := |events| - 1;
      var before := Newcomers(ws, events[..k]);
      match events[k]
      case Arrival(w) => before + [w]
      case SignOut(_, listed) => Without(before, listed)
  }

  /** The new writes after the sendings a flush comes to. */
  function NewcomersOf(ws: seq<Write>, items: seq<Write>, moments: seq<Moment>): seq<Write>
    decreases items
  {
    if items == [] || moments == [] then ws
    else
      var now := Newcomers(ws, moments[0].events);
      if GoesOn(items[0], moments[0].answer) then NewcomersOf(now, items[1..], moments[1..]) else now
  }

  lemma {:induction false} WithoutMembers(ws: seq<Write>, listed: seq<Write>)
    ensures forall w :: w in Without(ws, listed) <==> w in ws && forall x :: x in listed ==> x.id != w.id
  {
    if ws != [] {
      var k := |ws| - 1;
      assert ws == ws[..k] + [ws[k]];
      WithoutMembers(ws[..k], listed);
    }
  }

  /** Apart from the known keys, the store holds exactly these writes. */
  ghost predicate HoldsNew(store: map<string, Write>, known: set<string>, ws: seq<Write>) {
    && (forall w :: w in ws ==> w.id !in known && w.id in store && store[w.id] == w)
    && (forall k :: k in store && k !in known ==> store[k] in ws)
  }

  /** Only keys that were queued before are known. */
  ghost predicate Known(s: State, known: set<string>) {
    forall k :: k in known ==> exists q :: q in s.queued && q.id == k
  }

  lemma KnownStays(s: State, t: State, known: set<string>)
    requires Known(s, known) && s.queued <= t.queued
    ensures Known(t, known)
  {
    forall k | k in known ensures exists q :: q in t.queued && q.id == k {
      var q :| q in s.queued && q.id == k;
      assert q in t.queued;
    }
  }

  lemma ArrivalIsNew(s: State, w: Write, known: set<string>, ws: seq<Write>)
    requires Inv(s) && Fresh(s, w) && Known(s, known) && HoldsNew(s.store, known, ws)
    ensures HoldsNew(Add(s, w).store, known, ws + [w])
  {
    hide WasQueued, NothingLost;
    assert w.id !in known;
    assert w.id !in s.store by { if w.id in s.store { StoredWasQueued(s, w.id); } }
    assert forall x :: x in ws + [w] <==> x in ws || x == w;
  }

  lemma SignOutTakesNew(s: State, listed: seq<Write>, known: set<string>, ws: seq<Write>)
    requires HoldsNew(s.store, known, ws) && Keyed(s.store)
    ensures HoldsNew(ClearItems(s, listed).store, known, Without(ws, listed))
  {
    hide ClearItems, Without;
    var t := ClearItems(s, listed);
    WithoutMembers(ws, listed);
    forall k ensures k in t.store <==> k in s.store && forall w :: w in listed ==> w.id != k
             ensures k in t.store ==> t.store[k] == s.store[k]
    {
      ClearedStore(s, listed, k);
    }
    forall k | k in t.store && k !in known ensures t.store[k] in Without(ws, listed) {
      assert s.store[k] in ws && s.store[s.store[k].id] == s.store[k];
    }
  }

  lemma {:induction false} NewcomersStored(s: State, events: seq<Event>, known: set<string>, ws: seq<Write>)
    requires Inv(s) && LegalEvents(s, events) && Known(s, known) && HoldsNew(s.store, known, ws)
    ensures HoldsNew(Meanwhile(s, events).store, known, Newcomers(ws, events))
  {
    hide Inv, Fresh, IsPending, Known, HoldsNew, Add, ClearItems, Without, Keyed;
    if events != [] {
      var n := |events| - 1;
      assert forall i :: 0 <= i <= n ==> events[..n][..i] == events[..i];
      NewcomersStored(s, events[..n], known, ws);
      MeanwhileKeepsInv(s, events[..n]);
      var t := Meanwhile(s, events[..n]);
      KnownStays(s, t, known);
      KeysAreIds(t);
      assert LegalEvent(t, events[n]);
      match events[n] {
        case Arrival(w) => ArrivalIsNew(t, w, known, Newcomers(ws, events[..n]));
        case SignOut(_, listed) => SignOutTakesNew(t, listed, known, Newcomers(ws, events[..n]));
      }
    }
  }

  lemma SendingKeepsNew(s: State, w: Write, a: Answer, known: set<string>, ws: seq<Write>)
    requires HoldsNew(s.store, known, ws) && w.id in known
    ensures HoldsNew(Attempt(s, w, a).store, known, ws)
  {
    hide GivesUp;
  }

  /** The keys a flush adds to the store are exactly those of its newcomers. */
  lemma {:induction false} FlushLeavesNewcomers(
      s: State, items: seq<Write>, moments: seq<Moment>, known: set<string>, ws: seq<Write>)
    requires Inv(s) && Listed(s, items) && LegalMoments(s, items, moments)
    requires Known(s, known) && HoldsNew(s.store, known, ws) && forall w :: w in items ==> w.id in known
    ensures HoldsNew(FlushItems(s, items, moments).store, known, NewcomersOf(ws, items, moments))
    decreases items
  {
    hide Inv, Listed, LegalEvents, Meanwhile, Attempt, Known, HoldsNew, Newcomers;
    if items != [] && moments != [] {
      var d := Meanwhile(s, moments[0].events);
      var now := Newcomers(ws, moments[0].events);
      NewcomersStored(s, moments[0].events, known, ws);
      SendingKeepsInv(s, items, moments[0]);
      Members(items);
      SendingKeepsNew(d, items[0], moments[0].answer, known, now);
      if GoesOn(items[0], moments[0].answer) {
        var t := Attempt(d, items[0], moments[0].answer);
        KnownStays(s, t, known);
        FlushLeavesNewcomers(t, items[1..], moments[1..], known, now);
      }
    }
  }

  lemma KeysAreIds(s: State)
    requires Inv(s)
    ensures Keyed(s.store)
  {
    hide WasQueued, NothingLost;
  }

  lemma StoreIsKnown(s: State)
    requires Inv(s)
    ensures Known(s, s.store.Keys) && HoldsNew(s.store, s.store.Keys, [])
  {
    hide WasQueued, NothingLost;
    forall k | k in s.store ensures exists q :: q in s.queued && q.id == k { StoredWasQueued(s, k); }
  }

  /** What a flush adds to the store, read off the events alone. */
  lemma NewKeysAreNewcomers(s: State, user: string, items: seq<Write>, moments: seq<Moment>)
    requires Inv(s) && IsPending(s.store, user, items) && LegalMoments(s, items, moments)
    ensures var t := FlushItems(s, items, moments); var ws := NewcomersOf([], items, moments);
      && (forall w :: w in ws ==> w.id !in s.store && w.id in t.store && t.store[w.id] == w)
      && (forall k :: k in t.store && k !in s.store ==> t.store[k] in ws)
  {
    hide Known, LegalMoments, FlushItems, NewcomersOf, Listed;
    StoreIsKnown(s);
    InvParts(s);
    PendingIsListed(s, user, items);
    FlushLeavesNewcomers(s, items, moments, s.store.Keys, []);
  }

  /**
   The write comes in time: nothing of its user that was sent is younger. For a flush this is asked of
   the newcomers it leaves, against what was sent before and what the flush sends; events, list and
   answers decide it beforehand.
   */
  ghost predicate Timely(s: State, op: QueueOp) {
    match op
    case Enqueue(w) => NotOlder(w, s.sent)
    case Flush(_, items, moments) =>
      forall w :: w in NewcomersOf([], items, moments) ==> NotOlder(w, s.sent + SentBy(items, Answers(moments)))
    case Clear(_, _) => true
  }

  lemma FlushSendsSorted(s: State, user: string, items: seq<Write>, answers: seq<Answer>)
    requires InOrder(s) && IsPending(s.store, user, items)
    ensures SentSorted(s.sent + SentBy(items, answers))
  {
    SentByIsSorted(items, answers);
    var more := SentBy(items, answers);
    forall x, y | x in s.sent && y in more && x.user == y.user ensures x.createdAt <= y.createdAt {
      assert NotOlder(s.store[y.id], s.sent);
    }
  }

  /** A record stored before and after a flush is no older than anything sent by its end. */
  lemma KeptInOrder(s: State, user: string, items: seq<Write>, moments: seq<Moment>, k: string)
    requires Inv(s) && InOrder(s) && IsPending(s.store, user, items) && LegalMoments(s, items, moments)
    requires k in s.store && k in FlushItems(s, items, moments).store
    ensures NotOlder(FlushItems(s, items, moments).store[k], s.sent + SentBy(items, Answers(moments)))
  {
    hide NothingLost, LegalMoments, WasQueued, FlushItems, SentBy, SentSorted;
    var t := FlushItems(s, items, moments);
    PendingIsListed(s, user, items);
    FlushKeepsInv(s, items, moments);
    SameWrite(s, t, s.store[k], t.store[k]);
    assert NotOlder(s.store[k], s.sent);
    SentByIsSorted(items, Answers(moments));
    if s.store[k].user == user {
      var j :| 0 <= j < |items| && items[j] == s.store[k];
      LeftAreYounger(s, items, moments, j);
    }
  }

  /** A flush keeps the order if and only if what arrives during it, and is still stored at its end, comes in time. */
  lemma FlushOrderExactly(s: State, user: string, items: seq<Write>, moments: seq<Moment>)
    requires Inv(s) && InOrder(s) && IsPending(s.store, user, items) && LegalMoments(s, items, moments)
    ensures InOrder(FlushItems(s, items, moments)) <==> Timely(s, Flush(user, items, moments))
  {
    hide Inv, LegalMoments, FlushItems, SentBy, SentSorted, NotOlder, IsPending, NewcomersOf;
    var t := FlushItems(s, items, moments);
    SigningOutStopsNothing(s, items, moments);
    NewKeysAreNewcomers(s, user, items, moments);
    FlushSendsSorted(s, user, items, Answers(moments));
    forall k | k in s.store && k in t.store ensures NotOlder(t.store[k], t.sent) {
      KeptInOrder(s, user, items, moments, k);
    }
  }

  lemma StepOrderExactly(s: State, op: QueueOp)
    requires Inv(s) && InOrder(s) && Legal(s, op)
    ensures InOrder(Step(s, op)) <==> Timely(s, op)
  {
    hide LegalMoments, FlushItems, SentBy, SentSorted, NotOlder, WasQueued, ClearItems, NothingLost, NewcomersOf;
    match op {
      case Enqueue(w) =>
        assert w.id !in s.store by { if w.id in s.store { StoredWasQueued(s, w.id); } }
        var t := Add(s, w);
        assert t.store[w.id] == w && t.sent == s.sent;
        assert forall k :: k in s.store ==> k in t.store && t.store[k] == s.store[k];
      case Flush(user, items, moments) => FlushOrderExactly(s, user, items, moments);
      case Clear(user, items) =>
        forall k ensures k in ClearItems(s, items).store ==>
          k in s.store && ClearItems(s, items).store[k] == s.store[k] {
          ClearedStore(s, items, k);
        }
        ClearedStore(s, items, "");
    }
  }

  lemma StoredWasQueued(s: State, k: string)
    requires StoreOK(s) && k in s.store
    ensures exists q :: q in s.queued && q.id == k
  {
    assert WasQueued(s, s.store[k]);
  }

  ghost predicate AlwaysInOrder(s: State, ops: seq<QueueOp>) {
    forall k :: 0 <= k <= |ops| ==> InOrder(Run(s, ops[..k]))
  }

  ghost predicate AllTimely(s: State, ops: seq<QueueOp>) {
    forall k :: 0 <= k < |ops| ==> Timely(Run(s, ops[..k]), ops[k])
  }

  /** Over whole runs: the order holds throughout if and only if every write comes in time. */
  lemma {:induction false} OrderPerRunExactly(s: State, ops: seq<QueueOp>)
    requires Inv(s) && InOrder(s) && LegalRun(s, ops)
    ensures AlwaysInOrder(s, ops) <==> AllTimely(s, ops)
  {
    hide Inv, InOrder, Legal, Step, Timely;
    if ops == [] {
      assert ops[..0] == [];
    } else {
      var k := |ops| - 1;
      assert forall i :: 0 <= i <= k ==> ops[..k][..i] == ops[..i];
      assert ops[..k + 1] == ops;
      OrderPerRunExactly(s, ops[..k]);
      RunKeepsInv(s, ops[..k]);
      if InOrder(Run(s, ops[..k])) { StepOrderExactly(Run(s, ops[..k]), ops[k]); }
    }
  }

  /**
   From an empty queue, with any clock and any sign-outs: nothing is lost or tried five times; every
   record is in one place if and only if none was cleared on its way; and each user's writes leave in
   the order they were made, older ones first, if and only if every write comes in time.
   */
  lemma QueueIsFaithful(ops: seq<QueueOp>)
    requires LegalRun(EMPTY, ops)
    ensures Inv(Run(EMPTY, ops))
    ensures EachOnce(Run(EMPTY, ops)) <==> NoneClearedOnItsWay(EMPTY, ops)
    ensures AlwaysInOrder(EMPTY, ops) <==> AllTimely(EMPTY, ops)
  {
    hide Run, LegalRun, NoneClearedOnItsWay, AlwaysInOrder, AllTimely;
    assert Inv(EMPTY) && EachOnce(EMPTY) && InOrder(EMPTY);
    RunKeepsInv(EMPTY, ops);
    OncePerRunExactly(EMPTY, ops);
    OrderPerRunExactly(EMPTY, ops);
  }

  // ---------- a clock that jumps back ----------

  function Young(user: string): Write { Write("a", user, 10, 0) }

  function Elder(user: string): Write { Write("b", user, 5, 0) }

  /** The older write is queued while the younger one is on its way. */
  function Jump(user: string): QueueOp { Flush(user, [Young(user)], [Moment([Arrival(Elder(user))], Accepted)]) }

  lemma JumpOutcome(user: string)
    ensures Step(Add(EMPTY, Young(user)), Jump(user))
         == Attempt(Add(Add(EMPTY, Young(user)), Elder(user)), Young(user), Accepted)
    ensures SentBy([Young(user)], Answers(Jump(user).moments)) == [Young(user)]
    ensures NewcomersOf([], [Young(user)], Jump(user).moments) == [Elder(user)]
  {
    var s, events, items := Add(EMPTY, Young(user)), [Arrival(Elder(user))], [Young(user)];
    var moments := [Moment(events, Accepted)];
    assert Meanwhile(s, events) == Happen(Meanwhile(s, events[..0]), events[0]) == Add(s, Elder(user));
    var t := Attempt(Meanwhile(s, events), Young(user), Accepted);
    assert FlushItems(s, items, moments) == FlushItems(t, items[1..], moments[1..]);
    assert items[1..] == [] && Step(s, Jump(user)) == FlushItems(s, items, moments);
    assert Newcomers([], events) == Newcomers([], events[..0]) + [Elder(user)] == [] + [Elder(user)];
    assert NewcomersOf([], items, moments) == NewcomersOf([Elder(user)], items[1..], moments[1..]);
    assert Answers(moments) == [Accepted] && SentBy(items, [Accepted]) == items + SentBy(items[1..], [Accepted][1..]);
  }

  lemma JumpIsLegal(user: string)
    ensures Legal(EMPTY, Enqueue(Young(user))) && Legal(Add(EMPTY, Young(user)), Jump(user))
  {
    var s, events := Add(EMPTY, Young(user)), [Arrival(Elder(user))];
    assert "a"[0] != "b"[0];
    assert events[..0] == [] && Jump(user).moments[1..] == [];
    assert LegalEvents(s, events);
  }

  /** A clock that jumps back while a record is on its way lets a younger write overtake an older one. */
  lemma ClockJumpBreaksOrder(user: string)
    ensures var s := Add(EMPTY, Young(user));
      && Legal(EMPTY, Enqueue(Young(user))) && Legal(s, Jump(user)) && InOrder(s)
      && !Timely(s, Jump(user)) && !InOrder(Step(s, Jump(user)))
  {
    hide FlushItems, SentBy, Meanwhile, LegalMoments, NewcomersOf;
    var s := Add(EMPTY, Young(user));
    var t := Step(s, Jump(user));
    JumpIsLegal(user);
    JumpOutcome(user);
    assert "a"[0] != "b"[0];
    assert s.sent + [Young(user)] == [Young(user)];
    assert t.sent == [Young(user)] && "b" in t.store && t.store["b"] == Elder(user);
    assert Young(user) in t.sent && !NotOlder(Elder(user), t.sent);
  }

  // ---------- a clock that never goes back ----------

  /** Each new write is no older than what its user queued before. */
  ghost predicate SteadyEvents(s: State, events: seq<Event>) {
    forall i :: 0 <= i < |events| && events[i].Arrival? ==> NotOlder(events[i].write, Meanwhile(s, events[..i]).queued)
  }

  ghost predicate SteadyMoments(s: State, items: seq<Write>, moments: seq<Moment>)
    decreases items
  {
    items == [] || moments == [] ||
    (&& SteadyEvents(s, moments[0].events)
     && (GoesOn(items[0], moments[0].answer) ==>
           SteadyMoments(Attempt(Meanwhile(s, moments[0].events), items[0], moments[0].answer), items[1..],
               moments[1..])))
  }

  ghost predicate Steady(s: State, op: QueueOp) {
    match op
    case Enqueue(w) => NotOlder(w, s.queued)
    case Flush(_, items, moments) => SteadyMoments(s, items, moments)
    case Clear(_, _) => true
  }

  /** What is stored came from `base`, is on the list, or is no older than anything queued by then. */
  ghost predicate Newer(base: seq<Write>, known: set<string>, store: map<string, Write>) {
    forall k :: k in store && k !in known ==> NotOlder(store[k], base)
  }

  lemma NotOlderPrefix(w: Write, base: seq<Write>, all: seq<Write>)
    requires base <= all && NotOlder(w, all)
    ensures NotOlder(w, base)
  {
    assert forall x :: x in base ==> x in all;
  }

  lemma {:induction false} MeanwhileNewer(s: State, events: seq<Event>, base: seq<Write>, known: set<string>)
    requires Inv(s) && LegalEvents(s, events) && SteadyEvents(s, events) && base <= s.queued
        && Newer(base, known, s.store)
    ensures Newer(base, known, Meanwhile(s, events).store)
  {
    hide Inv, NotOlder, ClearItems, Fresh, IsPending;
    if events != [] {
      var n := |events| - 1;
      assert forall i :: 0 <= i <= n ==> events[..n][..i] == events[..i];
      MeanwhileNewer(s, events[..n], base, known);
      MeanwhileKeepsInv(s, events[..n]);
      var t := Meanwhile(s, events[..n]);
      match events[n] {
        case Arrival(w) =>
          assert NotOlder(w, t.queued);
          NotOlderPrefix(w, base, t.queued);
        case SignOut(_, listed) =>
          forall k ensures k in ClearItems(t, listed).store ==>
            k in t.store && ClearItems(t, listed).store[k] == t.store[k] {
            ClearedStore(t, listed, k);
          }
      }
    }
  }

  lemma AttemptNewer(s: State, w: Write, a: Answer, base: seq<Write>, known: set<string>)
    requires Newer(base, known, s.store) && w.id in known
    ensures Newer(base, known, Attempt(s, w, a).store)
  {
    hide NotOlder, GivesUp;
  }

  lemma {:induction false} FlushNewer(s: State, items: seq<Write>, moments: seq<Moment>, base: seq<Write>,
      known: set<string>)
    requires Inv(s) && Listed(s, items) && LegalMoments(s, items, moments) && SteadyMoments(s, items, moments)
    requires base <= s.queued && Newer(base, known, s.store) && forall w :: w in items ==> w.id in known
    ensures Newer(base, known, FlushItems(s, items, moments).store)
    decreases items
  {
    hide Inv, Listed, LegalEvents, SteadyEvents, Meanwhile, Attempt, Newer;
    if items != [] && moments != [] {
      var d := Meanwhile(s, moments[0].events);
      MeanwhileNewer(s, moments[0].events, base, known);
      SendingKeepsInv(s, items, moments[0]);
      Members(items);
      AttemptNewer(d, items[0], moments[0].answer, base, known);
      if GoesOn(items[0], moments[0].answer) {
        FlushNewer(Attempt(d, items[0], moments[0].answer), items[1..], moments[1..], base, known);
      }
    }
  }

  /** A write no older than anything queued is no older than anything sent. */
  lemma QueuedCoversSent(s: State, w: Write, sent: seq<Write>)
    requires NotOlder(w, s.queued) && forall x :: x in sent ==> WasQueued(s, x)
    ensures NotOlder(w, sent)
  {
    forall x | x in sent && x.user == w.user ensures x.createdAt <= w.createdAt {
      var q :| q in s.queued && q.id == x.id && q.user == x.user && q.createdAt == x.createdAt;
    }
  }

  /** A clock that never goes back brings every write in time, ties and sign-outs included. */
  lemma SteadyIsTimely(s: State, op: QueueOp)
    requires Inv(s) && Legal(s, op) && Steady(s, op)
    ensures Timely(s, op)
  {
    hide NotOlder, WasQueued, LegalMoments, SteadyMoments, FlushItems, SentBy, NothingLost, NewcomersOf;
    match op {
      case Enqueue(w) => QueuedCoversSent(s, w, s.sent);
      case Flush(user, items, moments) =>
        var t := FlushItems(s, items, moments);
        PendingIsListed(s, user, items);
        FlushNewer(s, items, moments, s.queued, s.store.Keys);
        SentByIsSorted(items, Answers(moments));
        NewKeysAreNewcomers(s, user, items, moments);
        var sent := s.sent + SentBy(items, Answers(moments));
        forall w | w in NewcomersOf([], items, moments) ensures NotOlder(w, sent) {
          assert t.store[w.id] == w;
          QueuedCoversSent(s, w, sent);
        }
      case Clear(_, _) =>
    }
  }
}
