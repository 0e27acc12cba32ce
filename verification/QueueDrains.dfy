/**
 How long undisturbed flushes of the offline queue can take.
 */
module QueueDrains {
  import opened Common
  import opened OfflineQueue
  import opened QueuePlaces

  // ---------- the queue drains ----------

  /** What a flush with these answers and no arrivals leaves of the list. */
  function Left(items: seq<Write>, answers: seq<Answer>): seq<Write>
    requires |answers| >= |items|
    decreases items
  {
    if items == [] then []
    else if GoesOn(items[0], answers[0]) then Left(items[1..], answers[1..])
    else [items[0].(attempts := items[0].attempts + 1)] + items[1..]
  }

  function Quiet(answers: seq<Answer>): (r: seq<Moment>)
    ensures |r| == |answers| && forall i :: 0 <= i < |r| ==> r[i] == Moment([], answers[i])
  {
    seq(|answers|, i requires 0 <= i < |answers| => Moment([], answers[i]))
  }

  lemma BumpedPending(store: map<string, Write>, user: string, items: seq<Write>)
    requires Keyed(store) && IsPending(store, user, items) && items != []
    ensures var w := items[0].(attempts := items[0].attempts + 1);
      IsPending(store[w.id := w], user, [w] + items[1..]) && Keyed(store[w.id := w])
  {
    var w := items[0].(attempts := items[0].attempts + 1);
    var t, rest := store[w.id := w], items[1..];
    var now := [w] + rest;
    Members(items);
    Members(now);
    assert now[0] == w && now[1..] == rest;
    forall x | x in rest ensures x.id != w.id {
      var i :| 0 <= i < |rest| && rest[i] == x;
    }
  }

  lemma RemovedPending(store: map<string, Write>, user: string, items: seq<Write>)
    requires Keyed(store) && IsPending(store, user, items) && items != []
    ensures IsPending(store - {items[0].id}, user, items[1..]) && Keyed(store - {items[0].id})
  {
    var rest := items[1..];
    Members(items);
    forall x | x in rest ensures x.id != items[0].id {
      var i :| 0 <= i < |rest| && rest[i] == x;
    }
  }

  /** The list after an undisturbed flush is the list before it without what was sent or given up. */
  lemma {:induction false} QuietFlushLeaves(s: State, user: string, items: seq<Write>, answers: seq<Answer>)
    requires Keyed(s.store) && IsPending(s.store, user, items) && |answers| >= |items|
    ensures var t := FlushItems(s, items, Quiet(answers));
      Keyed(t.store) && IsPending(t.store, user, Left(items, answers))
    decreases items
  {
    hide IsPending, Keyed;
    if items != [] {
      assert Meanwhile(s, []) == s && Quiet(answers)[0] == Moment([], answers[0]);
      var t := Attempt(s, items[0], answers[0]);
      if GoesOn(items[0], answers[0]) {
        assert Quiet(answers)[1..] == Quiet(answers[1..]);
        RemovedPending(s.store, user, items);
        QuietFlushLeaves(t, user, items[1..], answers[1..]);
      } else {
        BumpedPending(s.store, user, items);
      }
    }
  }

  /** The tries that are left. */
  function Tries(items: seq<Write>): int {
    if items == [] then 0 else MAX_ATTEMPTS - items[0].attempts + Tries(items[1..])
  }

  lemma {:induction false} LeftHasFewerTries(items: seq<Write>, answers: seq<Answer>)
    requires items != [] && |answers| >= |items| && forall w :: w in items ==> w.attempts < MAX_ATTEMPTS
    ensures Tries(Left(items, answers)) < Tries(items)
    ensures forall w :: w in Left(items, answers) ==> w.attempts < MAX_ATTEMPTS
    decreases items
  {
    var w, rest := items[0], items[1..];
    assert w in items && forall x :: x in rest ==> x in items;
    if !GoesOn(w, answers[0]) {
      assert ([w.(attempts := w.attempts + 1)] + rest)[1..] == rest;
    } else if rest != [] {
      LeftHasFewerTries(rest, answers[1..]);
    } else {
      assert Left(items, answers) == [] && Tries(rest) == 0;
    }
  }

  /** One undisturbed flush after another, each with an answer for every record it finds. */
  function LeftAfter(items: seq<Write>, rounds: seq<seq<Answer>>): seq<Write> {
    if rounds == [] then items
    else
      var k := |rounds| - 1;
      var before := LeftAfter(items, rounds[..k]);
      if |rounds[k]| >= |before| then Left(before, rounds[k]) else before
  }

  ghost predicate Complete(items: seq<Write>, rounds: seq<seq<Answer>>) {
    forall k :: 0 <= k < |rounds| ==> |rounds[k]| >= |LeftAfter(items, rounds[..k])|
  }

  lemma {:induction false} TriesRunOut(items: seq<Write>, rounds: seq<seq<Answer>>)
    requires Complete(items, rounds) && forall w :: w in items ==> w.attempts < MAX_ATTEMPTS
    ensures var left := LeftAfter(items, rounds);
      (left == [] || Tries(left) + |rounds| <= Tries(items)) && forall w :: w in left ==> w.attempts < MAX_ATTEMPTS
  {
    if rounds != [] {
      var k := |rounds| - 1;
      assert forall i :: 0 <= i <= k ==> rounds[..k][..i] == rounds[..i];
      TriesRunOut(items, rounds[..k]);
      var before := LeftAfter(items, rounds[..k]);
      if before != [] { LeftHasFewerTries(before, rounds[k]); }
    }
  }

  lemma {:induction false} TriesBound(items: seq<Write>)
    requires forall w :: w in items ==> w.attempts < MAX_ATTEMPTS
    ensures |items| <= Tries(items) <= MAX_ATTEMPTS * |items|
  {
    if items != [] {
      assert items[0] in items && forall w :: w in items[1..] ==> w in items;
      TriesBound(items[1..]);
    }
  }

  /** The queue after those flushes. */
  function FlushAll(s: State, items: seq<Write>, rounds: seq<seq<Answer>>): State {
    if rounds == [] then s
    else
      var k := |rounds| - 1;
      FlushItems(FlushAll(s, items, rounds[..k]), LeftAfter(items, rounds[..k]), Quiet(rounds[k]))
  }

  lemma {:induction false} FlushAllLeaves(s: State, user: string, items: seq<Write>, rounds: seq<seq<Answer>>)
    requires Keyed(s.store) && IsPending(s.store, user, items) && Complete(items, rounds)
    ensures var t := FlushAll(s, items, rounds); Keyed(t.store) && IsPending(t.store, user, LeftAfter(items, rounds))
  {
    hide IsPending, Keyed, FlushItems;
    if rounds != [] {
      var k := |rounds| - 1;
      assert forall i :: 0 <= i <= k ==> rounds[..k][..i] == rounds[..i];
      FlushAllLeaves(s, user, items, rounds[..k]);
      QuietFlushLeaves(FlushAll(s, items, rounds[..k]), user, LeftAfter(items, rounds[..k]), rounds[k]);
    }
  }

  /** Whatever the network does, k waiting records are gone after 5k flushes without new ones. */
  lemma QueueDrains(s: State, user: string, items: seq<Write>, rounds: seq<seq<Answer>>)
    requires Inv(s) && IsPending(s.store, user, items) && Complete(items, rounds)
    requires |rounds| >= MAX_ATTEMPTS * |items|
    ensures forall k :: k in FlushAll(s, items, rounds).store ==> FlushAll(s, items, rounds).store[k].user != user
  {
    hide NothingLost, WasQueued;
    assert Keyed(s.store) && forall w :: w in items ==> w.attempts < MAX_ATTEMPTS;
    TriesRunOut(items, rounds);
    TriesBound(items);
    TriesBound(LeftAfter(items, rounds));
    FlushAllLeaves(s, user, items, rounds);
    assert LeftAfter(items, rounds) == [];
  }
}
