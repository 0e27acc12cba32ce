/**
 What becomes of each record a flush of the offline queue comes to.
 */
module QueueFates {
  import opened Common
  import opened OfflineQueue

  datatype Fate = Sent | GivenUp | TriedAgain

  /** The server refuses it for good: a status from 400 to 499, but not a timeout or too many requests. */
  predicate Refuses(status: Option<int>) {
    status.Some? && status.value / 100 == 4 && status.value != 408 && status.value != 429
  }

  /** Sent when accepted; given up when refused for good, or on the fifth failure. */
  function FateOf(w: Write, a: Answer): Fate {
    match a
    case Accepted => Sent
    case Failed(status) => if Refuses(status) || w.attempts >= 4 then GivenUp else TriedAgain
  }

  function Having(items: seq<Write>, moments: seq<Moment>, n: nat, fate: Fate): seq<Write>
    requires n <= |items| && n <= |moments|
  {
    if n == 0 then []
    else Having(items, moments, n - 1, fate)
         + (if FateOf(items[n - 1], moments[n - 1].answer) == fate then [items[n - 1]] else [])
  }

  /** The flush goes through the first n records and stops there. */
  ghost predicate Through(items: seq<Write>, moments: seq<Moment>, n: nat) {
    && n <= |items| && n <= |moments|
    && (forall i :: 0 <= i < n ==> !FateOf(items[i], moments[i].answer).TriedAgain?)
    && (n == |items| || n == |moments| || FateOf(items[n], moments[n].answer).TriedAgain?)
  }

  lemma FateGoesOn(w: Write, a: Answer)
    ensures GoesOn(w, a) <==> !FateOf(w, a).TriedAgain?
  {
  }

  lemma AttemptFate(s: State, w: Write, a: Answer)
    ensures var t := Attempt(s, w, a);
      && t.sent == s.sent + (if FateOf(w, a).Sent? then [w] else [])
      && t.dropped == s.dropped + (if FateOf(w, a).GivenUp? then [w] else [])
      && (FateOf(w, a).TriedAgain? ==>
            t.store == s.store[w.id := Write(w.id, w.user, w.createdAt, w.attempts + 1)])
      && (!FateOf(w, a).TriedAgain? ==> t.store == s.store - {w.id})
  {
  }

  lemma {:induction false} HavingFirst(items: seq<Write>, moments: seq<Moment>, n: nat, fate: Fate)
    requires 0 < n <= |items| && n <= |moments|
    ensures Having(items, moments, n, fate)
         == (if FateOf(items[0], moments[0].answer) == fate then [items[0]] else [])
            + Having(items[1..], moments[1..], n - 1, fate)
  {
    hide FateOf;
    if n > 1 { HavingFirst(items, moments, n - 1, fate); }
  }

  /**
   A flush sends and gives up exactly the records before the first error worth another try, each by
   its own answer, and leaves that one stored with one attempt more.
   */
  lemma {:induction false} FlushFates(s: State, items: seq<Write>, moments: seq<Moment>, n: nat)
    requires Through(items, moments, n)
    ensures var t := FlushItems(s, items, moments);
      && t.sent == s.sent + Having(items, moments, n, Sent)
      && t.dropped == s.dropped + Having(items, moments, n, GivenUp)
      && (n < |items| && n < |moments| ==>
            && items[n].id in t.store
            && t.store[items[n].id] == items[n].(attempts := items[n].attempts + 1))
    decreases items
  {
    hide Meanwhile, FateOf, GivesUp;
    if items != [] && moments != [] {
      var m := moments[0];
      var during := Meanwhile(s, m.events);
      var after := Attempt(during, items[0], m.answer);
      MeanwhileLogs(s, m.events);
      FateGoesOn(items[0], m.answer);
      AttemptFate(during, items[0], m.answer);
      if n > 0 {
        ThroughRest(items, moments, n);
        FlushFates(after, items[1..], moments[1..], n - 1);
        HavingFirst(items, moments, n, Sent);
        HavingFirst(items, moments, n, GivenUp);
      }
    }
  }

  lemma ThroughRest(items: seq<Write>, moments: seq<Moment>, n: nat)
    requires Through(items, moments, n) && n > 0
    ensures Through(items[1..], moments[1..], n - 1) && !FateOf(items[0], moments[0].answer).TriedAgain?
  {
    hide FateOf;
  }
}
