/**
 What it takes to sign in and what it takes to lock an account, over any series of attempts.
 */
module SignIns {
  import opened Common
  import opened Lockout

  // ---------- when a count locks ----------

  /** A failure of the address in the last fifteen minutes, with no success at or after it. */
  ghost predicate Recent(attempts: seq<Attempt>, i: nat, email: string, now: int) {
    && i < |attempts| && attempts[i].email == email && !attempts[i].success && attempts[i].at > now - 900_000
    && forall j :: 0 <= j < |attempts| && attempts[j].email == email && attempts[j].success ==>
         attempts[j].at < attempts[i].at
  }

  /** Different recent failures, in order. */
  ghost predicate Failures(attempts: seq<Attempt>, picks: seq<nat>, email: string, now: int) {
    && (forall k :: 0 <= k < |picks| ==> Recent(attempts, picks[k], email, now))
    && (forall j, k :: 0 <= j < k < |picks| ==> picks[j] < picks[k])
  }

  lemma RecentCounts(attempts: seq<Attempt>, i: nat, email: string, now: int)
    requires i < |attempts|
    ensures Counts(attempts, attempts[i], email, now) <==> Recent(attempts, i, email, now)
  {
  }

  lemma {:induction false} PicksFor(attempts: seq<Attempt>, n: nat, email: string, now: int) returns (picks: seq<nat>)
    requires n <= |attempts|
    ensures |picks| == CountIn(attempts, n, email, now) && Failures(attempts, picks, email, now)
    ensures forall k :: 0 <= k < |picks| ==> picks[k] < n
  {
    hide Counts, Recent;
    if n == 0 {
      picks := [];
    } else {
      picks := PicksFor(attempts, n - 1, email, now);
      RecentCounts(attempts, n - 1, email, now);
      if Counts(attempts, attempts[n - 1], email, now) { picks := picks + [n - 1]; }
    }
  }

  lemma PicksCount(attempts: seq<Attempt>, email: string, now: int, picks: seq<nat>)
    requires Failures(attempts, picks, email, now)
    ensures CountIn(attempts, |attempts|, email, now) >= |picks|
  {
    hide Counts, Recent, CountIn;
    forall k | 0 <= k < |picks| ensures picks[k] < |attempts| && Counts(attempts, attempts[picks[k]], email, now) {
      PickInside(attempts, picks, k, email, now);
      RecentCounts(attempts, picks[k], email, now);
    }
    CountAtLeast(attempts, |attempts|, email, now, picks);
  }

  lemma PickInside(attempts: seq<Attempt>, picks: seq<nat>, k: nat, email: string, now: int)
    requires Failures(attempts, picks, email, now) && k < |picks|
    ensures Recent(attempts, picks[k], email, now) && picks[k] < |attempts|
  {
  }

  lemma FirstTen(attempts: seq<Attempt>, picks: seq<nat>, email: string, now: int)
    requires Failures(attempts, picks, email, now) && |picks| >= 10
    ensures |picks[..10]| == 10 && Failures(attempts, picks[..10], email, now)
  {
    hide Recent;
  }

  /**
   A wrong password locks an account that is not locked if and only if, it included, the address has
   ten failures in the last quarter of an hour with no success at or after the first of them.
   */
  lemma WrongPasswordLocksExactly(s: State, email: string, now: int, active: bool, mfa: bool)
    requires !Locked(s, now)
    ensures var t := Login(s, email, now, false, active, mfa).0;
      && (Locked(t, now) <==> exists picks :: |picks| == 10 && Failures(t.attempts, picks, email, now))
      && (Locked(t, now) ==> t.lockedUntil == Some(now + 900_000))
      && t.attempts == s.attempts + [Attempt(Stored(email), now, false)]
  {
    hide Failures, CountIn;
    var t := Login(s, email, now, false, active, mfa).0;
    var picks := PicksFor(t.attempts, |t.attempts|, email, now);
    if |picks| >= 10 { FirstTen(t.attempts, picks, email, now); }
    if some :| |some| == 10 && Failures(t.attempts, some, email, now) { PicksCount(t.attempts, email, now, some); }
  }

  // ---------- who gets in ----------

  function OutcomeOf(s: State, email: string, e: Event, now: int): Option<Outcome> {
    match e
    case PasswordLogin(right, active, mfa) => Some(Login(s, email, now, right, active, mfa).1)
    case SecondStep(right) => Some(VerifySecondFactor(s, email, now, right).1)
    case GovLogin(mfa) => Some(LoginWithGovIdentity(s, email, now, mfa).1)
    case Elsewhere(_, _) => None
  }

  /** An attempt of one's own without a right code, on an account with a second factor or out of use. */
  ghost predicate WithoutCode(e: Event) {
    match e
    case PasswordLogin(right, active, mfa) => right ==> !active || mfa
    case SecondStep(right) => !right
    case GovLogin(mfa) => mfa
    case Elsewhere(_, _) => false
  }

  lemma StepWithoutCode(s: State, email: string, e: Event, now: int)
    requires WithoutCode(e)
    ensures OutcomeOf(s, email, e, now) != Some(SignedIn)
    ensures var t := Step(s, email, e, now);
      && t.attempts == s.attempts + [Attempt(Stored(email), now, false)]
      && (Locked(s, now) ==> Locked(t, now)) && (s.lockedUntil.Some? ==> t.lockedUntil.Some?)
  {
    hide CountIn;
  }

  /**
   While the second factor is on, or the account is out of use, passwords and government identities,
   right or wrong, never sign in by themselves: every attempt is recorded as a failure and no lock is
   lifted, however many are made.
   */
  lemma {:induction false} NoEntryWithoutCode(s: State, email: string, events: seq<(Event, int)>)
    requires forall i :: 0 <= i < |events| ==> WithoutCode(events[i].0)
    ensures var t := After(s, email, events);
      && |t.attempts| == |s.attempts| + |events|
      && (forall i :: 0 <= i < |s.attempts| ==> t.attempts[i] == s.attempts[i])
      && (forall i :: 0 <= i < |events| ==>
            t.attempts[|s.attempts| + i] == Attempt(Stored(email), events[i].1, false))
      && (s.lockedUntil.Some? ==> t.lockedUntil.Some?)
    ensures forall i :: 0 <= i < |events| ==>
      OutcomeOf(After(s, email, events[..i]), email, events[i].0, events[i].1) != Some(SignedIn)
  {
    hide Step, OutcomeOf, WithoutCode, Stored;
    if events != [] {
      var k := |events| - 1;
      NoEntryWithoutCode(s, email, events[..k]);
      StepWithoutCode(After(s, email, events[..k]), email, events[k].0, events[k].1);
      forall i | 0 <= i < |events|
        ensures OutcomeOf(After(s, email, events[..i]), email, events[i].0, events[i].1) != Some(SignedIn)
      {
        if i < k { assert events[..k][..i] == events[..i]; }
      }
    }
  }

  /** A sign-in is recorded as a success and lifts the lock; a right code does it even under a lock. */
  lemma SignedInExactly(s: State, email: string, e: Event, now: int)
    requires !e.Elsewhere?
    ensures OutcomeOf(s, email, e, now) == Some(SignedIn) <==>
      && !WithoutCode(e) && (Locked(s, now) ==> e.SecondStep?)
    ensures var t := Step(s, email, e, now);
      if OutcomeOf(s, email, e, now) == Some(SignedIn)
      then t.attempts == s.attempts + [Attempt(Stored(email), now, true)] && t.lockedUntil == None
      else t.attempts == s.attempts + [Attempt(Stored(email), now, false)]
           && (s.lockedUntil.Some? ==> t.lockedUntil.Some?)
  {
    hide CountIn;
  }

  // ---------- right passwords count too ----------

  function Pending(n: nat): (r: seq<(Event, int)>)
    ensures |r| == n && forall i :: 0 <= i < n ==> r[i] == (PasswordLogin(true, true, true), 0)
  {
    seq(n, _ => (PasswordLogin(true, true, true), 0))
  }

  /**
   A right password that waits for its code counts as a failure: after n of them a single wrong
   password locks the account if and only if n is nine or more.
   */
  lemma PendingStepsCount(email: string, n: nat)
    requires |email| <= 200
    ensures var s := After(State([], None, []), email, Pending(n));
      && !Locked(s, 0) && (Locked(Login(s, email, 0, false, true, true).0, 0) <==> n >= 9)
  {
    hide After, Pending;
    PendingAreFailures(email, n);
    OneMoreFailure(After(State([], None, []), email, Pending(n)), email, n);
  }

  lemma OneMoreFailure(s: State, email: string, n: nat)
    requires |email| <= 200 && s.lockedUntil == None && |s.attempts| == n
    requires forall a :: a in s.attempts ==> a == Attempt(email, 0, false)
    ensures Locked(Login(s, email, 0, false, true, true).0, 0) <==> n >= 9
  {
    hide CountIn;
    var t := s.attempts + [Attempt(email, 0, false)];
    assert forall a :: a in t ==> a in s.attempts || a == Attempt(email, 0, false);
    AllCount(t, n + 1, email, 0);
  }

  lemma {:induction false} PendingAreFailures(email: string, n: nat)
    requires |email| <= 200
    ensures var s := After(State([], None, []), email, Pending(n));
      s.lockedUntil == None && |s.attempts| == n && forall a :: a in s.attempts ==> a == Attempt(email, 0, false)
  {
    hide CountIn;
    if n > 0 {
      assert Pending(n)[..n - 1] == Pending(n - 1);
      PendingAreFailures(email, n - 1);
    }
  }
}
