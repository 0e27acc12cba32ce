/**
 The login lockout of one account: failed attempts are counted over a sliding window, and ten of them
 lock the account for a while. Times are milliseconds of one clock.
 */
module Lockout {
  import opened Common

  datatype Attempt = Attempt(email: string, at: int, success: bool)

  const MINUTE := 60_000

  const WINDOW := 15 * MINUTE

  const THRESHOLD := 10

  const STORED_LENGTH := 200

  /** The attempts table, the account's lock, and which attempts were wrong passwords that were compared. */
  datatype State = State(attempts: seq<Attempt>, lockedUntil: Option<int>, wrong: seq<nat>)

  /** What the caller finds out. */
  datatype Outcome = Refused | Inactive | SecondFactor | SignedIn

  // ---------- recording and counting ----------

  /** Only so much of an address is stored. */
  function Stored(email: string): (r: string)
    ensures |r| <= STORED_LENGTH
  {
    if |email| <= STORED_LENGTH then email else email[..STORED_LENGTH]
  }

  function Record(s: State, email: string, now: int, success: bool): State {
    s.(attempts := s.attempts + [Attempt(Stored(email), now, success)])
  }

  predicate SuccessSince(attempts: seq<Attempt>, email: string, at: int) {
    exists i :: 0 <= i < |attempts| && attempts[i].email == email && attempts[i].success && attempts[i].at >= at
  }

  /** A failure inside the window, later than every success. */
  predicate Counts(attempts: seq<Attempt>, a: Attempt, email: string, now: int) {
    a.email == email && !a.success && a.at > now - WINDOW && !SuccessSince(attempts, email, a.at)
  }

  function CountIn(attempts: seq<Attempt>, n: nat, email: string, now: int): nat
    requires n <= |attempts|
  {
    if n == 0 then 0
    else CountIn(attempts, n - 1, email, now) + (if Counts(attempts, attempts[n - 1], email, now) then 1 else 0)
  }

  /** The count compares the whole address with the stored part. */
  function MaybeLock(s: State, email: string, now: int): State {
    if CountIn(s.attempts, |s.attempts|, email, now) < THRESHOLD then s
    else s.(lockedUntil := Some(now + WINDOW))
  }

  predicate Locked(s: State, now: int) { s.lockedUntil.Some? && s.lockedUntil.value > now }

  // ---------- the ways in ----------

  function Finalize(s: State, email: string, now: int): (State, Outcome) {
    (Record(s, email, now, true).(lockedUntil := None), SignedIn)
  }

  function Login(s: State, email: string, now: int, right: bool, active: bool, mfa: bool): (State, Outcome) {
    if Locked(s, now) then (Record(s, email, now, false), Refused)
    else if !right then
      var recorded := Record(s, email, now, false);
      (MaybeLock(recorded.(wrong := s.wrong + [|s.attempts|]), email, now), Refused)
    else if !active then (Record(s, email, now, false), Inactive)
    else if mfa then (Record(s, email, now, false), SecondFactor)
    else Finalize(s, email, now)
  }

  /** The second step, for a challenge that is still good; the lock is not looked at. */
  function VerifySecondFactor(s: State, email: string, now: int, right: bool): (State, Outcome) {
    if right then Finalize(s, email, now)
    else (MaybeLock(Record(s, email, now, false), email, now), Refused)
  }

  function LoginWithGovIdentity(s: State, email: string, now: int, mfa: bool): (State, Outcome) {
    if Locked(s, now) then (Record(s, email, now, false), Refused)
    else if mfa then (Record(s, email, now, false), SecondFactor)
    else Finalize(s, email, now)
  }

  // ---------- runs ----------

  datatype Event =
    | PasswordLogin(right: bool, active: bool, mfa: bool)
    | SecondStep(right: bool)
    | GovLogin(mfa: bool)
    | Elsewhere(other: string, success: bool)   // an attempt with another address

  function Step(s: State, email: string, e: Event, now: int): State {
    match e
    case PasswordLogin(right, active, mfa) => Login(s, email, now, right, active, mfa).0
    case SecondStep(right) => VerifySecondFactor(s, email, now, right).0
    case GovLogin(mfa) => LoginWithGovIdentity(s, email, now, mfa).0
    case Elsewhere(other, success) => Record(s, other, now, success)
  }

  function Run(email: string, events: seq<(Event, int)>): State {
    if events == [] then State([], None, [])
    else
      var k := |events| - 1;
      Step(Run(email, events[..k]), email, events[k].0, events[k].1)
  }

  ghost predicate InTime(events: seq<(Event, int)>) {
    forall i, j :: 0 <= i < j < |events| ==> events[i].1 <= events[j].1
  }

  // ---------- the invariant ----------

  ghost predicate LogOK(s: State, email: string, now: int) {
    && (forall i :: 0 <= i < |s.attempts| ==> s.attempts[i].at <= now)
    && (forall i, j :: 0 <= i < j < |s.attempts| ==> s.attempts[i].at <= s.attempts[j].at)
    && (forall k :: 0 <= k < |s.wrong| ==> s.wrong[k] < |s.attempts|)
    && (forall k :: 0 <= k < |s.wrong| ==>
          s.attempts[s.wrong[k]].email == Stored(email) && !s.attempts[s.wrong[k]].success)
    && (forall j, k :: 0 <= j < k < |s.wrong| ==> s.wrong[j] < s.wrong[k])
  }

  function TimeOf(s: State, k: nat): int
    requires k < |s.wrong| && s.wrong[k] < |s.attempts|
  {
    s.attempts[s.wrong[k]].at
  }

  ghost predicate Indexed(s: State) { forall k :: 0 <= k < |s.wrong| ==> s.wrong[k] < |s.attempts| }

  /** Ten wrong passwords close together, with no success since the first, have locked the account. */
  ghost predicate TenLock(s: State, email: string)
    requires Indexed(s)
  {
    forall k: nat ::
      (&& k + 9 < |s.wrong| && TimeOf(s, k + 9) - TimeOf(s, k) < WINDOW
       && !SuccessSince(s.attempts, email, TimeOf(s, k))) ==>
      s.lockedUntil.Some? && s.lockedUntil.value >= TimeOf(s, k + 9) + WINDOW
  }

  /** A success recorded between two moments. */
  ghost predicate SuccessBetween(attempts: seq<Attempt>, email: string, from: int, to: int) {
    exists i :: 0 <= i < |attempts| && attempts[i].email == email && attempts[i].success && from <= attempts[i].at <= to
  }

  /** Any eleven wrong passwords in a row span the window or have a success among them. */
  ghost predicate NoEleven(s: State, email: string)
    requires Indexed(s)
  {
    forall k: nat :: k + 10 < |s.wrong| ==>
      TimeOf(s, k + 10) - TimeOf(s, k) >= WINDOW || SuccessBetween(s.attempts, email, TimeOf(s, k), TimeOf(s, k + 10))
  }

  ghost predicate Inv(s: State, email: string, now: int) {
    LogOK(s, email, now) && Indexed(s) && TenLock(s, email) && NoEleven(s, email)
  }

  /** As many increasing positions as count are counted. */
  lemma {:induction false} CountAtLeast(attempts: seq<Attempt>, n: nat, email: string, now: int, picks: seq<nat>)
    requires n <= |attempts|
    requires forall i :: 0 <= i < |picks| ==> picks[i] < n && Counts(attempts, attempts[picks[i]], email, now)
    requires forall i, j :: 0 <= i < j < |picks| ==> picks[i] < picks[j]
    ensures CountIn(attempts, n, email, now) >= |picks|
  {
    hide Counts;
    if picks != [] {
      var k := |picks| - 1;
      if picks[k] == n - 1 {
        CountAtLeast(attempts, n - 1, email, now, picks[..k]);
      } else {
        assert forall i :: 0 <= i < |picks| ==> picks[i] <= picks[k];
        CountAtLeast(attempts, n - 1, email, now, picks);
      }
    }
  }

  lemma RecordKeepsSuccess(attempts: seq<Attempt>, a: Attempt, email: string, at: int)
    ensures SuccessSince(attempts + [a], email, at) <==>
      SuccessSince(attempts, email, at) || (a.email == email && a.success && a.at >= at)
  {
    var t := attempts + [a];
    if SuccessSince(attempts, email, at) {
      var i :| 0 <= i < |attempts| && attempts[i].email == email && attempts[i].success && attempts[i].at >= at;
      assert t[i] == attempts[i];
    }
    if a.email == email && a.success && a.at >= at { assert t[|attempts|] == a; }
  }

  lemma RecordKeepsBetween(attempts: seq<Attempt>, a: Attempt, email: string, from: int, to: int)
    requires SuccessBetween(attempts, email, from, to)
    ensures SuccessBetween(attempts + [a], email, from, to)
  {
    var i :| 0 <= i < |attempts| && attempts[i].email == email && attempts[i].success && from <= attempts[i].at <= to;
    assert (attempts + [a])[i] == attempts[i];
  }

  /** An attempt that is not a compared wrong password. */
  lemma RecordKeepsInv(s: State, email: string, other: string, now: int, success: bool)
    requires Inv(s, email, now)
    ensures Inv(Record(s, other, now, success), email, now)
  {
    hide SuccessSince, SuccessBetween;
    var a := Attempt(Stored(other), now, success);
    var t := Record(s, other, now, success);
    forall at ensures SuccessSince(s.attempts, email, at) ==> SuccessSince(t.attempts, email, at) {
      RecordKeepsSuccess(s.attempts, a, email, at);
    }
    forall from, to | SuccessBetween(s.attempts, email, from, to) ensures SuccessBetween(t.attempts, email, from, to) {
      RecordKeepsBetween(s.attempts, a, email, from, to);
    }
    forall k: nat | k < |s.wrong| ensures s.wrong[k] < |t.attempts| && TimeOf(t, k) == TimeOf(s, k) {}
  }

  /** A success under the account's own address lifts every claim to a lock. */
  lemma FinalizeKeepsInv(s: State, email: string, now: int)
    requires Inv(s, email, now) && |email| <= STORED_LENGTH
    ensures Inv(Finalize(s, email, now).0, email, now)
  {
    RecordKeepsInv(s, email, email, now, true);
    hide SuccessBetween;
    var a := Attempt(email, now, true);
    var t := Finalize(s, email, now).0;
    var r := Record(s, email, now, true);
    forall k: nat | k < |t.wrong| ensures TimeOf(t, k) == TimeOf(r, k)
        && SuccessSince(t.attempts, email, TimeOf(t, k)) {
      RecordKeepsSuccess(s.attempts, a, email, TimeOf(t, k));
    }
  }

  /** A later lock serves as well as the earlier one. */
  lemma LockKeepsInv(s: State, email: string, now: int)
    requires Inv(s, email, now)
    ensures Inv(MaybeLock(s, email, now), email, now)
  {
    hide SuccessSince, SuccessBetween, CountIn;
    var t := MaybeLock(s, email, now);
    forall k: nat | k < |s.wrong| ensures TimeOf(t, k) == TimeOf(s, k) <= now {}
  }

  /** The tenth wrong password inside a window without success reaches the threshold. */
  lemma TenReachThreshold(t: State, email: string, now: int, k: nat)
    requires LogOK(t, email, now) && |email| <= STORED_LENGTH && k + 10 == |t.wrong|
    requires now - TimeOf(t, k) < WINDOW && !SuccessSince(t.attempts, email, TimeOf(t, k))
    ensures CountIn(t.attempts, |t.attempts|, email, now) >= THRESHOLD
  {
    var picks := t.wrong[k..];
    forall i | 0 <= i < 10 ensures Counts(t.attempts, t.attempts[picks[i]], email, now) {
      assert picks[i] == t.wrong[k + i] && t.wrong[k] <= t.wrong[k + i];
      assert TimeOf(t, k) <= TimeOf(t, k + i);
    }
    CountAtLeast(t.attempts, |t.attempts|, email, now, picks);
  }

  /** While ten have just locked the account, no password is compared. */
  lemma EleventhIsLate(s: State, email: string, now: int, k: nat)
    requires Inv(s, email, now) && !Locked(s, now) && k + 10 == |s.wrong|
    ensures now - TimeOf(s, k) >= WINDOW || SuccessBetween(s.attempts, email, TimeOf(s, k), now)
  {
    if now - TimeOf(s, k) < WINDOW {
      assert s.wrong[k] < s.wrong[k + 9];
      assert TimeOf(s, k) <= TimeOf(s, k + 9) <= now;
      assert SuccessSince(s.attempts, email, TimeOf(s, k));
      var i :| 0 <= i < |s.attempts| && s.attempts[i].email == email && s.attempts[i].success
          && s.attempts[i].at >= TimeOf(s, k);
    }
  }

  function WithWrong(s: State, email: string, now: int): State {
    Record(s, email, now, false).(wrong := s.wrong + [|s.attempts|])
  }

  lemma WrongLogOK(s: State, email: string, now: int)
    requires LogOK(s, email, now) && Indexed(s)
    ensures LogOK(WithWrong(s, email, now), email, now) && Indexed(WithWrong(s, email, now))
    ensures var t := WithWrong(s, email, now);
      && (forall k :: 0 <= k < |s.wrong| ==> TimeOf(t, k) == TimeOf(s, k)) && TimeOf(t, |s.wrong|) == now
  {
  }

  lemma WrongNoEleven(s: State, email: string, now: int)
    requires Inv(s, email, now) && !Locked(s, now)
    ensures Indexed(WithWrong(s, email, now)) && NoEleven(WithWrong(s, email, now), email)
  {
    hide SuccessBetween, SuccessSince;
    var t := WithWrong(s, email, now);
    var a := Attempt(Stored(email), now, false);
    WrongLogOK(s, email, now);
    forall from, to | SuccessBetween(s.attempts, email, from, to) ensures SuccessBetween(t.attempts, email, from, to) {
      RecordKeepsBetween(s.attempts, a, email, from, to);
    }
    if |s.wrong| >= 10 { EleventhIsLate(s, email, now, |s.wrong| - 10); }
  }

  lemma WrongTenLock(s: State, email: string, now: int)
    requires Inv(s, email, now) && |email| <= STORED_LENGTH
    ensures var t := MaybeLock(WithWrong(s, email, now), email, now); Indexed(t) && TenLock(t, email)
  {
    hide SuccessSince, CountIn;
    var w := WithWrong(s, email, now);
    var t := MaybeLock(w, email, now);
    var a := Attempt(Stored(email), now, false);
    WrongLogOK(s, email, now);
    forall k: nat | k + 9 < |t.wrong| && TimeOf(t, k + 9) - TimeOf(t, k) < WINDOW
        && !SuccessSince(t.attempts, email, TimeOf(t, k))
      ensures t.lockedUntil.Some? && t.lockedUntil.value >= TimeOf(t, k + 9) + WINDOW
    {
      RecordKeepsSuccess(s.attempts, a, email, TimeOf(t, k));
      if k + 10 == |t.wrong| {
        TenReachThreshold(w, email, now, k);
      } else {
        assert TimeOf(s, k + 9) - TimeOf(s, k) < WINDOW;
      }
    }
  }

  lemma WrongKeepsInv(s: State, email: string, now: int)
    requires Inv(s, email, now) && !Locked(s, now) && |email| <= STORED_LENGTH
    ensures Inv(MaybeLock(WithWrong(s, email, now), email, now), email, now)
  {
    hide TenLock, SuccessSince, SuccessBetween, CountIn;
    WrongLogOK(s, email, now);
    WrongNoEleven(s, email, now);
    WrongTenLock(s, email, now);
    var w := WithWrong(s, email, now);
    var t := MaybeLock(w, email, now);
    forall k: nat | k < |w.wrong| ensures TimeOf(t, k) == TimeOf(w, k) {}
  }

  lemma LaterKeepsInv(s: State, email: string, before: int, now: int)
    requires Inv(s, email, before) && before <= now
    ensures Inv(s, email, now)
  {
    hide TenLock, NoEleven;
  }

  lemma StepKeepsInv(s: State, email: string, e: Event, now: int)
    requires Inv(s, email, now) && |email| <= STORED_LENGTH
    ensures Inv(Step(s, email, e, now), email, now)
  {
    hide Inv, MaybeLock, Stored;
    match e {
      case PasswordLogin(right, active, mfa) =>
        if Locked(s, now) || (right && (!active || mfa)) {
          RecordKeepsInv(s, email, email, now, false);
        } else if !right {
          WrongKeepsInv(s, email, now);
        } else {
          FinalizeKeepsInv(s, email, now);
        }
      case SecondStep(right) =>
        if right {
          FinalizeKeepsInv(s, email, now);
        } else {
          RecordKeepsInv(s, email, email, now, false);
          LockKeepsInv(Record(s, email, now, false), email, now);
        }
      case GovLogin(mfa) =>
        if Locked(s, now) || mfa {
          RecordKeepsInv(s, email, email, now, false);
        } else {
          FinalizeKeepsInv(s, email, now);
        }
      case Elsewhere(other, success) => RecordKeepsInv(s, email, other, now, success);
    }
  }

  lemma {:induction false} RunKeepsInv(email: string, events: seq<(Event, int)>, now: int)
    requires InTime(events) && |email| <= STORED_LENGTH && (events != [] ==> events[|events| - 1].1 <= now)
    ensures Inv(Run(email, events), email, now)
  {
    hide Step;
    if events != [] {
      hide Inv;
      var k := |events| - 1;
      RunKeepsInv(email, events[..k], events[k].1);
      StepKeepsInv(Run(email, events[..k]), email, events[k].0, events[k].1);
      LaterKeepsInv(Run(email, events), email, events[k].1, now);
    }
  }

  /**
   In every run in time order, among any eleven wrong passwords that were compared one after another,
   either a quarter of an hour passes or a successful login of the address is recorded.
   */
  lemma NoWindowHoldsEleven(email: string, events: seq<(Event, int)>, k: nat)
    requires InTime(events) && |email| <= 200 && k + 10 < |Run(email, events).wrong|
    ensures var s := Run(email, events);
      && Indexed(s)
      && (|| TimeOf(s, k + 10) - TimeOf(s, k) >= 900_000
          || SuccessBetween(s.attempts, email, TimeOf(s, k), TimeOf(s, k + 10)))
  {
    hide Run, SuccessBetween, TenLock, LogOK;
    RunKeepsInv(email, events, if events == [] then 0 else events[|events| - 1].1);
  }

  // ---------- addresses that are too long ----------

  function WrongLogins(n: nat): (r: seq<(Event, int)>)
    ensures |r| == n && forall i :: 0 <= i < n ==> r[i] == (PasswordLogin(false, true, false), 0)
  {
    seq(n, _ => (PasswordLogin(false, true, false), 0))
  }

  lemma {:induction false} NothingCounts(attempts: seq<Attempt>, n: nat, email: string, now: int)
    requires n <= |attempts| && forall i :: 0 <= i < |attempts| ==> attempts[i].email != email
    ensures CountIn(attempts, n, email, now) == 0
  {
    if n > 0 { NothingCounts(attempts, n - 1, email, now); }
  }

  /** An address longer than what is stored is never found again, so its account is never locked. */
  lemma {:induction false} LongAddressNeverLocks(email: string, events: seq<(Event, int)>)
    requires |email| > 200
    ensures Run(email, events).lockedUntil == None
    ensures forall a :: a in Run(email, events).attempts ==> |a.email| <= 200
  {
    if events != [] {
      var k := |events| - 1;
      var s := Run(email, events[..k]);
      LongAddressNeverLocks(email, events[..k]);
      var t := Record(s, email, events[k].1, false).attempts;
      forall i | 0 <= i < |t| ensures t[i].email != email { assert t[i] in t; }
      NothingCounts(t, |t|, email, events[k].1);
    }
  }

  /** At one moment any number of wrong passwords is compared for such an address. */
  lemma {:induction false} LongAddressTakesAll(email: string, n: nat)
    requires |email| > 200
    ensures InTime(WrongLogins(n)) && |Run(email, WrongLogins(n)).wrong| == n
  {
    if n > 0 {
      assert WrongLogins(n)[..n - 1] == WrongLogins(n - 1);
      LongAddressTakesAll(email, n - 1);
      LongAddressNeverLocks(email, WrongLogins(n - 1));
    }
  }

  // ---------- what a lock gives away, and how long it lasts ----------

  /** A series of attempts on an account in any state. */
  function After(s: State, email: string, events: seq<(Event, int)>): State {
    if events == [] then s
    else
      var k := |events| - 1;
      Step(After(s, email, events[..k]), email, events[k].0, events[k].1)
  }

  /** Password logins of two series at the same moments, all of them while the account is locked. */
  ghost predicate SameKnocks(s: State, a: seq<(Event, int)>, b: seq<(Event, int)>) {
    && |a| == |b|
    && forall i :: 0 <= i < |a| ==>
         a[i].0.PasswordLogin? && b[i].0.PasswordLogin? && a[i].1 == b[i].1 && Locked(s, a[i].1)
  }

  lemma KnockRefused(s: State, email: string, e: Event, now: int)
    requires Locked(s, now) && e.PasswordLogin?
    ensures Step(s, email, e, now) == Record(s, email, now, false)
    ensures Login(s, email, now, e.right, e.active, e.mfa).1 == Refused
  {
  }

  /** Through such a series the lock stays as it was. */
  lemma {:induction false} LockStays(s: State, email: string, a: seq<(Event, int)>)
    requires forall i :: 0 <= i < |a| ==> a[i].0.PasswordLogin? && Locked(s, a[i].1)
    ensures After(s, email, a).lockedUntil == s.lockedUntil
  {
    hide Step, Login;
    if a != [] {
      var n := |a| - 1;
      LockStays(s, email, a[..n]);
      KnockRefused(After(s, email, a[..n]), email, a[n].0, a[n].1);
    }
  }

  lemma {:induction false} SameAfterKnocks(s: State, email: string, a: seq<(Event, int)>, b: seq<(Event, int)>)
    requires SameKnocks(s, a, b)
    ensures After(s, email, a) == After(s, email, b)
  {
    hide Step, Login;
    if a != [] {
      var n := |a| - 1;
      SameAfterKnocks(s, email, a[..n], b[..n]);
      LockStays(s, email, a[..n]);
      KnockRefused(After(s, email, a[..n]), email, a[n].0, a[n].1);
      KnockRefused(After(s, email, b[..n]), email, b[n].0, b[n].1);
    }
  }

  /**
   While the account is locked nothing can be learned: two series of passwords, right or wrong, tried at
   the same moments leave the same account behind, every try is refused, and the lock stays as it was.
   */
  lemma LockedTellsNothing(s: State, email: string, a: seq<(Event, int)>, b: seq<(Event, int)>)
    requires SameKnocks(s, a, b)
    ensures After(s, email, a) == After(s, email, b) && After(s, email, a).lockedUntil == s.lockedUntil
    ensures forall k :: 0 <= k < |a| ==>
      Login(After(s, email, a[..k]), email, a[k].1, a[k].0.right, a[k].0.active, a[k].0.mfa).1 == Refused
  {
    hide Step, Login, After;
    SameAfterKnocks(s, email, a, b);
    LockStays(s, email, a);
    forall k | 0 <= k < |a|
      ensures Login(After(s, email, a[..k]), email, a[k].1, a[k].0.right, a[k].0.active, a[k].0.mfa).1 == Refused
    {
      LockStays(s, email, a[..k]);
      KnockRefused(After(s, email, a[..k]), email, a[k].0, a[k].1);
    }
  }

  /** No sequence of attempts locks the account for longer than fifteen minutes after the last of them. */
  lemma {:induction false} LockIsTemporary(email: string, events: seq<(Event, int)>, now: int)
    requires InTime(events) && (events != [] ==> events[|events| - 1].1 + 900_000 <= now)
    ensures !Locked(Run(email, events), now)
  {
    hide CountIn;
    if events != [] {
      var k := |events| - 1;
      LockIsTemporary(email, events[..k], now);
    }
  }

  // ---------- the second step does not look at the lock ----------

  lemma {:induction false} AllCount(attempts: seq<Attempt>, n: nat, email: string, now: int)
    requires n <= |attempts| && forall a :: a in attempts ==> a == Attempt(email, now, false)
    ensures CountIn(attempts, n, email, now) == n
  {
    if n > 0 {
      assert forall i :: 0 <= i < |attempts| ==> attempts[i] in attempts;
      assert !SuccessSince(attempts, email, now);
      AllCount(attempts, n - 1, email, now);
    }
  }

  /** The tenth wrong password at one moment locks an account, and not the ninth. */
  lemma {:induction false} TenthWrongLoginLocks(email: string, n: nat)
    requires |email| <= STORED_LENGTH && n <= THRESHOLD
    ensures var s := Run(email, WrongLogins(n));
      && |s.attempts| == n && (forall a :: a in s.attempts ==> a == Attempt(email, 0, false))
      && s.lockedUntil == (if n == THRESHOLD then Some(WINDOW) else None)
  {
    hide CountIn;
    if n > 0 {
      var before := Run(email, WrongLogins(n - 1));
      assert WrongLogins(n)[..n - 1] == WrongLogins(n - 1);
      TenthWrongLoginLocks(email, n - 1);
      var attempts := before.attempts + [Attempt(email, 0, false)];
      assert forall a :: a in attempts ==> a in before.attempts || a == Attempt(email, 0, false);
      AllCount(attempts, n, email, 0);
    }
  }

  function WrongCodes(n: nat, now: int): (r: seq<(Event, int)>)
    ensures |r| == n && forall i :: 0 <= i < n ==> r[i] == (SecondStep(false), now)
  {
    seq(n, _ => (SecondStep(false), now))
  }

  /**
   While the account is locked any number of wrong codes can be tried at the second step, each one
   compared and recorded; after every one of them the account is still locked, so that the right
   password is refused, and the right code signs in and lifts the lock.
   */
  lemma {:induction false} SecondStepIgnoresLock(s: State, email: string, now: int, n: nat, active: bool, mfa: bool)
    requires Locked(s, now)
    ensures var t := After(s, email, WrongCodes(n, now));
      && Locked(t, now) && |t.attempts| == |s.attempts| + n
      && Login(t, email, now, true, active, mfa).1 == Refused
      && VerifySecondFactor(t, email, now, false).1 == Refused
      && VerifySecondFactor(t, email, now, true).1 == SignedIn
      && VerifySecondFactor(t, email, now, true).0.lockedUntil == None
  {
    hide CountIn;
    if n > 0 {
      assert WrongCodes(n, now)[..n - 1] == WrongCodes(n - 1, now);
      SecondStepIgnoresLock(s, email, now, n - 1, active, mfa);
    }
  }

  /** Such an account comes about: ten wrong passwords lock it, and a right code opens it at once. */
  lemma LockedAccountOpensByCode(email: string, n: nat)
    requires |email| <= 200
    ensures var s := Run(email, WrongLogins(10)); var t := After(s, email, WrongCodes(n, 0));
      && Locked(s, 0) && Login(t, email, 0, true, true, false).1 == Refused
      && VerifySecondFactor(t, email, 0, true).1 == SignedIn
  {
    hide CountIn, Run, After, WrongLogins;
    TenthWrongLoginLocks(email, THRESHOLD);
    SecondStepIgnoresLock(Run(email, WrongLogins(THRESHOLD)), email, 0, n, true, false);
  }
}
