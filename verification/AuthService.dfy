/**
 One account as the login methods see and change it.
 */
module AuthService {
  import opened Common
  import opened Lockout

  class Account {
    const email: string
    var attempts: seq<Attempt>
    var lockedUntil: Option<int>
    ghost var wrong: seq<nat>

    ghost function View(): State
      reads this
    {
      State(attempts, lockedUntil, wrong)
    }

    constructor (email: string)
      ensures this.email == email && View() == State([], None, [])
    {
      this.email := email;
      attempts, lockedUntil, wrong := [], None, [];
    }

    method RecordAttempt(address: string, success: bool, now: int)
      modifies this
      ensures View() == Record(old(View()), address, now, success)
    {
      var stored := if |address| <= STORED_LENGTH then address else address[..STORED_LENGTH];
      attempts := attempts + [Attempt(stored, now, success)];
    }

    method MaybeLock(now: int)
      modifies this
      ensures View() == Lockout.MaybeLock(old(View()), email, now)
    {
      var n := 0;
      for i := 0 to |attempts|
        invariant n == CountIn(attempts, i, email, now)
      {
        if Counts(attempts, attempts[i], email, now) { n := n + 1; }
      }
      if n < THRESHOLD { return; }
      lockedUntil := Some(now + WINDOW);
    }

    method FinalizeLogin(now: int) returns (r: Outcome)
      modifies this
      ensures (View(), r) == Finalize(old(View()), email, now)
    {
      RecordAttempt(email, true, now);
      if lockedUntil.Some? { lockedUntil := None; }
      r := SignedIn;
    }

    /** The lock is looked at before the password is. */
    method Login(right: bool, active: bool, mfa: bool, now: int) returns (r: Outcome)
      modifies this
      ensures (View(), r) == Lockout.Login(old(View()), email, now, right, active, mfa)
    {
      if lockedUntil.Some? && lockedUntil.value > now {
        RecordAttempt(email, false, now);
        return Refused;
      }
      if !right {
        wrong := wrong + [|attempts|];
        RecordAttempt(email, false, now);
        MaybeLock(now);
        return Refused;
      }
      if !active {
        RecordAttempt(email, false, now);
        return Inactive;
      }
      if mfa {
        RecordAttempt(email, false, now);
        return SecondFactor;
      }
      r := FinalizeLogin(now);
    }

    method MfaVerify(right: bool, now: int) returns (r: Outcome)
      modifies this
      ensures (View(), r) == VerifySecondFactor(old(View()), email, now, right)
    {
      if right {
        r := FinalizeLogin(now);
        return;
      }
      RecordAttempt(email, false, now);
      MaybeLock(now);
      r := Refused;
    }

    method LoginWithGovIdentity(mfa: bool, now: int) returns (r: Outcome)
      modifies this
      ensures (View(), r) == Lockout.LoginWithGovIdentity(old(View()), email, now, mfa)
    {
      if lockedUntil.Some? && lockedUntil.value > now {
        RecordAttempt(email, false, now);
        return Refused;
      }
      if mfa {
        RecordAttempt(email, false, now);
        return SecondFactor;
      }
      r := FinalizeLogin(now);
    }
  }
}
