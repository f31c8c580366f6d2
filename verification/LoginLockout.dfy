/** Password login with its lockout columns, and how slowly wrong passwords can be tried. */
module LoginLockout {
  import opened Wrappers

  const FAILED_LOGIN_LOCK_THRESHOLD := 5
  const LOCK_MS := 15 * 60_000

  /** A row that is not soft-deleted. */
  datatype UserRow = UserRow(
    failedLoginAttempts: nat,
    isLocked: bool,
    lockedUntil: Option<int>,
    isActive: bool,
    mfaEnabled: bool,
    tenantId: Option<string>)

  /** Whether the password matches, and whether a given MFA code does. */
  datatype Credentials = Credentials(passwordOk: bool, mfaCodeOk: Option<bool>)

  datatype LoginError = InvalidCredentials | AccountLocked | AccountDisabled | MfaInvalid

  datatype UserError = UserNotFound

  datatype LoginOutcome = LoggedIn | MfaChallenge | Refused(error: LoginError)

  // ---------- the writes of the user service ----------

  function Incremented(u: UserRow): UserRow {
    u.(failedLoginAttempts := u.failedLoginAttempts + 1)
  }

  function Locked(u: UserRow, until: Option<int>): UserRow {
    u.(isLocked := true, lockedUntil := until)
  }

  /** Both a successful login and an unlock clear counter and lock. */
  function Cleared(u: UserRow): UserRow {
    u.(failedLoginAttempts := 0, isLocked := false, lockedUntil := None)
  }

  predicate MayTouch(users: map<string, UserRow>, id: string, actorTenant: Option<Option<string>>) {
    id in users && (actorTenant.Some? ==> users[id].tenantId == actorTenant.value)
  }

  predicate IsBarred(u: UserRow, now: int) {
    u.isLocked && u.lockedUntil.Some? && u.lockedUntil.value > now
  }

  function FailedLogin(u: UserRow, now: int): UserRow {
    var v := Incremented(u);
    if v.failedLoginAttempts >= FAILED_LOGIN_LOCK_THRESHOLD then Locked(v, Some(now + LOCK_MS)) else v
  }

  function Login(u: UserRow, c: Credentials, now: int): (UserRow, LoginOutcome) {
    if IsBarred(u, now) then (u, Refused(AccountLocked))
    else if !u.isActive then (u, Refused(AccountDisabled))
    else if !c.passwordOk then (FailedLogin(u, now), Refused(InvalidCredentials))
    else if u.mfaEnabled && c.mfaCodeOk == None then (u, MfaChallenge)
    else if u.mfaEnabled && !c.mfaCodeOk.value then (u, Refused(MfaInvalid))
    else (Cleared(u), LoggedIn)
  }

  // ---------- what a login does, outright ----------

  predicate LockRuns(u: UserRow, now: int) {
    u.isLocked && u.lockedUntil.Some? && now < u.lockedUntil.value
  }

  /** Each outcome has its own exact condition; in particular a user with MFA is logged in with a valid code only. */
  lemma LoginVerdicts(u: UserRow, c: Credentials, now: int)
    ensures var outcome := Login(u, c, now).1;
            var usable := !LockRuns(u, now) && u.isActive;
            && (outcome == Refused(AccountLocked) <==> LockRuns(u, now))
            && (outcome == Refused(AccountDisabled) <==> !LockRuns(u, now) && !u.isActive)
            && (outcome == Refused(InvalidCredentials) <==> usable && !c.passwordOk)
            && (outcome == MfaChallenge <==> usable && c.passwordOk && u.mfaEnabled && c.mfaCodeOk == None)
            && (outcome == Refused(MfaInvalid) <==> usable && c.passwordOk && u.mfaEnabled && c.mfaCodeOk == Some(false))
            && (outcome == LoggedIn <==> usable && c.passwordOk && (u.mfaEnabled ==> c.mfaCodeOk == Some(true)))
  {
  }

  /** A full success clears counter and lock, a wrong password counts and from the fifth on locks for fifteen minutes,
      and nothing else touches the row. */
  lemma LoginEffect(u: UserRow, c: Credentials, now: int)
    ensures var (v, outcome) := Login(u, c, now);
            v == if outcome == LoggedIn then UserRow(0, false, None, u.isActive, u.mfaEnabled, u.tenantId)
                 else if outcome != Refused(InvalidCredentials) then u
                 else if u.failedLoginAttempts < 4 then u.(failedLoginAttempts := u.failedLoginAttempts + 1)
                 else UserRow(u.failedLoginAttempts + 1, true, Some(now + 900_000), u.isActive, u.mfaEnabled, u.tenantId)
    ensures u.failedLoginAttempts > 0 ==>
              (Login(u, c, now).0.failedLoginAttempts == 0 <==> Login(u, c, now).1 == LoggedIn)
  {
  }

  // ---------- the services ----------

  class UserAccounts {
    var users: map<string, UserRow>

    constructor ()
      ensures users == map[]
    {
      users := map[];
    }

    method RecordLoginSuccess(id: string) returns (r: Result<(), UserError>)
      modifies this
      ensures r == if id in old(users) then Ok(()) else Err(UserNotFound)
      ensures users == if id !in old(users) then old(users)
                      else old(users)[id := old(users)[id].(failedLoginAttempts := 0, isLocked := false, lockedUntil := None)]
    {
      if id !in users {
        return Err(UserNotFound);
      }
      users := users[id := users[id].(failedLoginAttempts := 0, isLocked := false, lockedUntil := None)];
      r := Ok(());
    }

    method IncrementFailedLoginAttempts(id: string) returns (r: Result<nat, UserError>)
      modifies this
      ensures r == if id in old(users) then Ok(old(users)[id].failedLoginAttempts + 1) else Err(UserNotFound)
      ensures users == if id in old(users) then old(users)[id := old(users)[id].(failedLoginAttempts := old(users)[id].failedLoginAttempts + 1)] else old(users)
    {
      if id !in users {
        return Err(UserNotFound);
      }
      users := users[id := users[id].(failedLoginAttempts := users[id].failedLoginAttempts + 1)];
      r := Ok(users[id].failedLoginAttempts);
    }

    /** `actorTenant` is the tenant that an admin is confined to; None skips the check. */
    method Lock(id: string, until: Option<int>, actorTenant: Option<Option<string>>) returns (r: Result<(), UserError>)
      modifies this
      ensures r == if id in old(users) && (actorTenant.Some? ==> actorTenant.value == old(users)[id].tenantId) then Ok(())
                  else Err(UserNotFound)
      ensures users == if r.Ok? then old(users)[id := old(users)[id].(isLocked := true, lockedUntil := until)] else old(users)
    {
      if !MayTouch(users, id, actorTenant) {
        return Err(UserNotFound);
      }
      users := users[id := users[id].(isLocked := true, lockedUntil := until)];
      r := Ok(());
    }

    method Unlock(id: string, actorTenant: Option<Option<string>>) returns (r: Result<(), UserError>)
      modifies this
      ensures r == if id in old(users) && (actorTenant.Some? ==> actorTenant.value == old(users)[id].tenantId) then Ok(())
                  else Err(UserNotFound)
      ensures users == if r.Err? then old(users)
                      else old(users)[id := old(users)[id].(failedLoginAttempts := 0, isLocked := false, lockedUntil := None)]
    {
      if !MayTouch(users, id, actorTenant) {
        return Err(UserNotFound);
      }
      users := users[id := users[id].(isLocked := false, lockedUntil := None, failedLoginAttempts := 0)];
      r := Ok(());
    }

    method HandleLoginFailure(id: string, now: int) returns (r: Result<(), UserError>)
      modifies this
      ensures r == if id in old(users) then Ok(()) else Err(UserNotFound)
      ensures users == if id in old(users) then old(users)[id := FailedLogin(old(users)[id], now)] else old(users)
    {
      var attempts := IncrementFailedLoginAttempts(id);
      if attempts.Err? {
        return Err(attempts.error);
      }
      r := Ok(());
      if attempts.value >= FAILED_LOGIN_LOCK_THRESHOLD {
        r := Lock(id, Some(now + LOCK_MS), None);
      }
    }

    method LogIn(id: string, c: Credentials, now: int) returns (r: LoginOutcome)
      modifies this
      ensures id !in old(users) ==> users == old(users) && r == Refused(InvalidCredentials)
      ensures id in old(users) ==>
                var (row, outcome) := Login(old(users)[id], c, now);
                users == old(users)[id := row] && r == outcome
      ensures id in old(users) ==>
                var u := old(users)[id];
                (r == LoggedIn <==> && !(u.isLocked && u.lockedUntil.Some? && now < u.lockedUntil.value)
                                    && u.isActive && c.passwordOk && (u.mfaEnabled ==> c.mfaCodeOk == Some(true)))
      ensures r == LoggedIn ==>
                && id in users && users[id].failedLoginAttempts == 0 && !users[id].isLocked && users[id].lockedUntil == None
      ensures r != LoggedIn && r != Refused(InvalidCredentials) ==> users == old(users)
    {
      if id !in users {
        return Refused(InvalidCredentials);
      }
      var user := users[id];
      if IsBarred(user, now) {
        return Refused(AccountLocked);
      }
      if !user.isActive {
        return Refused(AccountDisabled);
      }
      if !c.passwordOk {
        var _ := HandleLoginFailure(id, now);
        return Refused(InvalidCredentials);
      }
      if user.mfaEnabled {
        if c.mfaCodeOk == None {
          return MfaChallenge;
        }
        if !c.mfaCodeOk.value {
          return Refused(MfaInvalid);
        }
      }
      var _ := RecordLoginSuccess(id);
      r := LoggedIn;
    }
  }

  // ---------- timed runs of login attempts on one account ----------

  datatype Attempt = Attempt(now: int, credentials: Credentials)

  predicate InTimeOrder(attempts: seq<Attempt>) {
    forall i, j :: 0 <= i < j < |attempts| ==> attempts[i].now <= attempts[j].now
  }

  predicate NoneSucceeds(u: UserRow, attempts: seq<Attempt>)
    decreases |attempts|
  {
    attempts == []
    || (&& Login(u, attempts[0].credentials, attempts[0].now).1 != LoggedIn
        && NoneSucceeds(Login(u, attempts[0].credentials, attempts[0].now).0, attempts[1..]))
  }

  /** The times at which a password was verified and found wrong. */
  function WrongTimes(u: UserRow, attempts: seq<Attempt>): seq<int>
    decreases |attempts|
  {
    if attempts == [] then []
    else
      var (v, outcome) := Login(u, attempts[0].credentials, attempts[0].now);
      (if outcome == Refused(InvalidCredentials) then [attempts[0].now] else []) + WrongTimes(v, attempts[1..])
  }

  /** Consecutive times in order, and a whole lock apart once `counter` failures have brought it to the threshold. */
  predicate Spaced(w: seq<int>, counter: nat) {
    forall i :: 0 <= i < |w| - 1 ==>
      && w[i] <= w[i + 1]
      && (counter + i + 1 >= FAILED_LOGIN_LOCK_THRESHOLD ==> w[i + 1] >= w[i] + LOCK_MS)
  }

  lemma SpacedPrepend(first: int, rest: seq<int>, counter: nat)
    requires Spaced(rest, counter + 1)
    requires rest != [] ==> first <= rest[0]
    requires rest != [] && counter + 1 >= FAILED_LOGIN_LOCK_THRESHOLD ==> rest[0] >= first + LOCK_MS
    ensures Spaced([first] + rest, counter)
  {
    var w := [first] + rest;
    forall i | 0 <= i < |w| - 1
      ensures w[i] <= w[i + 1]
      ensures counter + i + 1 >= FAILED_LOGIN_LOCK_THRESHOLD ==> w[i + 1] >= w[i] + LOCK_MS
    {
      if i > 0 {
        assert w[i] == rest[i - 1] && w[i + 1] == rest[i - 1 + 1];
      }
    }
  }

  lemma AttemptOutcome(u: UserRow, c: Credentials, now: int)
    ensures var (v, outcome) := Login(u, c, now);
            if outcome == Refused(InvalidCredentials) then
              && !IsBarred(u, now)
              && v.failedLoginAttempts == u.failedLoginAttempts + 1
              && (v.failedLoginAttempts >= FAILED_LOGIN_LOCK_THRESHOLD ==> v.isLocked && v.lockedUntil == Some(now + LOCK_MS))
            else outcome == LoggedIn || v == u
  {
  }

  /** Wrong passwords are verified in time order, not before a running lock ends, and once the counter is at the
      threshold a whole lock apart. */
  lemma {:induction false} WrongTimesAreSpaced(u: UserRow, attempts: seq<Attempt>)
    requires InTimeOrder(attempts) && NoneSucceeds(u, attempts)
    ensures var w := WrongTimes(u, attempts);
            && Spaced(w, u.failedLoginAttempts)
            && (w != [] ==> attempts != [] && w[0] >= attempts[0].now)
            && (u.isLocked && u.lockedUntil.Some? && w != [] ==> w[0] >= u.lockedUntil.value)
    decreases |attempts|
  {
    if attempts == [] {
    } else {
      var (v, outcome) := Login(u, attempts[0].credentials, attempts[0].now);
      var rest := WrongTimes(v, attempts[1..]);
      AttemptOutcome(u, attempts[0].credentials, attempts[0].now);
      WrongTimesAreSpaced(v, attempts[1..]);
      if outcome == Refused(InvalidCredentials) {
        SpacedPrepend(attempts[0].now, rest, u.failedLoginAttempts);
        assert WrongTimes(u, attempts) == [attempts[0].now] + rest;
      } else {
        assert v == u;
        assert WrongTimes(u, attempts) == rest;
      }
    }
  }

  lemma {:induction false} SpacedTimesSpan(w: seq<int>, n: nat)
    requires FAILED_LOGIN_LOCK_THRESHOLD <= n <= |w|
    requires Spaced(w, 0)
    ensures w[n - 1] - w[0] >= LOCK_MS * (n - FAILED_LOGIN_LOCK_THRESHOLD)
    decreases n
  {
    if n == FAILED_LOGIN_LOCK_THRESHOLD {
      assert w[0] <= w[0 + 1] && w[1] <= w[1 + 1] && w[2] <= w[2 + 1] && w[3] <= w[3 + 1];
    } else {
      SpacedTimesSpan(w, n - 1);
      assert w[n - 2 + 1] >= w[n - 2] + LOCK_MS;
    }
  }

  /** Lockout bound: from a zero counter and without a success or unlock in between, n wrong-password verifications,
      n at least five, take at least 15·(n − 5) minutes. */
  lemma LockoutBound(u: UserRow, attempts: seq<Attempt>)
    requires u.failedLoginAttempts == 0
    requires InTimeOrder(attempts) && NoneSucceeds(u, attempts)
    ensures var w := WrongTimes(u, attempts);
            |w| >= 5 ==> w[|w| - 1] - w[0] >= 15 * 60_000 * (|w| - 5)
  {
    WrongTimesAreSpaced(u, attempts);
    var w := WrongTimes(u, attempts);
    if |w| >= 5 {
      SpacedTimesSpan(w, |w|);
    }
  }

  // ---------- the bound is reached ----------

  /** Five wrong passwords at once, then one at the end of each lock. */
  function BurstAt(i: nat): Attempt {
    Attempt(if i < 5 then 0 else LOCK_MS * (i - 4), Credentials(false, None))
  }

  function Burst(k: nat, n: nat): (r: seq<Attempt>)
    requires k <= n
    ensures |r| == n - k && forall i :: 0 <= i < n - k ==> r[i] == BurstAt(k + i)
  {
    seq(n - k, i requires 0 <= i => BurstAt(k + i))
  }

  /** The account after k attempts of the burst. */
  predicate AfterBurst(u: UserRow, k: nat) {
    && u.isActive
    && u.failedLoginAttempts == k
    && (k < 5 ==> !u.isLocked)
    && (k >= 5 ==> u.lockedUntil == Some(LOCK_MS * (k - 4)))
  }

  lemma BurstStep(u: UserRow, k: nat)
    requires AfterBurst(u, k)
    ensures Login(u, BurstAt(k).credentials, BurstAt(k).now) == (FailedLogin(u, BurstAt(k).now), Refused(InvalidCredentials))
    ensures AfterBurst(FailedLogin(u, BurstAt(k).now), k + 1)
  {
  }

  lemma {:induction false} BurstFrom(u: UserRow, k: nat, n: nat)
    requires k <= n && AfterBurst(u, k)
    ensures NoneSucceeds(u, Burst(k, n))
    ensures var w := WrongTimes(u, Burst(k, n)); |w| == n - k && forall i :: 0 <= i < n - k ==> w[i] == BurstAt(k + i).now
    decreases n - k
  {
    if k < n {
      var v := FailedLogin(u, BurstAt(k).now);
      BurstStep(u, k);
      assert Burst(k, n)[0] == BurstAt(k) && Burst(k, n)[1..] == Burst(k + 1, n);
      BurstFrom(v, k + 1, n);
      var w, rest := WrongTimes(u, Burst(k, n)), WrongTimes(v, Burst(k + 1, n));
      assert w == [BurstAt(k).now] + rest;
      forall i | 0 < i < n - k
        ensures w[i] == BurstAt(k + i).now
      {
        assert w[i] == rest[i - 1] == BurstAt(k + 1 + (i - 1)).now;
      }
    }
  }

  /** The bound is tight for every n. */
  lemma LockoutBoundIsReached(n: nat)
    requires n >= 5
    ensures exists u: UserRow, attempts ::
              && u.failedLoginAttempts == 0 && InTimeOrder(attempts) && NoneSucceeds(u, attempts)
              && var w := WrongTimes(u, attempts);
                 |w| == n && w[n - 1] - w[0] == 15 * 60_000 * (n - 5)
  {
    var u := UserRow(0, false, None, true, false, None);
    BurstFrom(u, 0, n);
    assert InTimeOrder(Burst(0, n));
    var w := WrongTimes(u, Burst(0, n));
    assert w[0] == BurstAt(0 + 0).now && w[n - 1] == BurstAt(0 + (n - 1)).now;
  }
}
