/** What each step does outright, what it leaves alone, and that sessions work: a session that nobody ends goes on
    validating, and its last token is accepted. */
module SessionFrame {
  import opened Wrappers
  import opened SessionModel
  import opened SessionProofs

  /** Exactly the rows with the given ids are revoked. */
  predicate RevokedExactly(before: map<SessionId, Family>, after: map<SessionId, Family>, ids: set<SessionId>) {
    && after.Keys == before.Keys
    && forall id :: id in after ==>
         after[id] == Family(before[id].userId, before[id].currentTokenHash,
                             before[id].isRevoked || id in ids, before[id].expiresAt)
  }

  /** A request is judged as before. */
  ghost predicate SameVerdict(before: State, after: State, sub: UserId, jti: SessionId) {
    forall user: Option<User>, iat: int ::
      Validate(after, user, JwtPayload(sub, jti, iat)) == Validate(before, user, JwtPayload(sub, jti, iat))
  }

  predicate Presents(families: map<SessionId, Family>, id: SessionId, tokenHash: TokenHash) {
    id in families && families[id].currentTokenHash == tokenHash
  }

  // ---------- verdicts ----------

  /** A request validates exactly if the user exists, is active and not locked, has not changed the password since, and
      the session has a live entry. */
  lemma ValidatesExactly(s: State, user: Option<User>, payload: JwtPayload)
    ensures Validate(s, user, payload) == Ok(payload.jti)
       <==> && user.Some? && user.value.isActive
            && !(user.value.isLocked && user.value.lockedUntil.Some? && user.value.lockedUntil.value > s.now)
            && (user.value.passwordChangedAt.Some? ==> user.value.passwordChangedAt.value <= payload.iat * 1_000)
            && (payload.sub, payload.jti) in s.redis && s.redis[(payload.sub, payload.jti)].refreshTokenHash != ""
    ensures Validate(s, user, payload) == Err(SessionRevoked) ==>
              (payload.sub, payload.jti) !in s.redis || s.redis[(payload.sub, payload.jti)].refreshTokenHash == ""
    ensures Validate(s, user, payload) == Err(SubjectNotFound) <==> user == None
    ensures Validate(s, user, payload) == Err(AccountDisabled) <==> user.Some? && !user.value.isActive
  {
  }

  /** The verdict on a refresh token, each one exactly under its own condition. */
  lemma RefreshVerdicts(s: State, hash: TokenHash)
    requires Consistent(s)
    ensures RefreshResult(s, hash) == Err(TokenInvalid) <==> forall id :: !Presents(s.families, id, hash)
    ensures RefreshResult(s, hash) == Err(TokenRevoked)
       <==> exists id :: Presents(s.families, id, hash) && s.families[id].isRevoked
    ensures RefreshResult(s, hash) == Err(TokenExpired)
       <==> exists id :: Presents(s.families, id, hash) && !s.families[id].isRevoked && s.families[id].expiresAt <= s.now
    ensures forall r ::
              (RefreshResult(s, hash) == Ok(r)
               <==> && Presents(s.families, r.sessionId, hash) && s.families[r.sessionId].userId == r.userId
                    && !s.families[r.sessionId].isRevoked && s.now < s.families[r.sessionId].expiresAt)
  {
    match FindByHash(s.families, hash)
    case None =>
      assert forall id :: Presents(s.families, id, hash) ==> id in s.families;
    case Some(found) =>
      assert Presents(s.families, found, hash);
      forall id | Presents(s.families, id, hash)
        ensures id == found
      {
        CurrentHashIsUnique(s, id, found);
      }
  }

  /** An accepted refresh: the row takes the new hash and nothing else, the entry if it was live takes hash, time and a
      whole lifetime, and every other row and live entry stays. */
  lemma RefreshEffect(s: State, hash: TokenHash, newHash: TokenHash)
    requires EntryHistory(s) && RefreshResult(s, hash).Ok?
    ensures var r, t := RefreshResult(s, hash).value, Next(s, Refresh(hash, newHash));
            var key, f := (r.userId, r.sessionId), s.families[r.sessionId];
            && t.families == s.families[key.1 := Family(f.userId, newHash, f.isRevoked, f.expiresAt)]
            && (s.refreshTtlSeconds > 0 ==> t.redis.Keys == s.redis.Keys)
            && (forall k :: k in t.redis ==>
                  && k in s.redis
                  && t.redis[k] == if k == key then Entry(newHash, s.now, s.now + s.refreshTtlSeconds * 1_000) else s.redis[k])
            && t.now == s.now
  {
  }

  lemma RefusedRefreshEffect(s: State, hash: TokenHash, newHash: TokenHash)
    requires RefreshResult(s, hash).Err?
    ensures Next(s, Refresh(hash, newHash)) == s
  {
    ReuseBranchIsUnreachable(s, hash);
  }

  // ---------- a step leaves every other session alone ----------

  /** The steps that may change what is stored for a session. */
  ghost predicate Concerns(s: State, step: Step, key: Key) {
    match step
    case Create(_, id, _) => id == key.1
    case Refresh(hash, _) => RefreshResult(s, hash).Ok? && RefreshResult(s, hash).value.sessionId == key.1
    case Revoke(id, userId) => key == (userId, id)
    case RevokeAll(userId) => key.0 == userId
    case RevokeAllExcept(userId, keep) => key.0 == userId && key.1 != keep
    case UpdateLastActive(userId, id) => key == (userId, id)
    case PruneFamilies => key.1 in s.families && s.families[key.1].expiresAt < s.now
    case Tick(ms) => key in s.redis && s.redis[key].deadline <= s.now + ms
  }

  ghost predicate SameRow(s: State, t: State, key: Key) {
    && (key.1 in t.families <==> key.1 in s.families)
    && (key.1 in s.families && s.families[key.1].userId == key.0 ==> t.families[key.1] == s.families[key.1])
  }

  ghost predicate SameEntry(s: State, t: State, key: Key) {
    && (key in t.redis <==> key in s.redis)
    && (key in s.redis ==> t.redis[key] == s.redis[key])
  }

  lemma StepLeavesAlone(s: State, step: Step, key: Key)
    requires EntryHistory(s) && !Concerns(s, step, key)
    ensures SameRow(s, Next(s, step), key) && SameEntry(s, Next(s, step), key)
  {
    if step.Refresh? {
      ReuseBranchIsUnreachable(s, step.hash);
    }
  }

  ghost predicate LeftAlone(s: State, steps: seq<Step>, key: Key)
    decreases |steps|
  {
    steps == [] || (!Concerns(s, steps[0], key) && LeftAlone(Next(s, steps[0]), steps[1..], key))
  }

  /** Sessions are independent: whatever happens to other sessions, of the same user or of others, a session that no step
      concerns keeps its row and its entry. */
  lemma {:induction false} SessionsAreIndependent(s: State, steps: seq<Step>, key: Key)
    requires Consistent(s) && IsRun(s, steps) && LeftAlone(s, steps, key)
    requires key.1 in s.families ==> s.families[key.1].userId == key.0
    ensures SameRow(s, Final(s, steps), key) && SameEntry(s, Final(s, steps), key)
    decreases |steps|
  {
    if steps == [] {
    } else {
      StepLeavesAlone(s, steps[0], key);
      StepConsistent(s, steps[0]);
      SessionsAreIndependent(Next(s, steps[0]), steps[1..], key);
    }
  }

  // ---------- sessions work ----------

  predicate IsUsable(user: User, now: int, iat: int) {
    && user.isActive
    && !(user.isLocked && user.lockedUntil.Some? && user.lockedUntil.value > now)
    && (user.passwordChangedAt.Some? ==> user.passwordChangedAt.value <= iat * 1_000)
  }

  /** Row and entry of a new session. */
  lemma CreateEffect(s: State, userId: UserId, id: SessionId, hash: TokenHash)
    requires s.refreshTtlSeconds > 0
    ensures var t := Next(s, Create(userId, id, hash));
            var deadline := s.now + s.refreshTtlSeconds * 1_000;
            && t.now == s.now
            && id in t.families && t.families[id] == Family(userId, hash, false, deadline)
            && (userId, id) in t.redis && t.redis[(userId, id)] == Entry(hash, s.now, deadline)
  {
  }

  /** A new session works: while it is left alone its requests validate and its refresh token is accepted until the
      session expires. */
  lemma NewSessionWorks(s: State, userId: UserId, id: SessionId, hash: TokenHash, steps: seq<Step>, user: User, iat: int)
    requires Consistent(s) && Enabled(s, Create(userId, id, hash)) && s.refreshTtlSeconds > 0 && hash != ""
    requires IsRun(Next(s, Create(userId, id, hash)), steps)
    requires LeftAlone(Next(s, Create(userId, id, hash)), steps, (userId, id))
    ensures var t := Final(Next(s, Create(userId, id, hash)), steps);
            && (IsUsable(user, t.now, iat) ==> Validate(t, Some(user), JwtPayload(userId, id, iat)) == Ok(id))
            && (t.now < s.now + s.refreshTtlSeconds * 1_000 ==> RefreshResult(t, hash) == Ok(Refreshed(userId, id)))
  {
    CreateEffect(s, userId, id, hash);
    StepConsistent(s, Create(userId, id, hash));
    StoredSessionWorks(Next(s, Create(userId, id, hash)), steps, (userId, id), user, iat);
  }

  lemma StoredSessionWorks(s: State, steps: seq<Step>, key: Key, user: User, iat: int)
    requires Consistent(s) && IsRun(s, steps) && LeftAlone(s, steps, key)
    requires key.1 in s.families && s.families[key.1].userId == key.0 && !s.families[key.1].isRevoked
    requires key in s.redis && s.redis[key].refreshTokenHash != ""
    ensures var t := Final(s, steps);
            && (IsUsable(user, t.now, iat) ==> Validate(t, Some(user), JwtPayload(key.0, key.1, iat)) == Ok(key.1))
            && (t.now < s.families[key.1].expiresAt ==>
                  RefreshResult(t, s.families[key.1].currentTokenHash) == Ok(Refreshed(key.0, key.1)))
  {
    SessionsAreIndependent(s, steps, key);
    RunConsistent(s, steps);
    RefreshVerdicts(Final(s, steps), s.families[key.1].currentTokenHash);
  }

  lemma NewTokenWorks(s: State, hash: TokenHash, newHash: TokenHash)
    requires Consistent(s) && Enabled(s, Refresh(hash, newHash)) && RefreshResult(s, hash).Ok?
    ensures RefreshResult(Next(s, Refresh(hash, newHash)), newHash) == RefreshResult(s, hash)
  {
    RefreshVerdicts(s, hash);
    RefreshEffect(s, hash, newHash);
    StepConsistent(s, Refresh(hash, newHash));
    RefreshVerdicts(Next(s, Refresh(hash, newHash)), newHash);
  }

  /** A refreshed session goes on working: until it expires the new token is accepted at once, and requests validate if
      they did before. */
  lemma RefreshedSessionWorks(s: State, hash: TokenHash, newHash: TokenHash, user: User, iat: int)
    requires Consistent(s) && Enabled(s, Refresh(hash, newHash)) && RefreshResult(s, hash).Ok?
    requires s.refreshTtlSeconds > 0 && newHash != "" && IsUsable(user, s.now, iat)
    ensures var r, t := RefreshResult(s, hash).value, Next(s, Refresh(hash, newHash));
            && RefreshResult(t, newHash) == Ok(r)
            && ((r.userId, r.sessionId) in s.redis ==>
                  Validate(t, Some(user), JwtPayload(r.userId, r.sessionId, iat)) == Ok(r.sessionId))
  {
    var r, t := RefreshResult(s, hash).value, Next(s, Refresh(hash, newHash));
    RefreshVerdicts(s, hash);
    RefreshEffect(s, hash, newHash);
    NewTokenWorks(s, hash, newHash);
  }
}
