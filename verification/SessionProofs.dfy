/** Agreement of the two session stores, finality of revocation and single use of refresh tokens, over whole runs. */
module SessionProofs {
  import opened Wrappers
  import opened SessionModel

  predicate Issued(s: State, sessionId: SessionId) {
    !FreshSession(s, sessionId)
  }

  /** The last token handed out for a session. */
  function LastIssued(issues: seq<Issue>, sessionId: SessionId): Option<TokenHash> {
    if issues == [] then None
    else if issues[|issues| - 1].sessionId == sessionId then Some(issues[|issues| - 1].hash)
    else LastIssued(issues[..|issues| - 1], sessionId)
  }

  ghost predicate DistinctHashes(issues: seq<Issue>) {
    forall i, j :: 0 <= i < j < |issues| ==> issues[i].hash != issues[j].hash
  }

  /** All tokens of a session were issued to one user. */
  ghost predicate OneOwner(issues: seq<Issue>) {
    forall i, j :: 0 <= i < |issues| && 0 <= j < |issues| && issues[i].sessionId == issues[j].sessionId ==>
                     issues[i].userId == issues[j].userId
  }

  ghost predicate OwnedBy(issues: seq<Issue>, sessionId: SessionId, userId: UserId) {
    exists i :: 0 <= i < |issues| && issues[i].sessionId == sessionId && issues[i].userId == userId
  }

  ghost predicate FamilyHistory(s: State) {
    forall id :: id in s.families ==>
      && LastIssued(s.issues, id) == Some(s.families[id].currentTokenHash)
      && OwnedBy(s.issues, id, s.families[id].userId)
  }

  ghost predicate EntryHistory(s: State) {
    forall k :: k in s.redis ==> OwnedBy(s.issues, k.1, k.0) && s.now < s.redis[k].deadline
  }

  /** A live entry whose family row still exists has that row's user and current hash, and the row is not revoked. */
  ghost predicate StoresAgree(s: State) {
    forall k :: k in s.redis && k.1 in s.families ==>
      && s.families[k.1].userId == k.0
      && !s.families[k.1].isRevoked
      && s.redis[k].refreshTokenHash == s.families[k.1].currentTokenHash
  }

  ghost predicate Consistent(s: State) {
    && DistinctHashes(s.issues)
    && OneOwner(s.issues)
    && FamilyHistory(s)
    && EntryHistory(s)
    && StoresAgree(s)
  }

  // ---------- facts about the history ----------

  lemma {:induction false} LastIssuedIsIssued(issues: seq<Issue>, id: SessionId) returns (i: nat)
    requires LastIssued(issues, id).Some?
    ensures i < |issues| && issues[i].sessionId == id && Some(issues[i].hash) == LastIssued(issues, id)
  {
    i := |issues| - 1;
    if issues[i].sessionId != id {
      i := LastIssuedIsIssued(issues[..i], id);
    }
  }

  lemma LastIssuedSnoc(issues: seq<Issue>, issue: Issue, id: SessionId)
    ensures LastIssued(issues + [issue], id) == if issue.sessionId == id then Some(issue.hash) else LastIssued(issues, id)
  {
    assert (issues + [issue])[..|issues|] == issues;
  }

  /** A current hash belongs to one family only. */
  lemma CurrentHashIsUnique(s: State, a: SessionId, b: SessionId)
    requires DistinctHashes(s.issues) && FamilyHistory(s) && a in s.families && b in s.families
    requires s.families[a].currentTokenHash == s.families[b].currentTokenHash
    ensures a == b
  {
    var i := LastIssuedIsIssued(s.issues, a);
    var j := LastIssuedIsIssued(s.issues, b);
  }

  lemma OwnerStays(issues: seq<Issue>, issue: Issue, id: SessionId, userId: UserId)
    requires OwnedBy(issues, id, userId)
    ensures OwnedBy(issues + [issue], id, userId)
  {
    var i :| 0 <= i < |issues| && issues[i].sessionId == id && issues[i].userId == userId;
    assert (issues + [issue])[i] == issues[i];
  }

  lemma NewOwner(issues: seq<Issue>, issue: Issue)
    ensures OwnedBy(issues + [issue], issue.sessionId, issue.userId)
  {
    assert (issues + [issue])[|issues|] == issue;
  }

  /** Adding an issue with a new hash, for a new session or by the session's owner, keeps the history well formed. */
  lemma HistoryGrows(s: State, issue: Issue)
    requires DistinctHashes(s.issues) && OneOwner(s.issues) && FreshHash(s, issue.hash)
    requires FreshSession(s, issue.sessionId) || OwnedBy(s.issues, issue.sessionId, issue.userId)
    ensures DistinctHashes(s.issues + [issue]) && OneOwner(s.issues + [issue])
  {
  }

  // ---------- every step keeps the stores consistent ----------

  lemma FreshSessionHasNoEntry(s: State, sessionId: SessionId)
    requires EntryHistory(s) && FreshSession(s, sessionId)
    ensures forall k :: k in s.redis ==> k.1 != sessionId
  {
  }

  lemma CreateHistory(s: State, userId: UserId, sessionId: SessionId, hash: TokenHash)
    requires Consistent(s) && FreshSession(s, sessionId) && FreshHash(s, hash)
    ensures var t := CreateStep(s, userId, sessionId, hash);
            DistinctHashes(t.issues) && OneOwner(t.issues) && FamilyHistory(t)
  {
    var issue := Issue(hash, sessionId, userId);
    var t := CreateStep(s, userId, sessionId, hash);
    HistoryGrows(s, issue);
    NewOwner(s.issues, issue);
    forall id | id in t.families
      ensures LastIssued(t.issues, id) == Some(t.families[id].currentTokenHash)
      ensures OwnedBy(t.issues, id, t.families[id].userId)
    {
      LastIssuedSnoc(s.issues, issue, id);
      if id != sessionId {
        OwnerStays(s.issues, issue, id, t.families[id].userId);
      }
    }
  }

  lemma CreateConsistent(s: State, userId: UserId, sessionId: SessionId, hash: TokenHash)
    requires Consistent(s) && FreshSession(s, sessionId) && FreshHash(s, hash)
    ensures Consistent(CreateStep(s, userId, sessionId, hash))
  {
    CreateHistory(s, userId, sessionId, hash);
    CreateEntries(s, userId, sessionId, hash);
  }

  lemma CreateEntries(s: State, userId: UserId, sessionId: SessionId, hash: TokenHash)
    requires Consistent(s) && FreshSession(s, sessionId)
    ensures var t := CreateStep(s, userId, sessionId, hash); EntryHistory(t) && StoresAgree(t)
  {
    var issue := Issue(hash, sessionId, userId);
    var t := CreateStep(s, userId, sessionId, hash);
    FreshSessionHasNoEntry(s, sessionId);
    NewOwner(s.issues, issue);
    forall k | k in t.redis
      ensures OwnedBy(t.issues, k.1, k.0) && t.now < t.redis[k].deadline
      ensures k.1 in t.families ==>
                && t.families[k.1].userId == k.0
                && !t.families[k.1].isRevoked
                && t.redis[k].refreshTokenHash == t.families[k.1].currentTokenHash
    {
      if k != (userId, sessionId) {
        assert k in s.redis && t.redis[k] == s.redis[k] && k.1 != sessionId;
        OwnerStays(s.issues, issue, k.1, k.0);
      }
    }
  }

  lemma RotateConsistent(s: State, id: SessionId, newHash: TokenHash)
    requires Consistent(s) && id in s.families && !s.families[id].isRevoked && FreshHash(s, newHash)
    ensures Consistent(Rotate(s, id, newHash))
  {
    var f := s.families[id];
    var issue := Issue(newHash, id, f.userId);
    var t := Rotate(s, id, newHash);
    HistoryGrows(s, issue);
    forall id' | id' in t.families
      ensures LastIssued(t.issues, id') == Some(t.families[id'].currentTokenHash)
      ensures OwnedBy(t.issues, id', t.families[id'].userId)
    {
      LastIssuedSnoc(s.issues, issue, id');
      OwnerStays(s.issues, issue, id', t.families[id'].userId);
    }
    forall k | k in t.redis
      ensures k in s.redis && OwnedBy(t.issues, k.1, k.0)
    {
      OwnerStays(s.issues, issue, k.1, k.0);
    }
  }

  /** Revoking some rows is safe when no remaining entry belongs to one of them. */
  lemma RevokeWhereConsistent(s: State, ids: set<SessionId>, redis: map<Key, Entry>)
    requires Consistent(s)
    requires forall k :: k in redis ==> k in s.redis && redis[k] == s.redis[k]
    requires forall k :: k in redis && k.1 in s.families ==> k.1 !in ids
    ensures Consistent(s.(families := RevokeWhere(s.families, ids), redis := redis))
  {
    var t := s.(families := RevokeWhere(s.families, ids), redis := redis);
    assert FamilyHistory(t);
    assert EntryHistory(t);
  }

  lemma RevokeConsistent(s: State, sessionId: SessionId, userId: UserId)
    requires Consistent(s)
    ensures Consistent(RevokeStep(s, sessionId, userId))
  {
    var t := RevokeStep(s, sessionId, userId);
    RevokeWhereConsistent(s, FamiliesOf(s.families, userId) * {sessionId}, t.redis);
  }

  lemma RevokeAllConsistent(s: State, userId: UserId)
    requires Consistent(s)
    ensures Consistent(RevokeAllStep(s, userId))
  {
    var t := RevokeAllStep(s, userId);
    RevokeWhereConsistent(s, FamiliesOf(s.families, userId), t.redis);
  }

  lemma RevokeAllExceptConsistent(s: State, userId: UserId, keep: SessionId)
    requires Consistent(s)
    ensures Consistent(RevokeAllExceptStep(s, userId, keep))
  {
    var t := RevokeAllExceptStep(s, userId, keep);
    RevokeWhereConsistent(s, FamiliesOf(s.families, userId) - {keep}, t.redis);
  }

  /** On one snapshot the reuse lookup finds nothing: it repeats the failed lookup with one more condition. */
  lemma ReuseBranchIsUnreachable(s: State, hash: TokenHash)
    ensures RefreshResult(s, hash) != Err(TokenReused)
  {
  }

  lemma StepConsistent(s: State, step: Step)
    requires Consistent(s) && Enabled(s, step)
    ensures Consistent(Next(s, step))
  {
    match step
    case Create(userId, sessionId, hash) => CreateConsistent(s, userId, sessionId, hash);
    case Refresh(hash, newHash) =>
      ReuseBranchIsUnreachable(s, hash);
      if RefreshResult(s, hash).Ok? {
        RotateConsistent(s, RefreshResult(s, hash).value.sessionId, newHash);
      }
    case Revoke(sessionId, userId) => RevokeConsistent(s, sessionId, userId);
    case RevokeAll(userId) => RevokeAllConsistent(s, userId);
    case RevokeAllExcept(userId, keep) => RevokeAllExceptConsistent(s, userId, keep);
    case _ =>
  }

  lemma {:induction false} RunConsistent(s: State, steps: seq<Step>)
    requires Consistent(s) && IsRun(s, steps)
    ensures Consistent(Final(s, steps))
    decreases |steps|
  {
    if steps == [] {
    } else {
      StepConsistent(s, steps[0]);
      RunConsistent(Next(s, steps[0]), steps[1..]);
    }
  }

  /** In every reachable state the session entries in Redis agree with the family rows that still exist. */
  lemma StoresAgreeInEveryRun(refreshTtlSeconds: nat, steps: seq<Step>)
    requires IsRun(Initial(refreshTtlSeconds), steps)
    ensures StoresAgree(Final(Initial(refreshTtlSeconds), steps))
  {
    RunConsistent(Initial(refreshTtlSeconds), steps);
  }

  // ---------- gone is gone ----------

  lemma IssuedStays(s: State, step: Step, sessionId: SessionId)
    requires Issued(s, sessionId)
    ensures Issued(Next(s, step), sessionId)
  {
    var i :| 0 <= i < |s.issues| && s.issues[i].sessionId == sessionId;
    assert |Next(s, step).issues| >= |s.issues| && Next(s, step).issues[i] == s.issues[i];
  }

  lemma StepKeepsGone(s: State, step: Step, key: Key)
    requires Enabled(s, step) && Issued(s, key.1) && key !in s.redis
    ensures key !in Next(s, step).redis
  {
  }

  /** Once the Redis entry of a session is gone, revoked or expired, no later request with its id passes validation. */
  lemma {:induction false} NoResurrection(s: State, steps: seq<Step>, user: Option<User>, payload: JwtPayload)
    requires IsRun(s, steps) && Issued(s, payload.jti) && (payload.sub, payload.jti) !in s.redis
    ensures Validate(Final(s, steps), user, payload).Err?
    decreases |steps|
  {
    if steps == [] {
    } else {
      StepKeepsGone(s, steps[0], (payload.sub, payload.jti));
      IssuedStays(s, steps[0], payload.jti);
      NoResurrection(Next(s, steps[0]), steps[1..], user, payload);
    }
  }

  /** A session that is over: no Redis entry under any user, and its family revoked or pruned. */
  ghost predicate Over(s: State, sessionId: SessionId) {
    && Issued(s, sessionId)
    && (forall k :: k in s.redis ==> k.1 != sessionId)
    && (sessionId in s.families ==> s.families[sessionId].isRevoked)
  }

  lemma StepKeepsOver(s: State, step: Step, sessionId: SessionId)
    requires Enabled(s, step) && Over(s, sessionId)
    ensures Over(Next(s, step), sessionId)
    ensures step.Refresh? ==> RefreshResult(s, step.hash).Ok? ==> RefreshResult(s, step.hash).value.sessionId != sessionId
  {
    IssuedStays(s, step, sessionId);
  }

  /** Some refresh in the run is accepted for the session. */
  ghost predicate RefreshedInRun(s: State, steps: seq<Step>, sessionId: SessionId)
    decreases |steps|
  {
    && steps != []
    && (|| (&& steps[0].Refresh?
            && RefreshResult(s, steps[0].hash).Ok?
            && RefreshResult(s, steps[0].hash).value.sessionId == sessionId)
        || RefreshedInRun(Next(s, steps[0]), steps[1..], sessionId))
  }

  lemma {:induction false} NeverRefreshedAgain(s: State, steps: seq<Step>, sessionId: SessionId)
    requires IsRun(s, steps) && Over(s, sessionId)
    ensures !RefreshedInRun(s, steps, sessionId)
    decreases |steps|
  {
    if steps == [] {
    } else {
      StepKeepsOver(s, steps[0], sessionId);
      NeverRefreshedAgain(Next(s, steps[0]), steps[1..], sessionId);
    }
  }

  /** What the three revocations end: one session of its owner, all sessions of a user, all but the kept one. */
  predicate Ends(step: Step, sessionId: SessionId, owner: UserId) {
    match step
    case Revoke(id, userId) => id == sessionId && userId == owner
    case RevokeAll(userId) => userId == owner
    case RevokeAllExcept(userId, keep) => userId == owner && keep != sessionId
    case _ => false
  }

  lemma OwnerIsUnique(s: State, id: SessionId, a: UserId, b: UserId)
    requires OneOwner(s.issues) && OwnedBy(s.issues, id, a) && OwnedBy(s.issues, id, b)
    ensures a == b
  {
  }

  /** Revocation is final: a revoked session never validates and is never refreshed again, whatever runs afterwards. */
  lemma RevocationIsFinal(s: State, step: Step, steps: seq<Step>, sessionId: SessionId, owner: UserId,
                          user: Option<User>, iat: int)
    requires Consistent(s) && OwnedBy(s.issues, sessionId, owner) && Ends(step, sessionId, owner)
    requires IsRun(Next(s, step), steps)
    ensures var after := Next(s, step);
            && !RefreshedInRun(after, steps, sessionId)
            && Validate(Final(after, steps), user, JwtPayload(owner, sessionId, iat)).Err?
  {
    var after := Next(s, step);
    assert Issued(s, sessionId);
    IssuedStays(s, step, sessionId);
    if sessionId in s.families {
      OwnerIsUnique(s, sessionId, owner, s.families[sessionId].userId);
    }
    forall k | k in after.redis
      ensures k.1 != sessionId
    {
      if k.1 == sessionId {
        OwnerIsUnique(s, sessionId, owner, k.0);
      }
    }
    NeverRefreshedAgain(after, steps, sessionId);
    NoResurrection(after, steps, user, JwtPayload(owner, sessionId, iat));
  }

  /** No step clears a revocation: while the row exists it stays revoked. */
  lemma RevocationIsNeverCleared(s: State, step: Step, id: SessionId)
    requires Enabled(s, step) && Consistent(s)
    requires id in s.families && s.families[id].isRevoked && id in Next(s, step).families
    ensures Next(s, step).families[id].isRevoked
  {
    assert Issued(s, id) by {
      var i := LastIssuedIsIssued(s.issues, id);
    }
  }

  // ---------- single use ----------

  /** A refresh is accepted exactly for the last token issued to an unrevoked, unexpired family. */
  lemma AcceptedIsLastIssued(s: State, hash: TokenHash, id: SessionId)
    requires Consistent(s) && id in s.families
    ensures RefreshResult(s, hash) == Ok(Refreshed(s.families[id].userId, id))
       <==> && LastIssued(s.issues, id) == Some(hash)
            && !s.families[id].isRevoked
            && s.now < s.families[id].expiresAt
  {
    match FindByHash(s.families, hash)
    case None =>
    case Some(found) =>
      if s.families[id].currentTokenHash == hash {
        CurrentHashIsUnique(s, found, id);
      }
  }

  /** Issued once, and no longer the current hash of any family. */
  ghost predicate Spent(s: State, hash: TokenHash) {
    && !FreshHash(s, hash)
    && forall id :: id in s.families ==> s.families[id].currentTokenHash != hash
  }

  /** A spent token is refused as invalid and the attempt changes nothing; the reuse alarm does not go off. */
  lemma ReplayChangesNothing(s: State, hash: TokenHash, newHash: TokenHash)
    requires Spent(s, hash)
    ensures RefreshResult(s, hash) == Err(TokenInvalid) && Next(s, Refresh(hash, newHash)) == s
  {
  }

  lemma StepKeepsSpent(s: State, step: Step, hash: TokenHash)
    requires Enabled(s, step) && Spent(s, hash)
    ensures Spent(Next(s, step), hash)
  {
    var i :| 0 <= i < |s.issues| && s.issues[i].hash == hash;
    assert |Next(s, step).issues| >= |s.issues| && Next(s, step).issues[i] == s.issues[i];
  }

  lemma AcceptedBecomesSpent(s: State, hash: TokenHash, newHash: TokenHash)
    requires Consistent(s) && FreshHash(s, newHash) && RefreshResult(s, hash).Ok?
    ensures Spent(Next(s, Refresh(hash, newHash)), hash)
  {
    var id := RefreshResult(s, hash).value.sessionId;
    var i := LastIssuedIsIssued(s.issues, id);
    var t := Next(s, Refresh(hash, newHash));
    assert t.issues[i] == s.issues[i];
    forall id' | id' in t.families
      ensures t.families[id'].currentTokenHash != hash
    {
      if id' != id && s.families[id'].currentTokenHash == hash {
        CurrentHashIsUnique(s, id, id');
      }
    }
  }

  ghost function AcceptedCount(s: State, steps: seq<Step>, hash: TokenHash): nat
    decreases |steps|
  {
    if steps == [] then 0
    else
      (if steps[0].Refresh? && steps[0].hash == hash && RefreshResult(s, hash).Ok? then 1 else 0)
      + AcceptedCount(Next(s, steps[0]), steps[1..], hash)
  }

  lemma {:induction false} SpentIsNeverAccepted(s: State, steps: seq<Step>, hash: TokenHash)
    requires IsRun(s, steps) && Spent(s, hash)
    ensures AcceptedCount(s, steps, hash) == 0
    decreases |steps|
  {
    if steps == [] {
    } else {
      ReplayChangesNothing(s, hash, hash);
      StepKeepsSpent(s, steps[0], hash);
      SpentIsNeverAccepted(Next(s, steps[0]), steps[1..], hash);
    }
  }

  /** Over any run a refresh token is accepted at most once. */
  lemma {:induction false} SingleUse(s: State, steps: seq<Step>, hash: TokenHash)
    requires Consistent(s) && IsRun(s, steps)
    ensures AcceptedCount(s, steps, hash) <= 1
    decreases |steps|
  {
    if steps == [] {
    } else {
      var next := Next(s, steps[0]);
      if steps[0].Refresh? && steps[0].hash == hash && RefreshResult(s, hash).Ok? {
        AcceptedBecomesSpent(s, hash, steps[0].newHash);
        SpentIsNeverAccepted(next, steps[1..], hash);
      } else {
        StepConsistent(s, steps[0]);
        SingleUse(next, steps[1..], hash);
      }
    }
  }
}
