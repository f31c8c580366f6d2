/** The session service, step by step over the two stores, each method proved to be one step of the model. */
module SessionService {
  import opened Wrappers
  import opened SessionModel
  import opened SessionFrame
  import opened SessionProofs

  /** The batches of one SCAN over a user's session keys: every live key of the user comes up, possibly more than
      once, and no key of anybody else. */
  predicate ScanAnswers(redis: map<Key, Entry>, userId: UserId, replies: seq<seq<Key>>) {
    && (forall i, j :: 0 <= i < |replies| && 0 <= j < |replies[i]| ==> replies[i][j].0 == userId)
    && (forall k :: k in redis && k.0 == userId ==> exists i :: 0 <= i < |replies| && k in replies[i])
  }

  class SessionService {
    const hash: string -> TokenHash
    const refreshTtlSeconds: nat
    var now: int
    var families: map<SessionId, Family>
    var redis: map<Key, Entry>
    ghost var issues: seq<Issue>

    ghost function Now(): State
      reads this
    {
      State(now, refreshTtlSeconds, families, redis, issues)
    }

    constructor (hash: string -> TokenHash, refreshTtlSeconds: nat)
      ensures Now() == Initial(refreshTtlSeconds) && Consistent(Now())
    {
      this.hash, this.refreshTtlSeconds := hash, refreshTtlSeconds;
      now, families, redis, issues := 0, map[], map[], [];
    }

    /** SET with EX: the entry lives until its deadline; a deadline already past stores nothing. */
    method SetJson(key: Key, refreshTokenHash: TokenHash, lastActiveAt: int, ttlSeconds: int)
      modifies this`redis
      ensures var deadline := now + ttlSeconds * MS_PER_SECOND;
              redis == KeepLive(old(redis)[key := Entry(refreshTokenHash, lastActiveAt, deadline)], now)
    {
      redis := redis[key := Entry(refreshTokenHash, lastActiveAt, now + ttlSeconds * MS_PER_SECOND)];
      redis := map k | k in redis && now < redis[k].deadline :: redis[k];
    }

    method Scan(userId: UserId, replies: seq<seq<Key>>) returns (keys: seq<Key>)
      requires ScanAnswers(redis, userId, replies)
      ensures forall k :: k in keys ==> k.0 == userId
      ensures forall k :: k in redis && k.0 == userId ==> k in keys
    {
      keys := [];
      var cursor := 0;
      while cursor < |replies|
        invariant 0 <= cursor <= |replies|
        invariant forall k :: k in keys <==> exists i :: 0 <= i < cursor && k in replies[i]
      {
        keys := keys + replies[cursor];
        cursor := cursor + 1;
      }
      forall k | k in keys
        ensures k.0 == userId
      {
        var i :| 0 <= i < |replies| && k in replies[i];
        var j :| 0 <= j < |replies[i]| && replies[i][j] == k;
      }
    }

    method Create(userId: UserId, sessionId: SessionId, refreshToken: string)
      modifies this
      ensures Now() == Next(old(Now()), SessionModel.Create(userId, sessionId, hash(refreshToken)))
      ensures families == old(families)[sessionId := Family(userId, hash(refreshToken), false,
                                                            now + refreshTtlSeconds * 1_000)]
      ensures refreshTtlSeconds > 0 ==>
                && (userId, sessionId) in redis
                && redis[(userId, sessionId)] == Entry(hash(refreshToken), now, now + refreshTtlSeconds * 1_000)
      ensures forall k :: k in old(redis) && k != (userId, sessionId) && now < old(redis)[k].deadline ==>
                            k in redis && redis[k] == old(redis)[k]
    {
      var refreshTokenHash := hash(refreshToken);
      families := families[sessionId := Family(userId, refreshTokenHash, false, now + refreshTtlSeconds * MS_PER_SECOND)];
      SetJson((userId, sessionId), refreshTokenHash, now, refreshTtlSeconds);
      issues := issues + [Issue(refreshTokenHash, sessionId, userId)];
    }

    method FindFamily(incomingHash: TokenHash) returns (r: Option<SessionId>)
      requires Consistent(Now())
      ensures r == FindByHash(families, incomingHash)
    {
      if id :| id in families && families[id].currentTokenHash == incomingHash {
        CurrentHashIsUnique(Now(), id, FindByHash(families, incomingHash).value);
        r := Some(id);
      } else {
        r := None;
      }
    }

    method FindFamilyByReuse(incomingHash: TokenHash) returns (r: Option<SessionId>)
      requires Consistent(Now())
      ensures r == FindByReuse(families, incomingHash)
    {
      if id :| id in families && families[id].currentTokenHash == incomingHash && families[id].isRevoked {
        CurrentHashIsUnique(Now(), id, FindByReuse(families, incomingHash).value);
        r := Some(id);
      } else {
        r := None;
      }
    }

    /** The new hash goes to the family row, and to the session entry if that is still there. */
    method RotateFamily(id: SessionId, newHash: TokenHash)
      requires id in families
      modifies this
      ensures Now() == Rotate(old(Now()), id, newHash)
    {
      var family := families[id];
      families := families[id := family.(currentTokenHash := newHash)];
      issues := issues + [Issue(newHash, id, family.userId)];
      var key := (family.userId, id);
      if key in redis {
        SetJson(key, newHash, now, refreshTtlSeconds);
      }
    }

    method Refresh(rawRefreshToken: string, newRefreshToken: string) returns (r: Result<Refreshed, RefreshError>)
      requires Consistent(Now()) && FreshHash(Now(), hash(newRefreshToken))
      modifies this
      ensures r == RefreshResult(old(Now()), hash(rawRefreshToken))
      ensures Now() == Next(old(Now()), SessionModel.Refresh(hash(rawRefreshToken), hash(newRefreshToken)))
      ensures Consistent(Now())
    {
      var incomingHash, newHash := hash(rawRefreshToken), hash(newRefreshToken);
      StepConsistent(Now(), SessionModel.Refresh(incomingHash, newHash));
      ReuseBranchIsUnreachable(Now(), incomingHash);
      var family := FindFamily(incomingHash);
      if family == None {
        var reuse := FindFamilyByReuse(incomingHash);
        if reuse.Some? {
          assert false; // never reached: no reuse is ever reported and `OnReuse` is never called
        }
        return Err(TokenInvalid);
      }
      var id := family.value;
      if families[id].isRevoked {
        return Err(TokenRevoked);
      }
      if families[id].expiresAt <= now {
        return Err(TokenExpired);
      }
      r := Ok(Refreshed(families[id].userId, id));
      RotateFamily(id, newHash);
    }

    /** What a detected reuse is meant to do: revoke all families of the user, then delete the user's entries. */
    method OnReuse(userId: UserId, replies: seq<seq<Key>>)
      requires ScanAnswers(redis, userId, replies)
      modifies this
      ensures Now() == RevokeAllStep(old(Now()), userId)
      ensures RevokedExactly(old(families), families, (set id | id in old(families) && old(families)[id].userId == userId)
                             )
      ensures forall k :: k in redis <==> k in old(redis) && k.0 != userId
      ensures forall k :: k in redis ==> redis[k] == old(redis)[k]
    {
      families := RevokeWhere(families, FamiliesOf(families, userId));
      DeleteRedisSessions(userId, replies);
    }

    method DeleteRedisSessions(userId: UserId, replies: seq<seq<Key>>)
      requires ScanAnswers(redis, userId, replies)
      modifies this`redis
      ensures redis == DeleteSessionsOf(old(redis), userId)
      ensures forall k :: k in redis <==> k in old(redis) && k.0 != userId
      ensures forall k :: k in redis ==> redis[k] == old(redis)[k]
    {
      var keys := Scan(userId, replies);
      var i := 0;
      while i < |keys|
        invariant 0 <= i <= |keys|
        invariant redis == map k | k in old(redis) && k !in keys[..i] :: old(redis)[k]
      {
        redis := redis - {keys[i]};
        assert keys[..i + 1] == keys[..i] + [keys[i]];
        i := i + 1;
      }
      assert keys[..|keys|] == keys;
    }

    method Revoke(sessionId: SessionId, userId: UserId)
      modifies this
      ensures Now() == Next(old(Now()), SessionModel.Revoke(sessionId, userId))
      ensures RevokedExactly(old(families), families,
                             (set id | id in old(families) && old(families)[id].userId == userId && id == sessionId))
      ensures forall k :: k in redis <==> k in old(redis) && k != (userId, sessionId)
      ensures forall k :: k in redis ==> redis[k] == old(redis)[k]
      ensures forall sub, jti :: (sub, jti) != (userId, sessionId) ==> SameVerdict(old(Now()), Now(), sub, jti)
    {
      redis := redis - {(userId, sessionId)};
      families := RevokeWhere(families, FamiliesOf(families, userId) * {sessionId});
    }

    method RevokeAll(userId: UserId, replies: seq<seq<Key>>)
      requires ScanAnswers(redis, userId, replies)
      modifies this
      ensures Now() == Next(old(Now()), SessionModel.RevokeAll(userId))
      ensures RevokedExactly(old(families), families, (set id | id in old(families) && old(families)[id].userId == userId))
      ensures forall k :: k in redis <==> k in old(redis) && k.0 != userId
      ensures forall k :: k in redis ==> redis[k] == old(redis)[k]
      ensures forall sub, jti :: sub != userId ==> SameVerdict(old(Now()), Now(), sub, jti)
    {
      DeleteRedisSessions(userId, replies);
      families := RevokeWhere(families, FamiliesOf(families, userId));
    }

    method RevokeAllExcept(userId: UserId, keepSessionId: SessionId, replies: seq<seq<Key>>)
      requires ScanAnswers(redis, userId, replies)
      modifies this
      ensures Now() == Next(old(Now()), SessionModel.RevokeAllExcept(userId, keepSessionId))
      ensures RevokedExactly(old(families), families,
                             (set id | id in old(families) && old(families)[id].userId == userId && id != keepSessionId))
      ensures forall k :: k in redis <==> k in old(redis) && (k.0 != userId || k.1 == keepSessionId)
      ensures forall k :: k in redis ==> redis[k] == old(redis)[k]
      ensures forall sub, jti :: sub != userId || jti == keepSessionId ==> SameVerdict(old(Now()), Now(), sub, jti)
    {
      var keys := Scan(userId, replies);
      var keepKey := (userId, keepSessionId);
      var i := 0;
      while i < |keys|
        invariant 0 <= i <= |keys|
        invariant families == old(families) && now == old(now) && issues == old(issues)
        invariant forall k :: k in redis <==> k in old(redis) && (k == keepKey || k !in keys[..i])
        invariant forall k :: k in redis ==> redis[k] == old(redis)[k]
      {
        if keys[i] != keepKey {
          redis := redis - {keys[i]};
        }
        assert keys[..i + 1] == keys[..i] + [keys[i]];
        i := i + 1;
      }
      assert keys[..|keys|] == keys;
      families := RevokeWhere(families, FamiliesOf(families, userId) - {keepSessionId});
    }

    method UpdateLastActive(userId: UserId, sessionId: SessionId)
      modifies this
      ensures Now() == Next(old(Now()), SessionModel.UpdateLastActive(userId, sessionId))
      ensures families == old(families)
      ensures (userId, sessionId) in old(redis) && now - old(redis)[(userId, sessionId)].lastActiveAt >= 300_000 ==>
                forall k :: k in redis && k == (userId, sessionId) ==>
                  redis[k].refreshTokenHash == old(redis)[k].refreshTokenHash && redis[k].lastActiveAt == now
      ensures (userId, sessionId) !in old(redis) || now - old(redis)[(userId, sessionId)].lastActiveAt < 300_000 ==>
                redis == old(redis)
      ensures forall k :: k in old(redis) && k != (userId, sessionId) && now < old(redis)[k].deadline ==>
                            k in redis && redis[k] == old(redis)[k]
    {
      var key := (userId, sessionId);
      if key !in redis {
        return;
      }
      var metadata := redis[key];
      if now - metadata.lastActiveAt < RECENT_ACTIVITY_THRESHOLD_MS {
        return;
      }
      var ttl := TtlSeconds(metadata.deadline - now);
      var effectiveTtl := if ttl > 0 then ttl else refreshTtlSeconds;
      SetJson(key, metadata.refreshTokenHash, now, effectiveTtl);
    }

    method PruneExpiredRefreshFamilies() returns (count: nat)
      modifies this
      ensures Now() == Next(old(Now()), PruneFamilies)
      ensures redis == old(redis)
      ensures forall id :: id in families <==> id in old(families) && !(old(families)[id].expiresAt < now)
      ensures forall id :: id in families ==> families[id] == old(families)[id]
      ensures count == |old(families)| - |families|
    {
      var kept := map id | id in families && families[id].expiresAt >= now :: families[id];
      assert kept.Keys <= families.Keys;
      KeptIsSmaller(kept.Keys, families.Keys);
      count := |families| - |kept|;
      families := kept;
    }

    /** The clock moves on, and Redis drops what has expired. */
    method Elapse(ms: nat)
      modifies this
      ensures Now() == Next(old(Now()), Tick(ms))
      ensures now == old(now) + ms && families == old(families)
      ensures forall k :: k in redis <==> k in old(redis) && now < old(redis)[k].deadline
      ensures forall k :: k in redis ==> redis[k] == old(redis)[k]
    {
      now := now + ms;
      redis := map k | k in redis && now < redis[k].deadline :: redis[k];
    }
  }

  lemma KeptIsSmaller<T>(a: set<T>, b: set<T>)
    requires a <= b
    ensures |a| <= |b|
  {
    assert b == a + (b - a);
  }
}
