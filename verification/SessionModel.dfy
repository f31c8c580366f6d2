/** Refresh-token families in the database and session entries in Redis: the two stores and the steps on them.

    One region; every service method is one step; SHA-256 appears only through the hashes of the tokens issued. */
module SessionModel {
  import opened Wrappers

  type UserId = string
  type SessionId = string
  type TokenHash = string
  type Key = (UserId, SessionId)

  const MS_PER_SECOND := 1_000
  const RECENT_ACTIVITY_THRESHOLD_MS := 5 * 60 * 1_000

  datatype Family = Family(userId: UserId, currentTokenHash: TokenHash, isRevoked: bool, expiresAt: int)

  datatype Entry = Entry(refreshTokenHash: TokenHash, lastActiveAt: int, deadline: int)

  /** A token handed out for a session; the list of them is the history that freshness is judged by. */
  datatype Issue = Issue(hash: TokenHash, sessionId: SessionId, userId: UserId)

  /** `redis` holds the keys that have not expired at `now`. */
  datatype State = State(
    now: int,
    refreshTtlSeconds: nat,
    families: map<SessionId, Family>,
    redis: map<Key, Entry>,
    issues: seq<Issue>)

  datatype RefreshError = TokenReused | TokenInvalid | TokenRevoked | TokenExpired

  datatype Refreshed = Refreshed(userId: UserId, sessionId: SessionId)

  datatype Step =
    | Create(userId: UserId, sessionId: SessionId, hash: TokenHash)
    | Refresh(hash: TokenHash, newHash: TokenHash)
    | Revoke(sessionId: SessionId, userId: UserId)
    | RevokeAll(userId: UserId)
    | RevokeAllExcept(userId: UserId, keep: SessionId)
    | UpdateLastActive(userId: UserId, sessionId: SessionId)
    | PruneFamilies
    | Tick(ms: nat)

  function Initial(refreshTtlSeconds: nat): State {
    State(0, refreshTtlSeconds, map[], map[], [])
  }

  predicate FreshHash(s: State, hash: TokenHash) {
    forall i :: 0 <= i < |s.issues| ==> s.issues[i].hash != hash
  }

  predicate FreshSession(s: State, sessionId: SessionId) {
    forall i :: 0 <= i < |s.issues| ==> s.issues[i].sessionId != sessionId
  }

  /** New session ids and the hashes of new tokens have never been seen before. */
  predicate Enabled(s: State, step: Step) {
    match step
    case Create(_, sessionId, hash) => FreshSession(s, sessionId) && FreshHash(s, hash)
    case Refresh(_, newHash) => FreshHash(s, newHash)
    case _ => true
  }

  // ---------- what each service method does ----------

  /** `findFirst` on the current hash; the database may return any matching row. */
  ghost function FindByHash(families: map<SessionId, Family>, hash: TokenHash): Option<SessionId> {
    if exists id :: id in families && families[id].currentTokenHash == hash then
      var id :| id in families && families[id].currentTokenHash == hash;
      Some(id)
    else None
  }

  /** The second lookup of the reuse check: the same column, among revoked families. */
  ghost function FindByReuse(families: map<SessionId, Family>, hash: TokenHash): Option<SessionId> {
    if exists id :: id in families && families[id].currentTokenHash == hash && families[id].isRevoked then
      var id :| id in families && families[id].currentTokenHash == hash && families[id].isRevoked;
      Some(id)
    else None
  }

  function RevokeWhere(families: map<SessionId, Family>, ids: set<SessionId>): (r: map<SessionId, Family>)
    ensures r.Keys == families.Keys
  {
    map id | id in families :: if id in ids then families[id].(isRevoked := true) else families[id]
  }

  function FamiliesOf(families: map<SessionId, Family>, userId: UserId): set<SessionId> {
    set id | id in families && families[id].userId == userId
  }

  function DeleteSessionsOf(redis: map<Key, Entry>, userId: UserId): map<Key, Entry> {
    map k | k in redis && k.0 != userId :: redis[k]
  }

  function Deadline(s: State): int {
    s.now + s.refreshTtlSeconds * MS_PER_SECOND
  }

  function CreateStep(s: State, userId: UserId, sessionId: SessionId, hash: TokenHash): State {
    s.(families := s.families[sessionId := Family(userId, hash, false, Deadline(s))],
       redis := KeepLive(s.redis[(userId, sessionId) := Entry(hash, s.now, Deadline(s))], s.now),
       issues := s.issues + [Issue(hash, sessionId, userId)])
  }

  ghost function RefreshResult(s: State, hash: TokenHash): Result<Refreshed, RefreshError> {
    match FindByHash(s.families, hash)
    case None => Err(if FindByReuse(s.families, hash).Some? then TokenReused else TokenInvalid)
    case Some(id) =>
      if s.families[id].isRevoked then Err(TokenRevoked)
      else if s.families[id].expiresAt <= s.now then Err(TokenExpired)
      else Ok(Refreshed(s.families[id].userId, id))
  }

  function Rotate(s: State, id: SessionId, newHash: TokenHash): State
    requires id in s.families
  {
    var f := s.families[id];
    var key := (f.userId, id);
    s.(families := s.families[id := f.(currentTokenHash := newHash)],
       redis := if key in s.redis
                then KeepLive(s.redis[key := Entry(newHash, s.now, Deadline(s))], s.now)
                else s.redis,
       issues := s.issues + [Issue(newHash, id, f.userId)])
  }

  function RevokeAllStep(s: State, userId: UserId): State {
    s.(families := RevokeWhere(s.families, FamiliesOf(s.families, userId)),
       redis := DeleteSessionsOf(s.redis, userId))
  }

  function HandleReuse(s: State, familyId: Option<SessionId>): State {
    if familyId.Some? && familyId.value in s.families then RevokeAllStep(s, s.families[familyId.value].userId) else s
  }

  ghost function RefreshStep(s: State, hash: TokenHash, newHash: TokenHash): State {
    match RefreshResult(s, hash)
    case Ok(r) => Rotate(s, r.sessionId, newHash)
    case Err(TokenReused) => HandleReuse(s, FindByReuse(s.families, hash))
    case Err(_) => s
  }

  function RevokeStep(s: State, sessionId: SessionId, userId: UserId): State {
    s.(families := RevokeWhere(s.families, FamiliesOf(s.families, userId) * {sessionId}),
       redis := s.redis - {(userId, sessionId)})
  }

  function RevokeAllExceptStep(s: State, userId: UserId, keep: SessionId): State {
    s.(families := RevokeWhere(s.families, FamiliesOf(s.families, userId) - {keep}),
       redis := map k | k in s.redis && (k.0 != userId || k.1 == keep) :: s.redis[k])
  }

  /** Redis TTL: the remaining milliseconds rounded to the nearest second. */
  function TtlSeconds(remainingMs: int): int {
    (remainingMs + 500) / MS_PER_SECOND
  }

  function UpdateLastActiveStep(s: State, userId: UserId, sessionId: SessionId): State {
    var key := (userId, sessionId);
    if key !in s.redis then s
    else
      var e := s.redis[key];
      if s.now - e.lastActiveAt < RECENT_ACTIVITY_THRESHOLD_MS then s
      else
        var ttl := TtlSeconds(e.deadline - s.now);
        var effective := if ttl > 0 then ttl else s.refreshTtlSeconds;
        s.(redis := KeepLive(s.redis[key := e.(lastActiveAt := s.now, deadline := s.now + effective * MS_PER_SECOND)],
                             s.now))
  }

  function PruneStep(s: State): State {
    s.(families := map id | id in s.families && s.families[id].expiresAt >= s.now :: s.families[id])
  }

  function KeepLive(redis: map<Key, Entry>, now: int): map<Key, Entry> {
    map k | k in redis && now < redis[k].deadline :: redis[k]
  }

  function TickStep(s: State, ms: nat): State {
    s.(now := s.now + ms, redis := KeepLive(s.redis, s.now + ms))
  }

  ghost function Next(s: State, step: Step): State {
    match step
    case Create(userId, sessionId, hash) => CreateStep(s, userId, sessionId, hash)
    case Refresh(hash, newHash) => RefreshStep(s, hash, newHash)
    case Revoke(sessionId, userId) => RevokeStep(s, sessionId, userId)
    case RevokeAll(userId) => RevokeAllStep(s, userId)
    case RevokeAllExcept(userId, keep) => RevokeAllExceptStep(s, userId, keep)
    case UpdateLastActive(userId, sessionId) => UpdateLastActiveStep(s, userId, sessionId)
    case PruneFamilies => PruneStep(s)
    case Tick(ms) => TickStep(s, ms)
  }

  // ---------- the session check of the JWT strategy ----------

  datatype User = User(isActive: bool, isLocked: bool, lockedUntil: Option<int>, passwordChangedAt: Option<int>)

  /** `iat` is in seconds. */
  datatype JwtPayload = JwtPayload(sub: UserId, jti: SessionId, iat: int)

  datatype AuthError = SubjectNotFound | AccountDisabled | AccountLocked | InvalidatedByPasswordChange | SessionRevoked

  function CurrentRefreshTokenHash(s: State, userId: UserId, sessionId: SessionId): Option<TokenHash> {
    if (userId, sessionId) in s.redis then Some(s.redis[(userId, sessionId)].refreshTokenHash) else None
  }

  function Validate(s: State, user: Option<User>, payload: JwtPayload): Result<SessionId, AuthError> {
    match user
    case None => Err(SubjectNotFound)
    case Some(u) =>
      if !u.isActive then Err(AccountDisabled)
      else if u.isLocked && u.lockedUntil.Some? && u.lockedUntil.value > s.now then Err(AccountLocked)
      else if u.passwordChangedAt.Some? && u.passwordChangedAt.value > payload.iat * MS_PER_SECOND then
        Err(InvalidatedByPasswordChange)
      else
        match CurrentRefreshTokenHash(s, payload.sub, payload.jti)
        case None => Err(SessionRevoked)
        case Some(hash) => if hash == "" then Err(SessionRevoked) else Ok(payload.jti)
  }

  // ---------- runs ----------

  ghost predicate IsRun(s: State, steps: seq<Step>)
    decreases |steps|
  {
    steps == [] || (Enabled(s, steps[0]) && IsRun(Next(s, steps[0]), steps[1..]))
  }

  ghost function Final(s: State, steps: seq<Step>): State
    decreases |steps|
  {
    if steps == [] then s else Final(Next(s, steps[0]), steps[1..])
  }
}
