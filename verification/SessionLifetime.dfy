/** How long a session lasts: in the family table, where its expiry never moves, and in Redis, where it does. */
module SessionLifetime {
  import opened Wrappers
  import opened SessionModel
  import opened SessionProofs

  function LifetimeMs(s: State): int {
    s.refreshTtlSeconds * MS_PER_SECOND
  }

  // ---------- the row: one lifetime, however often it is refreshed ----------

  ghost predicate ExpiresBy(s: State, id: SessionId, deadline: int) {
    Issued(s, id) && (id in s.families ==> s.families[id].expiresAt <= deadline)
  }

  /** Some refresh in the run is accepted for the session at or after a time. */
  ghost predicate RefreshedFrom(s: State, steps: seq<Step>, id: SessionId, from: int)
    decreases |steps|
  {
    steps != []
    && (|| (&& steps[0].Refresh?
            && s.now >= from
            && RefreshResult(s, steps[0].hash).Ok?
            && RefreshResult(s, steps[0].hash).value.sessionId == id)
        || RefreshedFrom(Next(s, steps[0]), steps[1..], id, from))
  }

  lemma StepKeepsExpiry(s: State, step: Step, id: SessionId, deadline: int)
    requires Enabled(s, step) && ExpiresBy(s, id, deadline)
    ensures ExpiresBy(Next(s, step), id, deadline)
  {
    IssuedStays(s, step, id);
  }

  lemma {:induction false} NeverRefreshedFrom(s: State, steps: seq<Step>, id: SessionId, deadline: int)
    requires IsRun(s, steps) && ExpiresBy(s, id, deadline)
    ensures !RefreshedFrom(s, steps, id, deadline)
    decreases |steps|
  {
    if steps == [] {
    } else {
      StepKeepsExpiry(s, steps[0], id, deadline);
      NeverRefreshedFrom(Next(s, steps[0]), steps[1..], id, deadline);
    }
  }

  /** A session is never refreshed once its lifetime since creation is over, however often it was refreshed before. */
  lemma AbsoluteLifetime(s: State, userId: UserId, id: SessionId, hash: TokenHash, steps: seq<Step>)
    requires Enabled(s, Create(userId, id, hash)) && IsRun(Next(s, Create(userId, id, hash)), steps)
    ensures !RefreshedFrom(Next(s, Create(userId, id, hash)), steps, id, s.now + s.refreshTtlSeconds * 1_000)
  {
    var t := Next(s, Create(userId, id, hash));
    assert t.issues[|s.issues|].sessionId == id;
    NeverRefreshedFrom(t, steps, id, Deadline(s));
  }

  lemma RunStep(s: State, steps: seq<Step>)
    requires steps != [] && Enabled(s, steps[0]) && IsRun(Next(s, steps[0]), steps[1..])
    ensures IsRun(s, steps) && Final(s, steps) == Final(Next(s, steps[0]), steps[1..])
  {
  }

  /** The only session of a store, refreshed a millisecond before its row expires. */
  function LastMoment(ttl: nat, hash: TokenHash, now: int, deadline: int, issues: seq<Issue>): State {
    State(now, ttl, map["x" := Family("u", hash, false, ttl * 1_000)], map[("u", "x") := Entry(hash, 0, deadline)], issues)
  }

  lemma CreateOnly(ttl: nat)
    requires ttl >= 1
    ensures Next(Initial(ttl), Create("u", "x", "h")) == LastMoment(ttl, "h", 0, ttl * 1_000, [Issue("h", "x", "u")])
  {
  }

  lemma RefreshLast(s: State, ttl: nat)
    requires ttl >= 1 && s == LastMoment(ttl, "h", ttl * 1_000 - 1, ttl * 1_000, [Issue("h", "x", "u")])
    ensures Enabled(s, Refresh("h", "k"))
    ensures Next(s, Refresh("h", "k"))
         == LastMoment(ttl, "k", s.now, s.now + ttl * 1_000, [Issue("h", "x", "u"), Issue("k", "x", "u")]).(
              redis := map[("u", "x") := Entry("k", s.now, s.now + ttl * 1_000)])
  {
    assert "x" in s.families && s.families["x"].currentTokenHash == "h";
    assert FindByHash(s.families, "h") == Some("x");
    assert RefreshResult(s, "h") == Ok(Refreshed("u", "x"));
  }

  lemma PruneLast(s: State, ttl: nat)
    requires ttl >= 1 && s.families.Keys == {"x"} && s.families["x"].expiresAt == ttl * 1_000
    requires s.now == ttl * 1_000 - 1 && s.redis == map[("u", "x") := Entry("k", s.now, s.now + ttl * 1_000)]
    ensures var t := Next(Next(s, Tick(2)), PruneFamilies);
            && "x" !in t.families
            && Validate(t, Some(User(true, false, None, None)), JwtPayload("u", "x", 0)) == Ok("x")
  {
  }

  /** Its entry can outlive it: refreshed at the last moment, a session still validates after its row has been pruned. */
  lemma EntryOutlivesRow(ttl: nat)
    requires ttl >= 1
    ensures var steps := [Create("u", "x", "h"), Tick(ttl * 1_000 - 1), Refresh("h", "k"), Tick(2), PruneFamilies];
            var s := Final(Initial(ttl), steps);
            && IsRun(Initial(ttl), steps)
            && "x" !in s.families
            && Validate(s, Some(User(true, false, None, None)), JwtPayload("u", "x", 0)) == Ok("x")
  {
    var steps := [Create("u", "x", "h"), Tick(ttl * 1_000 - 1), Refresh("h", "k"), Tick(2), PruneFamilies];
    CreateOnly(ttl);
    var s1 := Next(Initial(ttl), steps[0]);
    var s2 := Next(s1, steps[1]);
    assert s2 == LastMoment(ttl, "h", ttl * 1_000 - 1, ttl * 1_000, [Issue("h", "x", "u")]);
    RefreshLast(s2, ttl);
    var s3 := Next(s2, steps[2]);
    PruneLast(s3, ttl);
    var s4 := Next(s3, steps[3]);
    assert steps[4..][1..] == [] && steps[3..][1..] == steps[4..] && steps[2..][1..] == steps[3..] && steps[1..][1..] == steps[2..];
    assert IsRun(Next(s4, steps[4]), []);
    RunStep(s4, steps[4..]);
    RunStep(s3, steps[3..]);
    RunStep(s2, steps[2..]);
    RunStep(s1, steps[1..]);
    RunStep(Initial(ttl), steps);
  }

  // ---------- the entry outlives the row exactly after a later refresh ----------

  /** An accepted refresh leaves an entry that outlives its row exactly when it comes later than one lifetime before the
      row's expiry. */
  lemma RefreshOutlives(s: State, hash: TokenHash, newHash: TokenHash)
    requires RefreshResult(s, hash).Ok?
    ensures var r := RefreshResult(s, hash).value;
            var key, t := (r.userId, r.sessionId), Next(s, Refresh(hash, newHash));
            && key.1 in t.families
            && (key in t.redis ==>
                  (t.redis[key].deadline > t.families[key.1].expiresAt
                   <==> s.now > s.families[key.1].expiresAt - LifetimeMs(s)))
  {
  }

  ghost predicate AcceptsAfter(s: State, step: Step, id: SessionId, created: int) {
    && step.Refresh?
    && s.now > created
    && RefreshResult(s, step.hash).Ok?
    && RefreshResult(s, step.hash).value.sessionId == id
  }

  /** A session created at a time, and whether it has been refreshed since then. */
  ghost predicate Tracks(s: State, key: Key, created: int, refreshed: bool) {
    && Issued(s, key.1)
    && s.now >= created
    && (refreshed ==> s.now > created)
    && (key.1 in s.families ==>
          && s.families[key.1].userId == key.0
          && s.families[key.1].expiresAt == created + LifetimeMs(s))
    && (key in s.redis && key.1 in s.families ==>
          if refreshed then s.redis[key].deadline > created + LifetimeMs(s)
          else s.redis[key].deadline == created + LifetimeMs(s))
  }

  lemma StepTracks(s: State, step: Step, key: Key, created: int, refreshed: bool)
    requires Enabled(s, step) && !step.UpdateLastActive? && Tracks(s, key, created, refreshed)
    ensures Tracks(Next(s, step), key, created, refreshed || AcceptsAfter(s, step, key.1, created))
  {
    IssuedStays(s, step, key.1);
    if step.Refresh? {
      ReuseBranchIsUnreachable(s, step.hash);
    }
  }

  predicate NoTouch(steps: seq<Step>) {
    forall i :: 0 <= i < |steps| ==> !steps[i].UpdateLastActive?
  }

  lemma {:induction false} RunTracks(s: State, steps: seq<Step>, key: Key, created: int, refreshed: bool)
    requires IsRun(s, steps) && NoTouch(steps) && Tracks(s, key, created, refreshed)
    ensures var t := Final(s, steps);
            key in t.redis && key.1 in t.families ==>
              (t.redis[key].deadline > t.families[key.1].expiresAt
               <==> refreshed || RefreshedFrom(s, steps, key.1, created + 1))
    decreases |steps|
  {
    if steps == [] {
    } else {
      StepTracks(s, steps[0], key, created, refreshed);
      RunTracks(Next(s, steps[0]), steps[1..], key, created, refreshed || AcceptsAfter(s, steps[0], key.1, created));
    }
  }

  /** Over any run without activity updates, a live entry outlives its row exactly when some refresh of the session was
      accepted later than its creation. */
  lemma OutlivesExactly(s: State, userId: UserId, id: SessionId, hash: TokenHash, steps: seq<Step>)
    requires Enabled(s, Create(userId, id, hash)) && IsRun(Next(s, Create(userId, id, hash)), steps) && NoTouch(steps)
    ensures var created := Next(s, Create(userId, id, hash));
            var t := Final(created, steps);
            (userId, id) in t.redis && id in t.families ==>
              (t.redis[(userId, id)].deadline > t.families[id].expiresAt
               <==> RefreshedFrom(created, steps, id, s.now + 1))
  {
    var created := Next(s, Create(userId, id, hash));
    assert created.issues[|s.issues|].sessionId == id;
    assert created.families[id] == Family(userId, hash, false, s.now + LifetimeMs(s));
    RunTracks(created, steps, (userId, id), s.now, false);
  }

  // ---------- two lifetimes are the end of it ----------

  ghost predicate EndsWithinTwo(s: State, key: Key, created: int) {
    && ExpiresBy(s, key.1, created + LifetimeMs(s))
    && (key in s.redis ==> s.now < s.redis[key].deadline < created + 2 * LifetimeMs(s))
  }

  lemma StepEndsWithinTwo(s: State, step: Step, key: Key, created: int)
    requires Enabled(s, step) && !step.UpdateLastActive? && EndsWithinTwo(s, key, created)
    ensures EndsWithinTwo(Next(s, step), key, created)
  {
    StepKeepsExpiry(s, step, key.1, created + LifetimeMs(s));
    if step.Refresh? {
      ReuseBranchIsUnreachable(s, step.hash);
    }
  }

  lemma {:induction false} RunEndsWithinTwo(s: State, steps: seq<Step>, key: Key, created: int)
    requires IsRun(s, steps) && NoTouch(steps) && EndsWithinTwo(s, key, created)
    ensures var t := Final(s, steps); key in t.redis ==> t.now < created + 2 * LifetimeMs(t)
    decreases |steps|
  {
    if steps == [] {
    } else {
      StepEndsWithinTwo(s, steps[0], key, created);
      RunEndsWithinTwo(Next(s, steps[0]), steps[1..], key, created);
    }
  }

  lemma {:induction false} LifetimeIsFixed(s: State, steps: seq<Step>)
    ensures Final(s, steps).refreshTtlSeconds == s.refreshTtlSeconds
    decreases |steps|
  {
    if steps == [] {
    } else {
      LifetimeIsFixed(Next(s, steps[0]), steps[1..]);
    }
  }

  /** Without activity updates no session validates two lifetimes after its creation or later. */
  lemma TwoLifetimes(s: State, userId: UserId, id: SessionId, hash: TokenHash, steps: seq<Step>,
                     user: Option<User>, iat: int)
    requires Enabled(s, Create(userId, id, hash)) && IsRun(Next(s, Create(userId, id, hash)), steps) && NoTouch(steps)
    ensures var t := Final(Next(s, Create(userId, id, hash)), steps);
            t.now >= s.now + 2 * LifetimeMs(s) ==> Validate(t, user, JwtPayload(userId, id, iat)).Err?
  {
    var created := Next(s, Create(userId, id, hash));
    assert created.issues[|s.issues|].sessionId == id;
    RunEndsWithinTwo(created, steps, (userId, id), s.now);
    LifetimeIsFixed(created, steps);
  }

  // ---------- activity updates ----------

  /** Whether an activity update does anything to an entry. */
  predicate IsStale(s: State, key: Key)
    requires key in s.redis
  {
    s.now - s.redis[key].lastActiveAt >= RECENT_ACTIVITY_THRESHOLD_MS
  }

  /** An activity update keeps the deadline of an entry up to rounding exactly if the entry is not stale or has half a
      second left; otherwise it starts a whole new lifetime. */
  lemma TouchKeepsDeadline(s: State, userId: UserId, sessionId: SessionId)
    requires EntryHistory(s) && (userId, sessionId) in s.redis
    ensures var key := (userId, sessionId);
            var before, after := s.redis[key], Next(s, UpdateLastActive(userId, sessionId)).redis;
            && (key in after && -500 <= after[key].deadline - before.deadline <= 500
                <==> !IsStale(s, key) || before.deadline - s.now >= 500)
  {
  }

  /** No activity update of the session finds it in the last half second of its entry. */
  ghost predicate TouchedInTime(s: State, steps: seq<Step>, key: Key)
    decreases |steps|
  {
    steps == []
    || (&& (steps[0] == UpdateLastActive(key.0, key.1) && key in s.redis && IsStale(s, key) ==>
              s.redis[key].deadline - s.now >= 500)
        && TouchedInTime(Next(s, steps[0]), steps[1..], key))
  }

  /** An update gains half a second at most and takes five minutes to earn. */
  ghost predicate Paced(s: State, key: Key, created: int) {
    && ExpiresBy(s, key.1, created + LifetimeMs(s))
    && (key in s.redis ==>
          && s.now < s.redis[key].deadline
          && s.redis[key].lastActiveAt <= s.now
          && 600 * s.redis[key].deadline < 599 * created + 1199 * LifetimeMs(s) + s.redis[key].lastActiveAt)
  }

  lemma TouchPaced(s: State, key: Key, created: int)
    requires Paced(s, key, created) && key in s.redis
    requires IsStale(s, key) ==> s.redis[key].deadline - s.now >= 500
    ensures Paced(Next(s, UpdateLastActive(key.0, key.1)), key, created)
  {
    StepKeepsExpiry(s, UpdateLastActive(key.0, key.1), key.1, created + LifetimeMs(s));
  }

  lemma StepPaced(s: State, step: Step, key: Key, created: int)
    requires Enabled(s, step) && Paced(s, key, created)
    requires step == UpdateLastActive(key.0, key.1) && key in s.redis && IsStale(s, key) ==>
               s.redis[key].deadline - s.now >= 500
    ensures Paced(Next(s, step), key, created)
  {
    StepKeepsExpiry(s, step, key.1, created + LifetimeMs(s));
    if step.Refresh? {
      ReuseBranchIsUnreachable(s, step.hash);
    } else if step == UpdateLastActive(key.0, key.1) && key in s.redis {
      TouchPaced(s, key, created);
    }
  }

  lemma {:induction false} RunPaced(s: State, steps: seq<Step>, key: Key, created: int)
    requires IsRun(s, steps) && TouchedInTime(s, steps, key) && Paced(s, key, created)
    ensures var t := Final(s, steps); key in t.redis ==> 599 * (t.now - created) < 1199 * LifetimeMs(t)
    decreases |steps|
  {
    if steps == [] {
    } else {
      StepPaced(s, steps[0], key, created);
      RunPaced(Next(s, steps[0]), steps[1..], key, created);
    }
  }

  /** With activity updates, none of them in the last half second of the entry, a session validates for less than
      1199/599 lifetimes, a little over two. */
  lemma LifetimeWithTouches(s: State, userId: UserId, id: SessionId, hash: TokenHash, steps: seq<Step>,
                            user: Option<User>, iat: int)
    requires Enabled(s, Create(userId, id, hash)) && IsRun(Next(s, Create(userId, id, hash)), steps)
    requires TouchedInTime(Next(s, Create(userId, id, hash)), steps, (userId, id))
    ensures var t := Final(Next(s, Create(userId, id, hash)), steps);
            599 * (t.now - s.now) >= 1199 * LifetimeMs(s) ==> Validate(t, user, JwtPayload(userId, id, iat)).Err?
  {
    var created := Next(s, Create(userId, id, hash));
    assert created.issues[|s.issues|].sessionId == id;
    RunPaced(created, steps, (userId, id), s.now);
    LifetimeIsFixed(created, steps);
  }

  /** Waiting for the last millisecond of an entry and updating it then gives it a new lifetime. */
  lemma LateTouchRenews(s: State, key: Key)
    requires key in s.redis && s.now < s.redis[key].deadline
    requires s.redis[key].deadline - 1 - s.redis[key].lastActiveAt >= RECENT_ACTIVITY_THRESHOLD_MS
    requires LifetimeMs(s) > 0
    ensures var wait := Tick(s.redis[key].deadline - 1 - s.now);
            var t := Next(Next(s, wait), UpdateLastActive(key.0, key.1));
            && t.now == s.redis[key].deadline - 1
            && t.redis.Keys >= {key}
            && t.redis[key] == Entry(s.redis[key].refreshTokenHash, t.now, t.now + LifetimeMs(s))
  {
  }

  lemma {:induction false} LateTouches(s: State, key: Key, n: nat) returns (steps: seq<Step>)
    requires key in s.redis && s.now < s.redis[key].deadline
    requires s.redis[key].deadline - 1 - s.redis[key].lastActiveAt >= RECENT_ACTIVITY_THRESHOLD_MS
    requires LifetimeMs(s) > RECENT_ACTIVITY_THRESHOLD_MS
    ensures IsRun(s, steps) && key in Final(s, steps).redis && Final(s, steps).now < Final(s, steps).redis[key].deadline
    ensures Final(s, steps).redis[key].deadline >= s.redis[key].deadline + n
    ensures Final(s, steps).redis[key].refreshTokenHash == s.redis[key].refreshTokenHash
    decreases n
  {
    if n == 0 {
      steps := [];
    } else {
      var wait := Tick(s.redis[key].deadline - 1 - s.now);
      var touch := UpdateLastActive(key.0, key.1);
      LateTouchRenews(s, key);
      var rest := LateTouches(Next(Next(s, wait), touch), key, n - 1);
      PrependTwo(s, wait, touch, rest);
      steps := [wait, touch] + rest;
    }
  }

  /** With updates in the last half second there is no bound at all: a session can be kept for as long as one likes. */
  lemma LateTouchesLastForever(s: State, userId: UserId, id: SessionId, hash: TokenHash, n: nat)
    returns (steps: seq<Step>)
    requires Enabled(s, Create(userId, id, hash)) && hash != "" && LifetimeMs(s) > RECENT_ACTIVITY_THRESHOLD_MS
    ensures IsRun(Next(s, Create(userId, id, hash)), steps)
    ensures var t := Final(Next(s, Create(userId, id, hash)), steps);
            t.now >= s.now + n && Validate(t, Some(User(true, false, None, None)), JwtPayload(userId, id, 0)) == Ok(id)
  {
    var created, key := Next(s, Create(userId, id, hash)), (userId, id);
    var touches := LateTouches(created, key, n);
    var last := Final(created, touches);
    var wait := Tick(last.redis[key].deadline - 1 - last.now);
    steps := touches + [wait];
    AppendStep(created, touches, wait);
  }

  lemma {:induction false} AppendStep(s: State, steps: seq<Step>, last: Step)
    requires IsRun(s, steps) && Enabled(Final(s, steps), last)
    ensures IsRun(s, steps + [last]) && Final(s, steps + [last]) == Next(Final(s, steps), last)
    decreases |steps|
  {
    if steps == [] {
      assert steps + [last] == [last] && [last][1..] == [];
      assert IsRun(Next(s, last), []);
    } else {
      assert (steps + [last])[1..] == steps[1..] + [last];
      AppendStep(Next(s, steps[0]), steps[1..], last);
    }
  }

  lemma PrependTwo(s: State, a: Step, b: Step, rest: seq<Step>)
    requires Enabled(s, a) && Enabled(Next(s, a), b) && IsRun(Next(Next(s, a), b), rest)
    ensures IsRun(s, [a, b] + rest) && Final(s, [a, b] + rest) == Final(Next(Next(s, a), b), rest)
  {
    var steps := [a, b] + rest;
    assert steps[1..] == [b] + rest && steps[1..][1..] == rest;
    RunStep(Next(s, a), steps[1..]);
    RunStep(s, steps);
  }
}
