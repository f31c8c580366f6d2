# A verified model of the AllServices backend

This project models the parts of the AllServices backend that are state machines rather than wiring, and proves what
they keep over every run: the hash-chained audit log and its queue, refresh-token sessions held in Postgres and Redis,
the webhook circuit breaker and retry queue, the Redis throttler, the login lockout, the job application pipeline, the
UUIDv7 generator and the at-rest encryption format. `dafny verify dfyconfig.toml` checks all of it.

Tables, Redis keys and job queues are plain state (`map` and `seq`). Code that updates them is a class whose methods
are proved equal to a specification function on that state, and what each operation answers and changes is also stated
outright, without that function; runs fold the specification functions over a list of steps, and the theorems are about
all runs: what never happens, and what always can. Text is a sequence of UTF-16 code units, as in JavaScript. Clocks, random
bytes, hashes, HTTP outcomes, write failures and the replies of Redis to a scan are parameters.

| file | what it models |
|---|---|
| `Sequences`, `CodeUnits`, `Hex`, `Utf8`, `Wrappers` | sequences, strings and their sort order, hexadecimal, UTF-8, optional values and results |
| `JsonPrinter`, `JsonDecoding`, `JsonBars`, `JsonStorage` | the canonical printer of audit details, a parser that undoes it, where bars can stand in its text, the JSON column |
| `AuditChain`, `AuditEvidence`, `AuditBytes`, `AuditWriters`, `AuditPipeline` | row hashes and whole chains, what the last hash proves and where it proves nothing, the same over bytes, interleaved writers, the queue with dead letters |
| `SessionModel`, `SessionProofs`, `SessionFrame`, `SessionLifetime`, `SessionService` | refresh-token families and session entries: steps, what ends a session, what leaves it alone, how long it lasts, the service |
| `Breaker`, `BreakerInterleaved`, `BreakerSerial` | writes to an endpoint row, any interleaving of workers, one delivery at a time |
| `RetryBackoff`, `WebhookDelivery` | the retry delay, the webhook queue |
| `Throttler`, `ThrottlerClients`, `LoginLockout` | timed admission, many clients at once, the login |
| `Applications` | the application pipeline |
| `UuidV7`, `AtRestCrypto` | encodings |

## Where the code and its design document disagree

- `plan.md:2055-2061` promises that a replayed refresh token revokes the family and all sessions. The reuse branch
  (`src/modules/auth/session.service.ts:123-131`, `258-266`) repeats a lookup that has just failed with one more
  condition, so on one snapshot it cannot be reached: `SessionProofs.ReuseBranchIsUnreachable`. What does happen is
  `SessionProofs.ReplayChangesNothing`.
- `plan.md:1267` says that tampering with any entry invalidates the later hashes. `id` and `userAgent` are not hashed and
  an absent user or resource hashes like an empty one (`AuditChain.UnhashedChangesVerify`). Beyond that it holds exactly
  for rows that are safe: no hashed field but the detail holds a `|`, and nothing that reads as a whole detail, neither
  nothing at all nor the canonical text of an object, stands between two bars of the detail's own text.
  `AuditEvidence.TamperEvidence` protects logs of safe rows against any readable log whatever;
  `AuditEvidence.ForgeableExactly` shows that a log with any other row can be replaced without a collision. Details such
  as `{"email":"a||b@c.de"}` are unsafe, and a registration logs its e-mail address in this way
  (`src/modules/auth/auth.service.ts:127`): the detail can be erased and every hash still verifies (`AuditEvidence.DoubleBarErasesDetail`).
- As inputs of `computeHash`, fields that differ only in lone surrogates are hashed over the same bytes
  (`AuditBytes.SameBytesExactly`). PostgreSQL stores no lone surrogates in text columns, so no two stored rows differ so.
- A detail with an undefined object member is hashed with `null` there and stored without it, so the stored row does
  not re-hash to its own hash. `JsonStorage.RehashAfterStorage` says exactly which details survive.
- A refresh renews the session entry in Redis but never moves the row's expiry. An entry outlives its row exactly if the
  session was refreshed later than its creation (`SessionLifetime.OutlivesExactly`), and it is gone two lifetimes after
  creation (`SessionLifetime.TwoLifetimes`). `updateLastActive`, which no code of the repository calls, adds a little
  (`SessionLifetime.LifetimeWithTouches`), and without any bound if called in the last half second of an entry
  (`SessionLifetime.LateTouchesLastForever`).
- Chain linearity needs strictly increasing `createdAt`, since `findFirst` decides nothing on ties:
  `AuditWriters.ReadReturnsTip`, `AuditWriters.TiesForkTheChain`.
- An open circuit below the threshold and a DISABLED endpoint that comes back as PAUSED are possible when workers
  overlap: `BreakerInterleaved.OpenBelowThreshold`, `BreakerInterleaved.DisabledOverwritten`; the lemmas
  `OpeningBelowThreshold` and `LeavingDisabled` say exactly by which steps. They can also leave an endpoint PAUSED with a
  CLOSED circuit, which fan-out passes over and no probe ever matches: `BreakerInterleaved.DeadEndIsReached`,
  `BreakerInterleaved.DeadEndStays`.
- Without a block duration the throttler limits nothing: `Throttler.WindowBoundNeedsBlocking`.

## Model

| member | source | states |
|---|---|---|
| CodeUnits.SortSorted | src/audit/audit.service.ts:98 | distinct object keys come out of the sort strictly increasing by code units |
| JsonDecoding.StringRoundTrip | src/audit/audit.service.ts:91-93 | the body of a printed string parses back to its code units, whatever follows: quotes, control characters, pairs and lone surrogates |
| JsonDecoding.RoundTrip | src/audit/audit.service.ts:87-101 | a parser undoes the canonical printer on values of any depth |
| JsonDecoding.TextDeterminesMeaning | src/audit/audit.service.ts:87-101 | two values print the same text if and only if they are the same JSON data: objects as maps, null and undefined identified |
| JsonDecoding.KeyOrderIsIrrelevant | src/audit/audit.service.ts:97-100 | any permutation of an object's members prints the same text |
| JsonStorage.StoredMeaning | src/audit/audit.service.ts:56 | the JSON column keeps a detail's meaning if and only if no object member in it, at any depth, is undefined |
| JsonStorage.RehashAfterStorage | src/audit/audit.service.ts:50-64 | a detail read back in any key order prints the hashed text if and only if the logged one had no undefined member |
| JsonStorage.UndefinedMemberBreaksRehash | src/audit/audit.service.ts:88-89 | a concrete detail whose text changes in storage |
| JsonStorage.StoredIsSettled | src/queue/processors/audit.processor.ts:107 | what has been serialised once is serialised unchanged from then on |
| JsonBars.CanonicalBalanced | src/audit/audit.service.ts:87-101 | in canonical text of any value every bar stands inside a string literal, and the quotes match |
| AuditChain.SeparablePayloads | src/audit/audit.service.ts:72-85 | between two entries that keep bars out of all fields but the detail, equal payloads have equal fields |
| AuditEvidence.PayloadDeterminesFields | src/audit/audit.service.ts:72-85 | a safe entry is told by its payload among all readable entries, bars in their fields included |
| AuditEvidence.PayloadIdentifiesExactly | src/audit/audit.service.ts:72-85 | no other readable entry shares the payload of an entry if and only if the entry is safe |
| AuditEvidence.SlotForges | src/audit/audit.service.ts:72-83 | every detail with a slot shares its payload with a row of another resource, detail and address hash |
| AuditEvidence.DoubleBarErasesDetail | src/audit/audit.service.ts:77 | a concrete detail that can be erased from a storable row without changing what is hashed |
| AuditEvidence.BarForges | src/audit/audit.service.ts:18 | every entry with a bar in another hashed field shares its payload with an entry that differs in a hashed field |
| AuditChain.PayloadIsNotGenesis | src/audit/audit.service.ts:17-18 | no row hashes the genesis input |
| AuditWriters.GenesisText | src/audit/audit.service.ts:17 | the genesis input, letter by letter |
| AuditChain.SameTipSamePayloads | src/audit/audit.service.ts:37-85 | two verified logs of any content with the same last hash have hashed the same texts, or two of these collide |
| AuditEvidence.TamperEvidence | src/audit/audit.service.ts:37-85 | any verified readable log with the last hash of a safe log agrees with it in length and on every hashed field of every row, or two hashed texts collide |
| AuditEvidence.SeparableLogsAgree | src/audit/audit.service.ts:37-85 | two verified logs that both keep bars out of all fields but the detail agree likewise, slots or not |
| AuditEvidence.ForgeableExactly | src/audit/audit.service.ts:37-85 | a verified log can be replaced by one that hashes the same texts and says something else if and only if one of its rows is unsafe |
| AuditChain.UnhashedChangesVerify | src/audit/audit.service.ts:72-83 | conversely, any change that keeps the hashed fields verifies and ends in the same hash |
| AuditBytes.CanonicalWellFormed | src/audit/audit.service.ts:84-101 | canonical text is always well-formed UTF-16, so UTF-8 loses nothing of it |
| AuditBytes.SameBytesExactly | src/audit/audit.service.ts:84 | two entries are hashed over the same bytes if and only if their payloads are equal once lone surrogates are replaced in every field |
| AuditBytes.ScrubbedLogVerifies | src/audit/audit.service.ts:72-85 | replacing the lone surrogates of all fields of a log keeps every hash |
| AuditBytes.TamperEvidenceOverBytes | src/audit/audit.service.ts:72-85 | any verified readable log with the last hash of a safe log agrees with it up to lone surrogates, or SHA-256 has collided on two byte strings |
| AuditWriters.AuditService.Log | src/audit/audit.service.ts:40-66 | appends one row with the given entry, id and time and the hash of its payload, linked to a row with the latest creation time; a verified log with increasing times stays one if the clock has moved on |
| AuditWriters.ReadReturnsTip | src/audit/audit.service.ts:43-46 | the read is sure to return the last row if and only if that row is strictly the latest |
| AuditWriters.InterleavedLogIsOneChain | src/audit/audit.service.ts:41-65 | under every interleaving of lock, read, insert, commit and abort of any number of writers with increasing stamps, the rows ordered by time form one chain from the genesis hash |
| AuditWriters.StepKeepsLinear | src/audit/audit.service.ts:42-66 | each step of each writer keeps the chain linear and only the lock holder inside a transaction |
| AuditWriters.TiesForkTheChain | src/audit/audit.service.ts:43-47 | a run with equal stamps whose log does not verify |
| AuditWriters.TableIsTheCommits | src/audit/audit.service.ts:41-65 | after any interleaving the table holds exactly what the committed transactions inserted, in commit order |
| AuditWriters.NoDeadlock | src/audit/audit.service.ts:41-42 | the lock is free for any writer, or its holder can go on or give up and free it |
| AuditPipeline.CastVerdicts | src/queue/processors/audit.processor.ts:74-92 | exactly the payloads with all four required fields pass, unchanged, and the first missing one is named |
| AuditPipeline.AuditQueue.RunJob | src/queue/processors/audit.processor.ts:51-117 | one attempt, outright: the entry is committed, or the job is requeued with one more attempt made, or after the last one dead-lettered with its attempts or dropped; and when it throws |
| AuditPipeline.AuditQueue.ReplayAuditDeadLetter | src/queue/processors/maintenance.processor.ts:212-234 | pops the oldest hundred, queues exactly their readable records in order and counts them |
| AuditPipeline.EntriesAreConserved | src/queue/processors/audit.processor.ts:51-117 | after any run queued, committed and dead-lettered entries add up to the accepted ones if and only if no step dropped one; nothing is committed more often than accepted |
| AuditPipeline.ReliablePipeline | src/queue/processors/maintenance.processor.ts:212-234 | with valid entries and pushes that succeed nothing is dropped, and a replay gives the oldest records, a hundred if there are so many, three new attempts each in FIFO order |
| AuditPipeline.AttemptsAreBounded | src/queue/processors/audit.processor.ts:57-63 | without new jobs no more attempts are made than the jobs have left |
| AuditPipeline.FailuresEndInDeadLetter | src/queue/processors/audit.processor.ts:57-70 | an entry whose writes keep failing is given all its attempts and is then in the dead-letter list |
| SessionService.SessionService.SetJson | src/redis/redis.service.ts:81-84 | the entry lives until its deadline and no other key changes |
| SessionService.SessionService.Scan | src/redis/redis.service.ts:56-71 | every live session key of the user is found, none of another user |
| SessionService.SessionService.Create | src/modules/auth/session.service.ts:81-116 | family row and session entry start with the same hash and end at the same time |
| SessionService.SessionService.FindFamily | src/modules/auth/session.service.ts:120-122 | whichever row the database returns, it is the only one with that current hash |
| SessionService.SessionService.FindFamilyByReuse | src/modules/auth/session.service.ts:258-266 | likewise among revoked rows |
| SessionService.SessionService.RotateFamily | src/modules/auth/session.service.ts:149-165 | the new hash reaches the row, and the session entry if it still exists; the row's expiry does not move |
| SessionService.SessionService.Refresh | src/modules/auth/session.service.ts:118-167 | result and new state in every branch, the reuse branch being dead; the stores stay consistent |
| SessionService.SessionService.OnReuse | src/modules/auth/session.service.ts:268-285 | what a detected reuse would do |
| SessionService.SessionService.DeleteRedisSessions | src/modules/auth/session.service.ts:287-293 | the loop deletes exactly the user's entries |
| SessionService.SessionService.Revoke | src/modules/auth/session.service.ts:169-176 | the one entry goes, and the row is revoked only if it is the user's; every other entry, row and verdict stays |
| SessionService.SessionService.RevokeAll | src/modules/auth/session.service.ts:178-185 | no entry of the user is left and every row of the user is revoked; every entry, row and verdict of other users stays |
| SessionService.SessionService.RevokeAllExcept | src/modules/auth/session.service.ts:187-205 | the loop deletes every entry of the user but the kept one, and the rows follow; the kept session and other users keep entries, rows and verdicts |
| SessionService.SessionService.UpdateLastActive | src/modules/auth/session.service.ts:228-245 | only a stale entry is touched, its lifetime taken over in whole seconds |
| SessionService.SessionService.PruneExpiredRefreshFamilies | src/queue/processors/maintenance.processor.ts:201-210 | exactly the expired rows go, and how many |
| SessionProofs.StoresAgreeInEveryRun | src/modules/auth/session.service.ts:81-245 | in every reachable state each live session entry whose family row exists has the row's user and current hash, and the row is unrevoked |
| SessionProofs.ReuseBranchIsUnreachable | src/modules/auth/session.service.ts:123-131 | no state makes refresh report token reuse |
| SessionProofs.NoResurrection | src/modules/auth/strategies/jwt.strategy.ts:81-90 | once a session entry is gone, revoked or expired, no later request with its id ever validates |
| SessionProofs.RevocationIsFinal | src/modules/auth/session.service.ts:169-205 | a session ended by any of the revocations is never refreshed and never validates again |
| SessionProofs.RevocationIsNeverCleared | src/modules/auth/session.service.ts:169-205 | no step clears `isRevoked` |
| SessionProofs.AcceptedIsLastIssued | src/modules/auth/session.service.ts:118-167 | a token is accepted for a family if and only if it is the last one issued for it and the family is unrevoked and unexpired |
| SessionProofs.ReplayChangesNothing | src/modules/auth/session.service.ts:119-136 | a spent token is refused as invalid and changes no state |
| SessionProofs.SingleUse | src/modules/auth/session.service.ts:118-167 | over any run a token is accepted at most once |
| SessionFrame.ValidatesExactly | src/modules/auth/strategies/jwt.strategy.ts:55-99 | a request validates if and only if the user is there, active, not locked, with no later password change, and the session has a live entry |
| SessionFrame.RefreshVerdicts | src/modules/auth/session.service.ts:118-148 | invalid, revoked, expired and accepted, each exactly under its own condition on the rows |
| SessionFrame.RefreshEffect | src/modules/auth/session.service.ts:149-165 | an accepted refresh changes the hash of one row and one live entry, and nothing else |
| SessionFrame.SessionsAreIndependent | src/modules/auth/session.service.ts:81-245 | over any run a session that no step concerns keeps its row and its entry |
| SessionFrame.NewSessionWorks | src/modules/auth/session.service.ts:81-116 | while it is left alone a new session validates, and its token is accepted until it expires |
| SessionFrame.RefreshedSessionWorks | src/modules/auth/session.service.ts:118-167 | after an accepted refresh the new token is accepted at once and requests validate as before |
| SessionLifetime.AbsoluteLifetime | src/modules/auth/session.service.ts:143-155 | however often it is refreshed, a session is never refreshed once the lifetime counted from its creation is over |
| SessionLifetime.EntryOutlivesRow | src/modules/auth/session.service.ts:152-164 | a run after which a session validates although its family row has expired and been pruned |
| SessionLifetime.RefreshOutlives | src/modules/auth/session.service.ts:152-164 | an accepted refresh leaves an entry that outlives its row if and only if it comes later than one lifetime before the row expires |
| SessionLifetime.OutlivesExactly | src/modules/auth/session.service.ts:81-167 | over any run without activity updates a live entry outlives its row if and only if a refresh was accepted later than its creation |
| SessionLifetime.TwoLifetimes | src/modules/auth/strategies/jwt.strategy.ts:81-90 | without activity updates no session validates two lifetimes after its creation or later |
| SessionLifetime.TouchKeepsDeadline | src/modules/auth/session.service.ts:242-244 | an activity update keeps the deadline up to rounding if and only if the entry is not stale or has half a second left |
| SessionLifetime.LifetimeWithTouches | src/modules/auth/session.service.ts:228-245 | with activity updates, none in the last half second of the entry, a session validates for less than 1199/599 lifetimes |
| SessionLifetime.LateTouchesLastForever | src/modules/auth/session.service.ts:242-244 | with updates in the last half second a session can be kept for any length of time |
| Breaker.WebhookEndpoints.CreateEndpoint | src/modules/webhook/webhook.service.ts:54-76 | a new row is ACTIVE and CLOSED with no failures; all rows stay sound: CLOSED if and only if no opening time, and then below the threshold |
| Breaker.WebhookEndpoints.UpdateStatus | src/modules/webhook/webhook.service.ts:78-102 | an edit of the status touches no circuit column, so all rows stay sound |
| Breaker.WebhookEndpoints.RecordSuccess | src/modules/webhook/webhook-circuit-breaker.service.ts:40-50 | the row after a success; all rows stay sound |
| Breaker.WebhookEndpoints.RecordFailure | src/modules/webhook/webhook-circuit-breaker.service.ts:52-77 | the row after both writes with nothing in between; all rows stay sound |
| Breaker.WebhookEndpoints.RecordHalfOpenFailure | src/modules/webhook/webhook-circuit-breaker.service.ts:79-90 | the row after a failed probe; the status stays, and all rows stay sound |
| Breaker.WebhookEndpoints.ProbeOpenCircuits | src/modules/webhook/webhook-circuit-breaker.service.ts:92-110 | exactly the matching rows change, their number is returned, no row matches afterwards, and all rows stay sound |
| Breaker.WebhookEndpoints.RecordOutcome | src/modules/webhook/webhook-delivery.service.ts:98-102 | which write follows an attempt depends on the snapshot, its effect on the row as it is now; rows stay sound whatever the snapshot |
| BreakerInterleaved.InterleavedBreaker | src/modules/webhook/webhook-circuit-breaker.service.ts:40-110 | under every interleaving of stale workers, probes and edits: CLOSED if and only if there is no opening time, and CLOSED at the threshold means a worker stands between the two writes of `recordFailure` |
| BreakerInterleaved.StepKeepsInvariant | src/modules/webhook/webhook-delivery.service.ts:152-159 | every single write keeps that invariant |
| BreakerInterleaved.LeavingDisabled | src/modules/webhook/webhook-circuit-breaker.service.ts:65-72 | DISABLED is left exactly by an edit or by a late second write |
| BreakerInterleaved.OpeningBelowThreshold | src/modules/webhook/webhook-circuit-breaker.service.ts:61-90 | exactly which steps open a circuit below the threshold |
| BreakerInterleaved.OpenBelowThreshold | src/modules/webhook/webhook-circuit-breaker.service.ts:52-77 | a run of two workers that ends OPEN with no failures counted |
| BreakerInterleaved.DisabledOverwritten | src/modules/webhook/webhook-circuit-breaker.service.ts:65-72 | a run that turns DISABLED into PAUSED |
| BreakerInterleaved.DisabledStays | src/queue/processors/webhook.processor.ts:73-78 | from DISABLED with no write under way, every run without an edit leaves the endpoint as it is |
| BreakerInterleaved.EnteringDeadEnd | src/modules/webhook/webhook-circuit-breaker.service.ts:40-50 | exactly which steps make an endpoint PAUSED with a CLOSED circuit |
| BreakerInterleaved.DeadEndIsReached | src/modules/webhook/webhook-circuit-breaker.service.ts:40-77 | two workers make it so without any edit |
| BreakerInterleaved.DeadEndStays | src/modules/webhook/webhook.service.ts:176-186 | from there, with no write under way, no run without an edit or a queued job changes the endpoint, and neither fan-out nor probe ever takes it |
| BreakerSerial.SerialBreakerRefinesHistory | src/modules/webhook/webhook-circuit-breaker.service.ts:29-110 | with deliveries one at a time every column is a function of the history of outcomes: CLOSED if and only if the trailing failures are fewer than the threshold, and the count is their number |
| BreakerSerial.OpenCircuitIsLeftAlone | src/queue/processors/webhook.processor.ts:73-93 | after an opening no attempt is made until later than the reset interval |
| BreakerSerial.HalfOpenAdmitsOneAttempt | src/queue/processors/webhook.processor.ts:80-93 | HALF_OPEN admits exactly one attempt, which closes the circuit or opens it again |
| BreakerSerial.DisabledIsSticky | src/queue/processors/webhook.processor.ts:73-78 | without an edit a DISABLED endpoint stays so and is never tried |
| BreakerSerial.SerialPausedMeansOpen | src/modules/webhook/webhook-circuit-breaker.service.ts:65-72 | PAUSED means OPEN unless an admin has paused the endpoint |
| RetryBackoff.DelayNeverDecreases | src/modules/webhook/webhook-delivery.service.ts:145-150 | whatever the jitters, a later attempt never waits less |
| RetryBackoff.DelayIsNearest | src/modules/webhook/webhook-delivery.service.ts:145-150 | the delay is the whole number nearest to the capped sum |
| RetryBackoff.DelayBounds | src/modules/webhook/webhook-delivery.service.ts:145-150 | the rounded delay lies between min(base, max) and max |
| RetryBackoff.TotalWaitBounds | src/modules/webhook/webhook-delivery.service.ts:145-150 | closed bounds on the total wait of a chain of any length |
| WebhookDelivery.WebhookQueue.DispatchEvent | src/modules/webhook/webhook-events.listener.ts:96-135 | one event and one first job for each endpoint that receives the event, in order |
| WebhookDelivery.WebhookQueue.ProcessJob | src/queue/processors/webhook.processor.ts:62-131 | outright: a failed attempt below the limit leaves exactly one job with the next attempt for the same event and endpoint, no other branch adds any; and the row of every branch |
| WebhookDelivery.FanOutIsExact | src/modules/webhook/webhook.service.ts:176-186 | fan-out queues one job for each subscription to an ACTIVE endpoint whose circuit is not OPEN, in order, and none for any other |
| WebhookDelivery.FirstJobsAreNew | src/modules/webhook/webhook-events.listener.ts:106-126 | fan-out jobs carry attempt 1 and an event of their own |
| WebhookDelivery.ProcessingLowersBudget | src/queue/processors/webhook.processor.ts:97-112 | every processed job lowers the sum of max(1, maxRetries − attempt + 1) over the queue |
| WebhookDelivery.QueueDrains | src/queue/processors/webhook.processor.ts:62-118 | with no new events no more jobs are processed than that sum |
| WebhookDelivery.WebhookQueue.PruneOldDeliveries | src/modules/webhook/webhook.service.ts:259-268 | exactly the old rows go, and how many |
| WebhookDelivery.DeliveriesFormChains | src/queue/processors/webhook.processor.ts:62-118 | in every reachable state the rows of an event are the last ones of attempts 1 to k, k at most max(1, maxRetries), all of them without pruning by age, and all but the last FAILED |
| WebhookDelivery.NoEventIsGivenUp | src/queue/processors/webhook.processor.ts:97-112 | in any run whose jobs find their endpoints there and not DISABLED, every event has a job queued, or ended in SUCCESS or CIRCUIT_OPEN, or was tried max(1, maxRetries) times |
| Throttler.RedisThrottlerStorage.Increment | src/common/throttler/redis-throttler.storage.ts:28-69 | record and stored keys in every branch; the counter of every separate client stays |
| Throttler.SharedKeysExactly | src/common/throttler/redis-throttler.storage.ts:35-36 | two clients share no stored key if and only if their names differ by more than the block suffix |
| ThrottlerClients.AnswerIsExact | src/common/throttler/redis-throttler.storage.ts:37-68 | one answer outright: what is counted, when it is refused, and every time reported rounded up |
| ThrottlerClients.ClientsAreIndependent | src/common/throttler/redis-throttler.storage.ts:28-69 | however the calls of separate clients interleave, each gets the answers to its own calls alone |
| ThrottlerClients.EachClientHasItsOwnRun | src/common/throttler/redis-throttler.storage.ts:28-69 | in a fresh store each client is let through and refused as in a timed run of its own, so that the bounds hold for each |
| ThrottlerClients.ModestClientsAreNeverRefused | src/common/throttler/redis-throttler.storage.ts:48-54 | a client that never asks more than `limit` times within one window's length is never refused |
| Throttler.RedisThrottlerStorage.PTtl | src/common/throttler/redis-throttler.storage.ts:37 | positive exactly while the key lives |
| Throttler.AdmissionBounds | src/common/throttler/redis-throttler.storage.ts:28-69 | over any timed run each hit window lets at most `limit` requests through and any interval of its length at most twice as many |
| Throttler.SilenceRestoresAccess | src/common/throttler/redis-throttler.storage.ts:28-69 | after a silence of the longer of window and block a request is let through |
| Throttler.BlockLasts | src/common/throttler/redis-throttler.storage.ts:37-62 | a refusal for n seconds holds for n − 1 seconds, and after n seconds a request is refused again if and only if the hit window still runs (or the limit is zero) |
| Throttler.WindowBoundNeedsBlocking | src/common/throttler/redis-throttler.storage.ts:54 | the bound holds for all runs if and only if there is a block duration |
| LoginLockout.UserAccounts.RecordLoginSuccess | src/modules/user/user.service.ts:349-365 | counter and lock are cleared, or the user is not found |
| LoginLockout.UserAccounts.IncrementFailedLoginAttempts | src/modules/user/user.service.ts:367-378 | the new count is stored and returned, or the user is not found |
| LoginLockout.UserAccounts.Lock | src/modules/user/user.service.ts:380-416 | the lock is set unless the user is missing or belongs to another tenant |
| LoginLockout.UserAccounts.Unlock | src/modules/user/user.service.ts:418-447 | lock and counter are cleared under the same condition |
| LoginLockout.UserAccounts.HandleLoginFailure | src/modules/auth/auth.service.ts:427-445 | the fifth failure and each after it sets a lock of fifteen minutes |
| LoginLockout.UserAccounts.LogIn | src/modules/auth/auth.service.ts:133-171 | logged in if and only if not locked, active, with the right password and, with MFA, a valid code; then counter and lock are cleared, and refusals other than a wrong password change nothing |
| LoginLockout.LoginVerdicts | src/modules/auth/auth.service.ts:143-164 | each of the six outcomes exactly under its own condition |
| LoginLockout.LoginEffect | src/modules/auth/auth.service.ts:144-165 | the row after each outcome, outright; the counter returns to zero if and only if the login succeeds |
| LoginLockout.WrongTimesAreSpaced | src/modules/auth/auth.service.ts:411-434 | wrong passwords are verified in order, never during a lock, and a whole lock apart once the counter has reached five |
| LoginLockout.LockoutBound | src/modules/auth/auth.service.ts:133-151 | n wrong passwords without success or unlock take at least 15·(n − 5) minutes |
| LoginLockout.LockoutBoundIsReached | src/modules/auth/auth.service.ts:427-434 | for every n some run takes exactly that long |
| Applications.ApplicationService.SubmitApplication | src/modules/careers/application.service.ts:75-209 | result and new state in every branch, errors in the order of the checks |
| Applications.SubmitVerdicts | src/modules/careers/application.service.ts:80-126 | each answer to a submission exactly under its own condition |
| Applications.SubmitEffect | src/modules/careers/application.service.ts:131-189 | an accepted submission turns the draft, or a new application if there is none, into a submitted one with its history row; any other changes nothing |
| Applications.TransitionsExactly | src/modules/careers/application.service.ts:46-54 | the table outright: one stage along the pipeline, or out of it from anywhere between DRAFT and the end |
| Applications.ChangeVerdicts | src/modules/careers/application.service.ts:308-344 | each answer to a status change exactly under its own condition |
| Applications.ChangeEffect | src/modules/careers/application.service.ts:325-342 | an allowed change sets the status and adds the row from the old to the new one; any other does nothing |
| Applications.WithdrawVerdicts | src/modules/careers/application.service.ts:387-420 | answers and effect of a withdrawal, outright |
| Applications.ApplicationService.ChangeStatusOf | src/modules/careers/application.service.ts:302-360 | status and history change together or not at all |
| Applications.ApplicationService.WithdrawApplication | src/modules/careers/application.service.ts:387-424 | likewise for withdrawal, with its own two refusals |
| Applications.ApplicationService.BulkChangeStatus | src/modules/careers/application.service.ts:362-385 | the loop is the fold of single changes over the list |
| Applications.ApplicationService.PruneDraftApplications | src/modules/careers/application.service.ts:525-534 | exactly the old drafts go, with their history, and how many |
| Applications.HistoryIsAPath | src/modules/careers/application.service.ts:46-189 | in every reachable state a history joins up from DRAFT to the current status in at most seven rows, and that of a HIRED application is the seven-step pipeline |
| Applications.PathIsPipeline | src/modules/careers/application.service.ts:46-54 | the only path to a status other than REJECTED and WITHDRAWN is the pipeline up to it |
| Applications.EveryStageIsReached | src/modules/careers/application.service.ts:46-54 | a submission and one status change for each further stage reach every stage, HIRED included, with that history |
| Applications.TerminalIsAbsorbing | src/modules/careers/application.service.ts:310-315 | whatever runs afterwards, a terminal application and its history stay as they are |
| Applications.BulkChangeIsExact | src/modules/careers/application.service.ts:362-385 | on any list, duplicates included: the results split the list in order, an id succeeds if and only if it is listed and may move, never twice, exactly the succeeded applications changed, by one history row each, and every failure names its cause |
| UuidV7.GenerateId | src/common/utils/id.util.ts:10-22 | stamping two bytes of the buffer in place gives the id of its time and random bytes |
| UuidV7.GeneratedIdsAreAccepted | src/common/pipes/parse-uuid.pipe.ts:12-25 | the pipe accepts every generated id, for any time and random bytes, and it is version 7 |
| UuidV7.PipeAcceptsExactly | src/common/pipes/parse-uuid.pipe.ts:12-25 | the pipe returns its value if and only if that is 32 digits of either case grouped by dashes with version 4 or 7 and the variant of RFC 9562 |
| UuidV7.TimeReadsBack | src/common/utils/id.util.ts:11-15 | the time reads back from an id if and only if it fits in 48 bits |
| UuidV7.RandomReadsBack | src/common/utils/id.util.ts:13-20 | so do the random bytes, but for the six stamped bits |
| UuidV7.IdsSortByTime | src/common/utils/id.util.ts:10-22 | ids of different times of the 48-bit range sort by time as strings |
| UuidV7.IdsSortByCarriedTime | src/common/utils/id.util.ts:10-22 | ids of any two times, however large, sort by the first twelve digits of these |
| UuidV7.OrderEndsWithTheRange | src/common/utils/id.util.ts:12 | past the range a later id sorts before an earlier one if and only if its first twelve digits write a smaller number |
| Utf8.DecodeUndoesEncode | src/crypto/crypto.service.ts:38 | decoding an encoded string replaces its lone surrogates and nothing else |
| Utf8.Decode | src/crypto/crypto.service.ts:70 | any bytes decode to well-formed UTF-16 |
| AtRestCrypto.WireParts | src/crypto/crypto.service.ts:42-54 | the joined fields split back to themselves, and to too many parts if the version tag holds a colon |
| AtRestCrypto.EncryptVerdicts | src/crypto/crypto.service.ts:33-36 | encryption succeeds if and only if the active key is loaded and has 32 bytes |
| AtRestCrypto.MalformedExactly | src/crypto/crypto.service.ts:51-54 | a text is malformed if and only if it does not hold three colons |
| AtRestCrypto.WireIsRead | src/crypto/crypto.service.ts:55-77 | key, nonce, ciphertext, tag and additional data reach the cipher from their own fields, and any failure past the version is a tag mismatch |
| AtRestCrypto.AadIsBound | src/crypto/crypto.service.ts:40-69 | with a cipher that binds additional data a field is read with exactly those it was written with, none and empty alike |
| AtRestCrypto.DecryptUndoesEncrypt | src/crypto/crypto.service.ts:32-77 | decryption gives the plaintext back if and only if it has no lone surrogate and the version tag no colon, whatever the other keys and the active version are by then |
| AtRestCrypto.RotationKeepsPlaintext | src/crypto/crypto.service.ts:79-82 | rotating any readable field, wherever it came from, keeps its plaintext, tags it with the active version and leaves it readable with that key alone; it fails exactly when reading fails |

## Left out

- AuditWriters.AuditService.Log: which of several rows with equal latest times is read is left open, as it is in the database.
- AuditPipeline.AuditQueue.Add: a step of the environment: no code of the repository queues a fresh audit entry, every caller writes through `AuditService.log` directly, and only the replay adds jobs.
- AuditPipeline.AuditQueue.RunJob: entries enter the model already serialised to JSON; queue and dead-letter list then keep them as they are (`JsonStorage.StoredIsSettled`).
- JsonStorage.StoredMeaning: says nothing of details that the column refuses, with U+0000 or lone surrogates in a string; such an insert fails and no row exists.
- AuditPipeline.EntriesAreConserved: a transaction either commits and reports it or does neither; a worker that dies between a commit and its acknowledgement, or between popping a dead letter and queueing it, is not modelled.
- SessionService.SessionService.Refresh: each method is one step on one snapshot; two requests between each other's reads and writes, and a replica that lags behind, are not modelled.
- SessionProofs.SingleUse: token hashes and session ids are assumed never to repeat; SHA-256 itself is a parameter.
- SessionProofs.StoresAgreeInEveryRun: one region; `revokeAll` in one region leaves the Redis entries of another.
- AuditEvidence.BarForges: the forged entry is an input of `computeHash`; whether the table could hold it, with its uuid and length limits, is not considered.
- WebhookDelivery.WebhookQueue.ProcessJob: a database error in the middle of a job, and the manual retry of a delivery, are not modelled.
- RetryBackoff.DelayBounds: doubles are modelled as reals; the values stay far below the point where integers lose precision.
- Throttler.AdmissionBounds: the commands of one `increment` run at one instant without another request between them.
- LoginLockout.LockoutBound: one login at a time, and no admin lock, whose missing end date bars nobody.
- Utf8.Decode: a byte order mark is an ordinary character, as it is for `Buffer`.
- AtRestCrypto.DecryptUndoesEncrypt: nothing is said about forged or altered ciphertexts; AES-GCM is an abstract pair in which opening undoes sealing.
- Details with dates, functions, symbols or bigints, and the text of numbers: a finite number stands for the text that it prints.
- Number formatting, SHA-256, `toISOString`, Argon2, TOTP, JWT signing and HKDF are parameters or outside the model.
- Columns that no decision reads: device, address hashes, names, notes, reasons, `lastUsedAt`, latency and response bodies.
- Draft applications are inserted by a step of the environment, since no modelled method creates one.
- Custom field answers, uploads and verification codes of a submission are reduced to whether they are valid.
- `pruneLeakedKeys`: its pattern matches no session key, so it is no step on sessions.
- HTTP, SMTP, Discord, Prisma, BullMQ and Redis failures, logging, metrics and tracing.
- Controllers, request validation, mail templates, configuration, health checks, the SDK and the React hooks: thin wrappers.
