/** The audit queue: attempts, dead letters and their replay, accounted for entry by entry. */
module AuditPipeline {
  import opened Wrappers
  import opened CodeUnits
  import opened Sequences
  import opened AuditChain

  const DEAD_LETTER_BATCH_SIZE := 100
  const REPLAY_ATTEMPTS := 3

  /** What a job carries; a field that is missing or no string is modelled as the empty text. */
  datatype Payload = NotAnObject | Candidate(entry: AuditEntry)

  datatype CastError = NotObject | MissingAction | MissingIpHash | MissingRegion | MissingRequestId

  datatype Job = Job(payload: Payload, attemptsMade: nat, attempts: Option<nat>)

  /** An element of the dead-letter list: a record that parses back, or anything else. */
  datatype DeadLetter = Unreadable(raw: Text) | Record(entry: AuditEntry, attemptsMade: nat)

  /** `accepted` and `lost` only keep the account: payloads that entered the queue, and those dropped for good. */
  datatype State = State(
    queue: seq<Job>,
    committed: seq<AuditEntry>,
    dead: seq<DeadLetter>,
    accepted: multiset<Payload>,
    lost: multiset<Payload>)

  const INITIAL := State([], [], [], multiset{}, multiset{})

  function CastEntry(payload: Payload): Result<AuditEntry, CastError> {
    match payload
    case NotAnObject => Err(NotObject)
    case Candidate(e) =>
      if e.action == [] then Err(MissingAction)
      else if e.ipHash == [] then Err(MissingIpHash)
      else if e.region == [] then Err(MissingRegion)
      else if e.requestId == [] then Err(MissingRequestId)
      else Ok(e)
  }

  /** An object with all four fields that an entry cannot do without. */
  predicate IsComplete(payload: Payload) {
    && payload.Candidate?
    && payload.entry.action != [] && payload.entry.ipHash != [] && payload.entry.region != [] && payload.entry.requestId != []
  }

  /** The check accepts exactly the complete payloads, as they are, and names the first field that is missing. */
  lemma CastVerdicts(payload: Payload)
    ensures forall e :: CastEntry(payload) == Ok(e) <==> IsComplete(payload) && payload.entry == e
    ensures CastEntry(payload) == Err(NotObject) <==> payload.NotAnObject?
    ensures payload.Candidate? ==>
              var e := payload.entry;
              && (CastEntry(payload) == Err(MissingAction) <==> e.action == [])
              && (CastEntry(payload) == Err(MissingIpHash) <==> e.action != [] && e.ipHash == [])
              && (CastEntry(payload) == Err(MissingRegion) <==> e.action != [] && e.ipHash != [] && e.region == [])
              && (CastEntry(payload) == Err(MissingRequestId) <==>
                    e.action != [] && e.ipHash != [] && e.region != [] && e.requestId == [])
  {
  }

  function MaxAttempts(job: Job): nat {
    match job.attempts
    case None => 1
    case Some(n) => n
  }

  predicate LastAttempt(job: Job) {
    job.attemptsMade + 1 >= MaxAttempts(job)
  }

  datatype Step =
    | Enqueue(payload: Payload, attempts: Option<nat>)
    | Process(index: nat, writeOk: bool, pushOk: bool)
    | Replay

  predicate Enabled(s: State, step: Step) {
    step.Process? ==> step.index < |s.queue|
  }

  /** A job that throws goes back to the queue until its attempts are used up. */
  function Requeue(queue: seq<Job>, job: Job): seq<Job> {
    if LastAttempt(job) then queue else queue + [job.(attemptsMade := job.attemptsMade + 1)]
  }

  function ProcessStep(s: State, index: nat, writeOk: bool, pushOk: bool): State
    requires index < |s.queue|
  {
    var job := s.queue[index];
    var rest := Without(s.queue, index);
    match CastEntry(job.payload)
    case Err(_) =>
      s.(queue := Requeue(rest, job),
         lost := if LastAttempt(job) then s.lost + multiset{job.payload} else s.lost)
    case Ok(entry) =>
      if writeOk then s.(queue := rest, committed := s.committed + [entry])
      else
        s.(queue := Requeue(rest, job),
           dead := if LastAttempt(job) && pushOk then s.dead + [Record(entry, job.attemptsMade + 1)] else s.dead,
           lost := if LastAttempt(job) && !pushOk then s.lost + multiset{job.payload} else s.lost)
  }

  function ReplayJobs(dead: seq<DeadLetter>): seq<Job> {
    if dead == [] then []
    else if dead[0].Unreadable? then ReplayJobs(dead[1..])
    else [Job(Candidate(dead[0].entry), 0, Some(REPLAY_ATTEMPTS))] + ReplayJobs(dead[1..])
  }

  function BatchSize(dead: seq<DeadLetter>): nat {
    if |dead| < DEAD_LETTER_BATCH_SIZE then |dead| else DEAD_LETTER_BATCH_SIZE
  }

  function ReplayStep(s: State): State {
    var k := BatchSize(s.dead);
    s.(queue := s.queue + ReplayJobs(s.dead[..k]), dead := s.dead[k..])
  }

  function Next(s: State, step: Step): State
    requires Enabled(s, step)
  {
    match step
    case Enqueue(payload, attempts) =>
      s.(queue := s.queue + [Job(payload, 0, attempts)], accepted := s.accepted + multiset{payload})
    case Process(index, writeOk, pushOk) => ProcessStep(s, index, writeOk, pushOk)
    case Replay => ReplayStep(s)
  }

  // ---------- the processors ----------

  /** Queue, audit table and dead-letter list of one region, with the single audit worker and the maintenance job. */
  class AuditQueue {
    var queue: seq<Job>
    var committed: seq<AuditEntry>
    var dead: seq<DeadLetter>
    ghost var accepted: multiset<Payload>
    ghost var lost: multiset<Payload>

    ghost function Now(): State
      reads this
    {
      State(queue, committed, dead, accepted, lost)
    }

    constructor ()
      ensures Now() == INITIAL
    {
      queue, committed, dead := [], [], [];
      accepted, lost := multiset{}, multiset{};
    }

    method Add(payload: Payload, attempts: Option<nat>)
      modifies this
      ensures Now() == Next(old(Now()), Enqueue(payload, attempts))
    {
      queue := queue + [Job(payload, 0, attempts)];
      accepted := accepted + multiset{payload};
    }

    /** One run of the audit worker. `writeOk` says whether the chained insert commits, `pushOk` whether the
        push onto the dead-letter list succeeds; a failed push is swallowed. The result tells whether it threw. */
    method RunJob(index: nat, writeOk: bool, pushOk: bool) returns (threw: bool)
      requires index < |queue|
      modifies this
      ensures Now() == Next(old(Now()), Process(index, writeOk, pushOk))
      ensures threw <==> !IsComplete(old(queue)[index].payload) || !writeOk
      ensures var job, rest := old(queue)[index], Without(old(queue), index);
              var last := job.attemptsMade + 1 >= if job.attempts.Some? then job.attempts.value else 1;
              if !threw then
                queue == rest && committed == old(committed) + [job.payload.entry] && dead == old(dead)
              else if !last then
                && queue == rest + [Job(job.payload, job.attemptsMade + 1, job.attempts)]
                && committed == old(committed) && dead == old(dead)
              else
                && queue == rest && committed == old(committed)
                && dead == old(dead) + if IsComplete(job.payload) && pushOk
                                       then [Record(job.payload.entry, job.attemptsMade + 1)] else []
    {
      var job := queue[index];
      var rest := Without(queue, index);
      queue := rest;
      threw := true;
      match CastEntry(job.payload) {
        case Err(_) =>
          if LastAttempt(job) {
            lost := lost + multiset{job.payload};
          }
        case Ok(entry) =>
          if writeOk {
            committed := committed + [entry];
            threw := false;
          } else if LastAttempt(job) {
            if pushOk {
              dead := dead + [Record(entry, job.attemptsMade + 1)];
            } else {
              lost := lost + multiset{job.payload};
            }
          }
      }
      if threw && !LastAttempt(job) {
        queue := queue + [job.(attemptsMade := job.attemptsMade + 1)];
      }
      assert queue == if threw then Requeue(rest, job) else rest;
    }

    /** Pops at most one batch off the front of the dead-letter list and queues what parses. */
    method ReplayAuditDeadLetter() returns (replayed: nat)
      modifies this
      ensures Now() == Next(old(Now()), Replay)
      ensures queue == old(queue) + ReplayJobs(old(dead)[..BatchSize(old(dead))])
      ensures replayed == |queue| - |old(queue)|
      ensures dead == if |old(dead)| <= 100 then [] else old(dead)[100..]
    {
      replayed := 0;
      var i := 0;
      while i < DEAD_LETTER_BATCH_SIZE && dead != []
        invariant 0 <= i <= BatchSize(old(dead))
        invariant dead == old(dead)[i..]
        invariant queue == old(queue) + ReplayJobs(old(dead)[..i])
        invariant replayed == |queue| - |old(queue)|
        invariant committed == old(committed) && accepted == old(accepted) && lost == old(lost)
      {
        var raw := dead[0];
        dead := dead[1..];
        assert old(dead)[..i + 1] == old(dead)[..i] + [raw];
        ReplayJobsAppend(old(dead)[..i], raw);
        if raw.Record? {
          queue := queue + [Job(Candidate(raw.entry), 0, Some(REPLAY_ATTEMPTS))];
          replayed := replayed + 1;
        }
        i := i + 1;
      }
    }
  }

  lemma {:induction false} ReplayJobsAppend(dead: seq<DeadLetter>, last: DeadLetter)
    ensures ReplayJobs(dead + [last]) == ReplayJobs(dead) + ReplayJobs([last])
  {
    if dead == [] {
      assert dead + [last] == [last];
    } else {
      ReplayJobsAppend(dead[1..], last);
      assert (dead + [last])[1..] == dead[1..] + [last];
    }
  }

  // ---------- accounting ----------

  function Payloads(queue: seq<Job>): (r: seq<Payload>)
    ensures |r| == |queue|
  {
    seq(|queue|, i requires 0 <= i < |queue| => queue[i].payload)
  }

  function Candidates(entries: seq<AuditEntry>): (r: seq<Payload>)
    ensures |r| == |entries|
  {
    seq(|entries|, i requires 0 <= i < |entries| => Candidate(entries[i]))
  }

  function Records(dead: seq<DeadLetter>): seq<Payload> {
    if dead == [] then []
    else if dead[0].Unreadable? then Records(dead[1..])
    else [Candidate(dead[0].entry)] + Records(dead[1..])
  }

  function Queued(s: State): multiset<Payload> {
    multiset(Payloads(s.queue))
  }

  function Committed(s: State): multiset<Payload> {
    multiset(Candidates(s.committed))
  }

  function DeadLettered(s: State): multiset<Payload> {
    multiset(Records(s.dead))
  }

  /** Where every accepted payload is. */
  ghost predicate Accounted(s: State) {
    s.accepted == Queued(s) + Committed(s) + DeadLettered(s) + s.lost
  }

  lemma PayloadsConcat(a: seq<Job>, b: seq<Job>)
    ensures Payloads(a + b) == Payloads(a) + Payloads(b)
  {
  }

  lemma PayloadsWithout(queue: seq<Job>, i: nat)
    requires i < |queue|
    ensures multiset(Payloads(queue)) == multiset(Payloads(Without(queue, i))) + multiset{queue[i].payload}
  {
    var p := Payloads(queue);
    assert Payloads(Without(queue, i)) == p[..i] + p[i + 1..];
    assert p == p[..i] + [p[i]] + p[i + 1..];
  }

  lemma CandidatesSnoc(entries: seq<AuditEntry>, entry: AuditEntry)
    ensures Candidates(entries + [entry]) == Candidates(entries) + [Candidate(entry)]
  {
  }

  lemma RecordsFirst(dead: seq<DeadLetter>)
    requires dead != [] && dead[0].Record?
    ensures Records(dead) == [Candidate(dead[0].entry)] + Records(dead[1..])
  {
  }

  lemma {:induction false} RecordsConcat(a: seq<DeadLetter>, b: seq<DeadLetter>)
    ensures Records(a + b) == Records(a) + Records(b)
  {
    if a == [] {
      assert a + b == b;
    } else {
      RecordsConcat(a[1..], b);
      assert (a + b)[1..] == a[1..] + b && (a + b)[0] == a[0];
      if a[0].Record? {
        RecordsFirst(a);
        RecordsFirst(a + b);
      }
    }
  }

  lemma {:induction false} ReplayedJobsHoldTheRecords(dead: seq<DeadLetter>)
    ensures Payloads(ReplayJobs(dead)) == Records(dead)
  {
    if dead == [] {
    } else {
      ReplayedJobsHoldTheRecords(dead[1..]);
    }
  }

  lemma Moved<T>(accepted: multiset<T>, before: multiset<T>, queued: multiset<T>, committed: multiset<T>,
                 dead: multiset<T>, lost: multiset<T>, p: T)
    requires accepted == before + committed + dead + lost
    requires before == queued + multiset{p}
    ensures accepted == queued + (committed + multiset{p}) + dead + lost
    ensures accepted == queued + committed + (dead + multiset{p}) + lost
    ensures accepted == queued + committed + dead + (lost + multiset{p})
  {
  }

  lemma RequeueKeepsPayload(queue: seq<Job>, job: Job)
    requires !LastAttempt(job)
    ensures Payloads(Requeue(queue, job)) == Payloads(queue) + [job.payload]
  {
  }

  lemma CommitAccount(s: State, index: nat, pushOk: bool)
    requires index < |s.queue| && CastEntry(s.queue[index].payload).Ok?
    ensures var t := ProcessStep(s, index, true, pushOk);
            && Queued(t) == multiset(Payloads(Without(s.queue, index)))
            && Committed(t) == Committed(s) + multiset{s.queue[index].payload}
            && DeadLettered(t) == DeadLettered(s) && t.lost == s.lost
  {
    CandidatesSnoc(s.committed, CastEntry(s.queue[index].payload).value);
  }

  lemma RequeueAccount(s: State, index: nat, writeOk: bool, pushOk: bool)
    requires index < |s.queue| && !LastAttempt(s.queue[index])
    requires CastEntry(s.queue[index].payload).Err? || !writeOk
    ensures var t := ProcessStep(s, index, writeOk, pushOk);
            && Queued(t) == Queued(s)
            && Committed(t) == Committed(s) && DeadLettered(t) == DeadLettered(s) && t.lost == s.lost
  {
    PayloadsWithout(s.queue, index);
    RequeueKeepsPayload(Without(s.queue, index), s.queue[index]);
  }

  lemma DeadLetterAccount(s: State, index: nat)
    requires index < |s.queue| && CastEntry(s.queue[index].payload).Ok? && LastAttempt(s.queue[index])
    ensures var t := ProcessStep(s, index, false, true);
            && Queued(t) == multiset(Payloads(Without(s.queue, index)))
            && Committed(t) == Committed(s)
            && DeadLettered(t) == DeadLettered(s) + multiset{s.queue[index].payload} && t.lost == s.lost
  {
    var job := s.queue[index];
    var entry := CastEntry(job.payload).value;
    var record := Record(entry, job.attemptsMade + 1);
    RecordsConcat(s.dead, [record]);
    assert Records([record]) == [Candidate(entry)];
  }

  lemma ProcessKeepsAccount(s: State, index: nat, writeOk: bool, pushOk: bool)
    requires Accounted(s) && index < |s.queue|
    ensures Accounted(ProcessStep(s, index, writeOk, pushOk))
  {
    var job := s.queue[index];
    PayloadsWithout(s.queue, index);
    var queued := multiset(Payloads(Without(s.queue, index)));
    Moved(s.accepted, Queued(s), queued, Committed(s), DeadLettered(s), s.lost, job.payload);
    if CastEntry(job.payload).Ok? && writeOk {
      CommitAccount(s, index, pushOk);
    } else if !LastAttempt(job) {
      RequeueAccount(s, index, writeOk, pushOk);
    } else if CastEntry(job.payload).Ok? && pushOk {
      DeadLetterAccount(s, index);
    }
  }

  lemma ReplayKeepsAccount(s: State)
    requires Accounted(s)
    ensures Accounted(ReplayStep(s))
  {
    var k := BatchSize(s.dead);
    ReplayedJobsHoldTheRecords(s.dead[..k]);
    PayloadsConcat(s.queue, ReplayJobs(s.dead[..k]));
    RecordsConcat(s.dead[..k], s.dead[k..]);
    assert s.dead == s.dead[..k] + s.dead[k..];
    var moved := multiset(Records(s.dead[..k]));
    assert DeadLettered(s) == moved + DeadLettered(ReplayStep(s));
    assert Queued(ReplayStep(s)) == Queued(s) + moved;
  }

  lemma EnqueueKeepsAccount(s: State, payload: Payload, attempts: Option<nat>)
    requires Accounted(s)
    ensures Accounted(Next(s, Enqueue(payload, attempts)))
  {
    var job := Job(payload, 0, attempts);
    PayloadsConcat(s.queue, [job]);
    assert Payloads([job]) == [payload];
    assert Queued(Next(s, Enqueue(payload, attempts))) == Queued(s) + multiset{payload};
  }

  lemma StepKeepsAccount(s: State, step: Step)
    requires Accounted(s) && Enabled(s, step)
    ensures Accounted(Next(s, step))
  {
    match step
    case Enqueue(payload, attempts) => EnqueueKeepsAccount(s, payload, attempts);
    case Process(index, writeOk, pushOk) => ProcessKeepsAccount(s, index, writeOk, pushOk);
    case Replay => ReplayKeepsAccount(s);
  }

  // ---------- whole runs ----------

  predicate IsRun(s: State, steps: seq<Step>)
    decreases |steps|
  {
    steps == [] || (Enabled(s, steps[0]) && IsRun(Next(s, steps[0]), steps[1..]))
  }

  function Final(s: State, steps: seq<Step>): State
    requires IsRun(s, steps)
    decreases |steps|
  {
    if steps == [] then s else Final(Next(s, steps[0]), steps[1..])
  }

  /** The step drops a payload: an invalid one on its last attempt, or a failed write whose dead letter is not pushed. */
  predicate Loses(s: State, step: Step)
    requires Enabled(s, step)
  {
    && step.Process?
    && LastAttempt(s.queue[step.index])
    && (CastEntry(s.queue[step.index].payload).Err? || (!step.writeOk && !step.pushOk))
  }

  predicate LosesInRun(s: State, steps: seq<Step>)
    requires IsRun(s, steps)
    decreases |steps|
  {
    steps != [] && (Loses(s, steps[0]) || LosesInRun(Next(s, steps[0]), steps[1..]))
  }

  lemma {:induction false} RunKeepsAccount(s: State, steps: seq<Step>)
    requires Accounted(s) && IsRun(s, steps)
    ensures Accounted(Final(s, steps))
    decreases |steps|
  {
    if steps == [] {
    } else {
      StepKeepsAccount(s, steps[0]);
      RunKeepsAccount(Next(s, steps[0]), steps[1..]);
    }
  }

  lemma StepLosses(s: State, step: Step)
    requires Enabled(s, step)
    ensures |Next(s, step).lost| == |s.lost| + if Loses(s, step) then 1 else 0
  {
  }

  lemma {:induction false} RunLosses(s: State, steps: seq<Step>)
    requires IsRun(s, steps)
    ensures |Final(s, steps).lost| >= |s.lost|
    ensures |Final(s, steps).lost| == |s.lost| <==> !LosesInRun(s, steps)
    decreases |steps|
  {
    if steps == [] {
    } else {
      StepLosses(s, steps[0]);
      RunLosses(Next(s, steps[0]), steps[1..]);
    }
  }

  /** Conservation: after any run, queued, committed and dead-lettered entries add up to the accepted ones, exactly
      when no step of the run dropped a payload; in every case nothing is committed more often than it was accepted. */
  lemma EntriesAreConserved(steps: seq<Step>)
    requires IsRun(INITIAL, steps)
    ensures var s := Final(INITIAL, steps);
            && (s.accepted == Queued(s) + Committed(s) + DeadLettered(s)
                <==> !LosesInRun(INITIAL, steps))
            && Committed(s) <= s.accepted
  {
    RunKeepsAccount(INITIAL, steps);
    RunLosses(INITIAL, steps);
    var s := Final(INITIAL, steps);
    var kept := Queued(s) + Committed(s) + DeadLettered(s);
    assert |s.accepted| == |kept| + |s.lost|;
    assert |s.lost| == 0 ==> s.lost == multiset{};
  }

  // ---------- valid entries and reliable pushes ----------

  predicate AllValid(queue: seq<Job>) {
    forall i :: 0 <= i < |queue| ==> CastEntry(queue[i].payload).Ok?
  }

  predicate AllRecordsValid(dead: seq<DeadLetter>) {
    forall i :: 0 <= i < |dead| ==> dead[i].Record? && CastEntry(Candidate(dead[i].entry)).Ok?
  }

  predicate Reliable(step: Step) {
    match step
    case Enqueue(payload, _) => CastEntry(payload).Ok?
    case Process(_, _, pushOk) => pushOk
    case Replay => true
  }

  lemma {:induction false} ReplayedJobsAreValid(dead: seq<DeadLetter>)
    requires AllRecordsValid(dead)
    ensures |ReplayJobs(dead)| == |dead| && AllValid(ReplayJobs(dead))
    ensures forall i :: 0 <= i < |dead| ==> ReplayJobs(dead)[i] == Job(Candidate(dead[i].entry), 0, Some(3))
  {
    if dead == [] {
    } else {
      ReplayedJobsAreValid(dead[1..]);
    }
  }

  lemma {:induction false} ReliableRunLosesNothing(s: State, steps: seq<Step>)
    requires IsRun(s, steps) && AllValid(s.queue) && AllRecordsValid(s.dead)
    requires forall i :: 0 <= i < |steps| ==> Reliable(steps[i])
    ensures !LosesInRun(s, steps)
    ensures AllRecordsValid(Final(s, steps).dead)
    decreases |steps|
  {
    if steps == [] {
    } else {
      if steps[0].Replay? {
        ReplayedJobsAreValid(s.dead[..BatchSize(s.dead)]);
      }
      assert Reliable(steps[0]);
      ReliableRunLosesNothing(Next(s, steps[0]), steps[1..]);
    }
  }

  /** With valid entries and a dead-letter list that takes every push, no entry is ever dropped, and a replay batch
      moves the oldest records, at most a hundred, to the back of the queue in their order. */
  lemma ReliablePipeline(steps: seq<Step>)
    requires IsRun(INITIAL, steps) && forall i :: 0 <= i < |steps| ==> Reliable(steps[i])
    ensures var s := Final(INITIAL, steps);
            && s.accepted == Queued(s) + Committed(s) + DeadLettered(s)
            && var k, t := BatchSize(s.dead), Next(s, Replay);
               && k == (if |s.dead| <= 100 then |s.dead| else 100)
               && |t.queue| == |s.queue| + k && t.queue[..|s.queue|] == s.queue
               && t.dead == s.dead[k..]
               && forall i :: 0 <= i < k ==>
                    s.dead[i].Record? && t.queue[|s.queue| + i] == Job(Candidate(s.dead[i].entry), 0, Some(3))
  {
    EntriesAreConserved(steps);
    ReliableRunLosesNothing(INITIAL, steps);
    var s := Final(INITIAL, steps);
    ReplayedJobsAreValid(s.dead[..BatchSize(s.dead)]);
  }

  // ---------- every job comes to an end ----------

  /** How many attempts a job has left; there is always one. */
  function AttemptsLeft(job: Job): (n: nat)
    ensures n >= 1
  {
    var most := if job.attempts.Some? then job.attempts.value else 1;
    if most > job.attemptsMade then most - job.attemptsMade else 1
  }

  function TotalLeft(queue: seq<Job>): nat {
    if queue == [] then 0 else AttemptsLeft(queue[0]) + TotalLeft(queue[1..])
  }

  lemma {:induction false} TotalLeftConcat(a: seq<Job>, b: seq<Job>)
    ensures TotalLeft(a + b) == TotalLeft(a) + TotalLeft(b)
  {
    if a == [] {
      assert a + b == b;
    } else {
      TotalLeftConcat(a[1..], b);
      assert (a + b)[1..] == a[1..] + b;
    }
  }

  lemma TotalLeftWithout(queue: seq<Job>, index: nat)
    requires index < |queue|
    ensures TotalLeft(queue) == TotalLeft(Without(queue, index)) + AttemptsLeft(queue[index])
  {
    TotalLeftConcat(queue[..index], queue[index..]);
    TotalLeftConcat(queue[..index], queue[index + 1..]);
    assert queue == queue[..index] + queue[index..];
    assert queue[index..][1..] == queue[index + 1..];
  }

  /** Every attempt lowers the number of attempts left in the queue by one at least. */
  lemma AttemptsFall(s: State, index: nat, writeOk: bool, pushOk: bool)
    requires index < |s.queue|
    ensures TotalLeft(ProcessStep(s, index, writeOk, pushOk).queue) < TotalLeft(s.queue)
  {
    var job, rest := s.queue[index], Without(s.queue, index);
    TotalLeftWithout(s.queue, index);
    TotalLeftConcat(rest, [job.(attemptsMade := job.attemptsMade + 1)]);
  }

  lemma {:induction false} AttemptsAreBounded(s: State, steps: seq<Step>)
    requires IsRun(s, steps) && forall i :: 0 <= i < |steps| ==> steps[i].Process?
    ensures |steps| + TotalLeft(Final(s, steps).queue) <= TotalLeft(s.queue)
    decreases |steps|
  {
    if steps == [] {
    } else {
      AttemptsFall(s, steps[0].index, steps[0].writeOk, steps[0].pushOk);
      AttemptsAreBounded(Next(s, steps[0]), steps[1..]);
    }
  }

  function Failures(n: nat): (steps: seq<Step>)
    ensures |steps| == n && forall i :: 0 <= i < n ==> steps[i] == Process(0, false, true)
  {
    seq(n, i => Process(0, false, true))
  }

  /** A complete entry whose writes keep failing is given all its attempts, and then it is in the dead-letter list. */
  lemma {:induction false} FailuresEndInDeadLetter(s: State, job: Job)
    requires s.queue == [job] && IsComplete(job.payload)
    ensures IsRun(s, Failures(AttemptsLeft(job)))
    ensures Final(s, Failures(AttemptsLeft(job)))
         == s.(queue := [], dead := s.dead + [Record(job.payload.entry, job.attemptsMade + AttemptsLeft(job))])
    decreases AttemptsLeft(job)
  {
    var n := AttemptsLeft(job);
    var t := Next(s, Process(0, false, true));
    assert Without(s.queue, 0) == [];
    assert Failures(n)[1..] == Failures(n - 1);
    if n == 1 {
      assert t == s.(queue := [], dead := s.dead + [Record(job.payload.entry, job.attemptsMade + 1)]);
    } else {
      var again := job.(attemptsMade := job.attemptsMade + 1);
      assert t == s.(queue := [again]);
      FailuresEndInDeadLetter(t, again);
    }
  }
}
