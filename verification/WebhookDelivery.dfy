/** The webhook queue: jobs fanned out from domain events, delivery rows, and automatic retries. */
module WebhookDelivery {
  import opened Wrappers
  import opened Sequences
  import Breaker

  type EventId = nat

  datatype Job = Job(eventId: EventId, endpointId: string, attemptNumber: nat)

  datatype DeliveryStatus = Pending | Success | Failed | CircuitOpen

  datatype Delivery = Delivery(eventId: EventId, attemptNumber: nat, status: DeliveryStatus, createdAt: int)

  datatype Subscription = Subscription(endpointId: string, endpoint: Breaker.Endpoint, eventTypes: set<string>)

  /** `nextEvent` numbers the events created so far; `pruned` only keeps the account of rows deleted for their age. */
  datatype State = State(
    queue: seq<Job>,
    deliveries: seq<Delivery>,
    nextEvent: EventId,
    now: int,
    pruned: seq<Delivery>)

  const INITIAL := State([], [], 0, 0, [])

  predicate Receives(sub: Subscription, eventType: string) {
    eventType in sub.eventTypes && Breaker.IsSelected(sub.endpoint)
  }

  function FirstJobs(subscriptions: seq<Subscription>, eventType: string, nextEvent: EventId): seq<Job> {
    if subscriptions == [] then []
    else if !Receives(subscriptions[0], eventType) then FirstJobs(subscriptions[1..], eventType, nextEvent)
    else
      [Job(nextEvent, subscriptions[0].endpointId, 1)] + FirstJobs(subscriptions[1..], eventType, nextEvent + 1)
  }

  /** A payload over the size limit makes the first event creation throw, and nothing is queued. */
  function FanOutStep(s: State, subscriptions: seq<Subscription>, eventType: string, payloadFits: bool): State {
    if !payloadFits then s
    else
      var jobs := FirstJobs(subscriptions, eventType, s.nextEvent);
      s.(queue := s.queue + jobs, nextEvent := s.nextEvent + |jobs|)
  }

  /** `endpoint` is the row as the job finds it, None when the endpoint or the event is gone; `ok` the HTTP outcome. */
  function ProcessStep(maxRetries: nat, s: State, index: nat, endpoint: Option<Breaker.Endpoint>, ok: bool): State
    requires index < |s.queue|
  {
    var job := s.queue[index];
    var rest := s.(queue := Without(s.queue, index));
    match endpoint
    case None => rest
    case Some(e) =>
      if e.status == Breaker.Disabled then rest
      else if !Breaker.ShouldDeliver(e) then
        rest.(deliveries := s.deliveries + [Delivery(job.eventId, job.attemptNumber, CircuitOpen, s.now)])
      else if ok then
        rest.(deliveries := s.deliveries + [Delivery(job.eventId, job.attemptNumber, Success, s.now)])
      else
        rest.(queue := if job.attemptNumber < maxRetries
                       then rest.queue + [job.(attemptNumber := job.attemptNumber + 1)] else rest.queue,
              deliveries := s.deliveries + [Delivery(job.eventId, job.attemptNumber, Failed, s.now)])
  }

  function Kept(deliveries: seq<Delivery>, cutoff: int): seq<Delivery> {
    if deliveries == [] then []
    else (if deliveries[0].createdAt < cutoff then [] else [deliveries[0]]) + Kept(deliveries[1..], cutoff)
  }

  function Deleted(deliveries: seq<Delivery>, cutoff: int): seq<Delivery> {
    if deliveries == [] then []
    else (if deliveries[0].createdAt < cutoff then [deliveries[0]] else []) + Deleted(deliveries[1..], cutoff)
  }

  function PruneStep(s: State, cutoff: int): State {
    s.(deliveries := Kept(s.deliveries, cutoff), pruned := s.pruned + Deleted(s.deliveries, cutoff))
  }

  datatype Step =
    | FanOut(subscriptions: seq<Subscription>, eventType: string, payloadFits: bool)
    | Process(index: nat, endpoint: Option<Breaker.Endpoint>, ok: bool)
    | Prune(cutoff: int)
    | Tick(ms: nat)

  predicate Enabled(s: State, step: Step) {
    step.Process? ==> step.index < |s.queue|
  }

  function Next(maxRetries: nat, s: State, step: Step): State
    requires Enabled(s, step)
  {
    match step
    case FanOut(subscriptions, eventType, payloadFits) => FanOutStep(s, subscriptions, eventType, payloadFits)
    case Process(index, endpoint, ok) => ProcessStep(maxRetries, s, index, endpoint, ok)
    case Prune(cutoff) => PruneStep(s, cutoff)
    case Tick(ms) => s.(now := s.now + ms)
  }

  predicate IsRun(maxRetries: nat, s: State, steps: seq<Step>)
    decreases |steps|
  {
    steps == [] || (Enabled(s, steps[0]) && IsRun(maxRetries, Next(maxRetries, s, steps[0]), steps[1..]))
  }

  function Final(maxRetries: nat, s: State, steps: seq<Step>): State
    requires IsRun(maxRetries, s, steps)
    decreases |steps|
  {
    if steps == [] then s else Final(maxRetries, Next(maxRetries, s, steps[0]), steps[1..])
  }

  /** The HTTP request is made: the endpoint is there, not DISABLED, and its circuit is not OPEN. */
  predicate IsDeliverable(endpoint: Option<Breaker.Endpoint>) {
    endpoint.Some? && endpoint.value.status != Breaker.Disabled && endpoint.value.circuitState != Breaker.Open
  }

  // ---------- the listener and the processor ----------

  class WebhookQueue {
    const maxRetries: nat
    var queue: seq<Job>
    var deliveries: seq<Delivery>
    var nextEvent: EventId
    var now: int
    ghost var pruned: seq<Delivery>

    ghost function Now(): State
      reads this
    {
      State(queue, deliveries, nextEvent, now, pruned)
    }

    constructor (maxRetries: nat)
      ensures Now() == INITIAL && this.maxRetries == maxRetries
    {
      this.maxRetries := maxRetries;
      queue, deliveries, nextEvent, now, pruned := [], [], 0, 0, [];
    }

    method DispatchEvent(subscriptions: seq<Subscription>, eventType: string, payloadFits: bool)
      modifies this
      ensures Now() == Next(maxRetries, old(Now()), FanOut(subscriptions, eventType, payloadFits))
      ensures deliveries == old(deliveries) && old(queue) <= queue
      ensures !payloadFits ==> queue == old(queue)
    {
      if !payloadFits {
        return;
      }
      var i := 0;
      while i < |subscriptions|
        invariant 0 <= i <= |subscriptions|
        invariant deliveries == old(deliveries) && now == old(now) && pruned == old(pruned)
        invariant queue + FirstJobs(subscriptions[i..], eventType, nextEvent)
               == old(queue) + FirstJobs(subscriptions, eventType, old(nextEvent))
        invariant nextEvent + |FirstJobs(subscriptions[i..], eventType, nextEvent)|
               == old(nextEvent) + |FirstJobs(subscriptions, eventType, old(nextEvent))|
      {
        ghost var before := queue;
        assert subscriptions[i..][1..] == subscriptions[i + 1..];
        if Receives(subscriptions[i], eventType) {
          var job := Job(nextEvent, subscriptions[i].endpointId, 1);
          queue := queue + [job];
          nextEvent := nextEvent + 1;
          ghost var later := FirstJobs(subscriptions[i + 1..], eventType, nextEvent);
          assert (before + [job]) + later == before + ([job] + later);
        }
        i := i + 1;
      }
      assert subscriptions[i..] == [];
      assert queue + [] == queue;
    }

    /** A delivery row is created PENDING and completed with the outcome; only a failed attempt is rescheduled. */
    method ProcessJob(index: nat, endpoint: Option<Breaker.Endpoint>, ok: bool) returns (delivered: bool)
      requires index < |queue|
      modifies this
      ensures Now() == Next(maxRetries, old(Now()), Process(index, endpoint, ok))
      ensures delivered <==> IsDeliverable(endpoint) && ok
      ensures var job := old(queue)[index];
              queue == Without(old(queue), index)
                       + if IsDeliverable(endpoint) && !ok && job.attemptNumber < maxRetries
                         then [Job(job.eventId, job.endpointId, job.attemptNumber + 1)] else []
      ensures var job := old(queue)[index];
              deliveries == old(deliveries)
                            + if endpoint == None || endpoint.value.status == Breaker.Disabled then []
                              else [Delivery(job.eventId, job.attemptNumber,
                                             if endpoint.value.circuitState == Breaker.Open then CircuitOpen
                                             else if ok then Success else Failed, now)]
    {
      var job := queue[index];
      queue := Without(queue, index);
      delivered := false;
      if endpoint == None || endpoint.value.status == Breaker.Disabled {
        return;
      }
      var id := |deliveries|;
      deliveries := deliveries + [Delivery(job.eventId, job.attemptNumber, Pending, now)];
      if !Breaker.ShouldDeliver(endpoint.value) {
        deliveries := deliveries[id := deliveries[id].(status := CircuitOpen)];
        return;
      }
      deliveries := deliveries[id := deliveries[id].(status := if ok then Success else Failed)];
      if !ok && job.attemptNumber < maxRetries {
        queue := queue + [Job(job.eventId, job.endpointId, job.attemptNumber + 1)];
      }
      delivered := ok;
    }

    /** Deletes the delivery rows created before the cutoff. */
    method PruneOldDeliveries(cutoff: int) returns (count: nat)
      modifies this
      ensures Now() == Next(maxRetries, old(Now()), Prune(cutoff))
      ensures count == |old(deliveries)| - |deliveries|
      ensures forall d :: multiset(deliveries)[d] == if d.createdAt < cutoff then 0 else multiset(old(deliveries))[d]
    {
      KeptCounts(deliveries, cutoff);
      KeptAreRecent(deliveries, cutoff);
      count := |deliveries| - |Kept(deliveries, cutoff)|;
      pruned := pruned + Deleted(deliveries, cutoff);
      deliveries := Kept(deliveries, cutoff);
    }

    method Elapse(ms: nat)
      modifies this
      ensures Now() == Next(maxRetries, old(Now()), Tick(ms))
    {
      now := now + ms;
    }
  }

  lemma {:induction false} KeptAreRecent(deliveries: seq<Delivery>, cutoff: int)
    ensures |Kept(deliveries, cutoff)| + |Deleted(deliveries, cutoff)| == |deliveries|
    ensures forall i :: 0 <= i < |Kept(deliveries, cutoff)| ==> Kept(deliveries, cutoff)[i].createdAt >= cutoff
  {
    if deliveries == [] {
    } else {
      KeptAreRecent(deliveries[1..], cutoff);
    }
  }

  /** Exactly the recent rows are kept, each as often as it was there. */
  lemma {:induction false} KeptCounts(deliveries: seq<Delivery>, cutoff: int)
    ensures forall d :: multiset(Kept(deliveries, cutoff))[d] == if d.createdAt < cutoff then 0 else multiset(deliveries)[d]
  {
    if deliveries == [] {
    } else {
      KeptCounts(deliveries[1..], cutoff);
      assert deliveries == [deliveries[0]] + deliveries[1..];
    }
  }

  // ---------- the queue drains ----------

  /** How many more times a job can be processed, counting its retries. */
  function Budget(maxRetries: nat, job: Job): (n: nat)
    ensures n >= 1
  {
    if maxRetries > job.attemptNumber then maxRetries - job.attemptNumber + 1 else 1
  }

  function TotalBudget(maxRetries: nat, queue: seq<Job>): nat {
    if queue == [] then 0 else Budget(maxRetries, queue[0]) + TotalBudget(maxRetries, queue[1..])
  }

  lemma {:induction false} BudgetConcat(maxRetries: nat, a: seq<Job>, b: seq<Job>)
    ensures TotalBudget(maxRetries, a + b) == TotalBudget(maxRetries, a) + TotalBudget(maxRetries, b)
  {
    if a == [] {
      assert a + b == b;
    } else {
      BudgetConcat(maxRetries, a[1..], b);
      assert (a + b)[1..] == a[1..] + b;
    }
  }

  lemma ProcessingLowersBudget(maxRetries: nat, s: State, index: nat, endpoint: Option<Breaker.Endpoint>, ok: bool)
    requires index < |s.queue|
    ensures TotalBudget(maxRetries, ProcessStep(maxRetries, s, index, endpoint, ok).queue)
          < TotalBudget(maxRetries, s.queue)
  {
    var job := s.queue[index];
    BudgetConcat(maxRetries, s.queue[..index], s.queue[index + 1..]);
    BudgetConcat(maxRetries, s.queue[..index], s.queue[index..]);
    assert s.queue == s.queue[..index] + s.queue[index..];
    assert s.queue[index..][1..] == s.queue[index + 1..];
    BudgetConcat(maxRetries, Without(s.queue, index), [job.(attemptNumber := job.attemptNumber + 1)]);
  }

  /** With no new events every processed job lowers the budget, so no more jobs are processed than it allows. */
  lemma {:induction false} QueueDrains(maxRetries: nat, s: State, steps: seq<Step>)
    requires IsRun(maxRetries, s, steps)
    requires forall i :: 0 <= i < |steps| ==> steps[i].Process?
    ensures |steps| + TotalBudget(maxRetries, Final(maxRetries, s, steps).queue) <= TotalBudget(maxRetries, s.queue)
    decreases |steps|
  {
    if steps == [] {
    } else {
      ProcessingLowersBudget(maxRetries, s, steps[0].index, steps[0].endpoint, steps[0].ok);
      QueueDrains(maxRetries, Next(maxRetries, s, steps[0]), steps[1..]);
    }
  }

  // ---------- the rows of a chain ----------

  function RowsOf(deliveries: seq<Delivery>, eventId: EventId): seq<Delivery> {
    if deliveries == [] then []
    else
      var front, last := deliveries[..|deliveries| - 1], deliveries[|deliveries| - 1];
      RowsOf(front, eventId) + if last.eventId == eventId then [last] else []
  }

  function MaxAttempts(maxRetries: nat): nat {
    if maxRetries > 1 then maxRetries else 1
  }

  /** Attempts 1, 2, 3, … in order, at most as many as allowed, every one but the last FAILED. */
  predicate IsChain(maxRetries: nat, rows: seq<Delivery>) {
    && |rows| <= MaxAttempts(maxRetries)
    && (forall i :: 0 <= i < |rows| ==> rows[i].attemptNumber == i + 1)
    && forall i :: 0 <= i < |rows| - 1 ==> rows[i].status == Failed
  }

  predicate AllFailed(rows: seq<Delivery>) {
    forall i :: 0 <= i < |rows| ==> rows[i].status == Failed
  }

  /** Every row ever created, in that order. */
  function AllRows(s: State): seq<Delivery> {
    s.pruned + s.deliveries
  }

  ghost predicate InTimeOrder(s: State) {
    && (forall i, j :: 0 <= i < j < |s.deliveries| ==> s.deliveries[i].createdAt <= s.deliveries[j].createdAt)
    && forall i :: 0 <= i < |s.deliveries| ==> s.deliveries[i].createdAt <= s.now
  }

  /** Events have one job at most, and a queued job continues a chain of failures. */
  ghost predicate Chained(maxRetries: nat, rows: seq<Delivery>, queue: seq<Job>, nextEvent: EventId) {
    && (forall e :: IsChain(maxRetries, RowsOf(rows, e)))
    && (forall e :: e >= nextEvent ==> RowsOf(rows, e) == [])
    && (forall i, j :: 0 <= i < j < |queue| ==> queue[i].eventId != queue[j].eventId)
    && forall i :: 0 <= i < |queue| ==> Continues(maxRetries, rows, queue[i], nextEvent)
  }

  ghost predicate Continues(maxRetries: nat, rows: seq<Delivery>, job: Job, nextEvent: EventId) {
    && job.eventId < nextEvent
    && 1 <= job.attemptNumber <= MaxAttempts(maxRetries)
    && |RowsOf(rows, job.eventId)| == job.attemptNumber - 1
    && AllFailed(RowsOf(rows, job.eventId))
  }

  ghost predicate Consistent(maxRetries: nat, s: State) {
    Chained(maxRetries, AllRows(s), s.queue, s.nextEvent) && InTimeOrder(s)
  }

  lemma RowsAfter(deliveries: seq<Delivery>, row: Delivery, e: EventId)
    ensures RowsOf(deliveries + [row], e) == RowsOf(deliveries, e) + if row.eventId == e then [row] else []
  {
    assert (deliveries + [row])[..|deliveries|] == deliveries;
  }

  lemma {:induction false} FirstJobsAreNew(subscriptions: seq<Subscription>, eventType: string, nextEvent: EventId, i: nat)
    requires i < |FirstJobs(subscriptions, eventType, nextEvent)|
    ensures FirstJobs(subscriptions, eventType, nextEvent)[i].attemptNumber == 1
    ensures FirstJobs(subscriptions, eventType, nextEvent)[i].eventId == nextEvent + i
    decreases |subscriptions|
  {
    if !Receives(subscriptions[0], eventType) {
      FirstJobsAreNew(subscriptions[1..], eventType, nextEvent, i);
    } else if i > 0 {
      FirstJobsAreNew(subscriptions[1..], eventType, nextEvent + 1, i - 1);
    }
  }

  lemma FanOutKeepsChains(maxRetries: nat, rows: seq<Delivery>, queue: seq<Job>, nextEvent: EventId,
                          subscriptions: seq<Subscription>, eventType: string)
    requires Chained(maxRetries, rows, queue, nextEvent)
    ensures var jobs := FirstJobs(subscriptions, eventType, nextEvent);
            Chained(maxRetries, rows, queue + jobs, nextEvent + |jobs|)
  {
    var jobs := FirstJobs(subscriptions, eventType, nextEvent);
    forall i | 0 <= i < |jobs|
      ensures jobs[i].attemptNumber == 1 && jobs[i].eventId == nextEvent + i
    {
      FirstJobsAreNew(subscriptions, eventType, nextEvent, i);
    }
    forall i | 0 <= i < |queue + jobs|
      ensures Continues(maxRetries, rows, (queue + jobs)[i], nextEvent + |jobs|)
    {
      if i < |queue| {
        assert Continues(maxRetries, rows, queue[i], nextEvent);
      } else {
        assert RowsOf(rows, jobs[i - |queue|].eventId) == [];
      }
    }
    assert forall i :: 0 <= i < |queue| ==> Continues(maxRetries, rows, queue[i], nextEvent);
  }

  /** The other jobs of the queue belong to other events. */
  lemma RemovalKeepsChains(maxRetries: nat, rows: seq<Delivery>, queue: seq<Job>, nextEvent: EventId, index: nat)
    requires Chained(maxRetries, rows, queue, nextEvent) && index < |queue|
    ensures Continues(maxRetries, rows, queue[index], nextEvent)
    ensures Chained(maxRetries, rows, Without(queue, index), nextEvent)
    ensures forall i :: 0 <= i < |Without(queue, index)| ==> Without(queue, index)[i].eventId != queue[index].eventId
  {
    var rest := Without(queue, index);
    forall i | 0 <= i < |rest|
      ensures rest[i].eventId != queue[index].eventId && Continues(maxRetries, rows, rest[i], nextEvent)
    {
      var j := if i < index then i else i + 1;
      assert rest[i] == queue[j] && Continues(maxRetries, rows, queue[j], nextEvent);
    }
  }

  /** The row of an event with no job left in the queue ends its chain. */
  lemma RowKeepsChains(maxRetries: nat, rows: seq<Delivery>, queue: seq<Job>, nextEvent: EventId, job: Job, row: Delivery)
    requires Chained(maxRetries, rows, queue, nextEvent) && Continues(maxRetries, rows, job, nextEvent)
    requires forall i :: 0 <= i < |queue| ==> queue[i].eventId != job.eventId
    requires row.eventId == job.eventId && row.attemptNumber == job.attemptNumber
    ensures Chained(maxRetries, rows + [row], queue, nextEvent)
  {
    forall e
      ensures RowsOf(rows + [row], e) == RowsOf(rows, e) + if row.eventId == e then [row] else []
      ensures IsChain(maxRetries, RowsOf(rows + [row], e))
    {
      RowsAfter(rows, row, e);
      assert IsChain(maxRetries, RowsOf(rows, e));
    }
    forall i | 0 <= i < |queue|
      ensures Continues(maxRetries, rows + [row], queue[i], nextEvent)
    {
      assert Continues(maxRetries, rows, queue[i], nextEvent);
    }
  }

  lemma RetryKeepsChains(maxRetries: nat, rows: seq<Delivery>, queue: seq<Job>, nextEvent: EventId, job: Job)
    requires Chained(maxRetries, rows, queue, nextEvent) && Continues(maxRetries, rows, job, nextEvent)
    requires forall i :: 0 <= i < |queue| ==> queue[i].eventId != job.eventId
    ensures Chained(maxRetries, rows, queue + [job], nextEvent)
  {
    forall i | 0 <= i < |queue + [job]|
      ensures Continues(maxRetries, rows, (queue + [job])[i], nextEvent)
    {
      assert Continues(maxRetries, rows, if i < |queue| then queue[i] else job, nextEvent);
    }
  }

  lemma ProcessedRow(maxRetries: nat, s: State, index: nat, endpoint: Option<Breaker.Endpoint>, ok: bool)
    requires InTimeOrder(s) && index < |s.queue|
    ensures var t, job := ProcessStep(maxRetries, s, index, endpoint, ok), s.queue[index];
            && InTimeOrder(t)
            && (|| t == s.(queue := Without(s.queue, index))
                || (exists row: Delivery ::
                      && row.eventId == job.eventId && row.attemptNumber == job.attemptNumber
                      && AllRows(t) == AllRows(s) + [row] && t.nextEvent == s.nextEvent
                      && (|| t.queue == Without(s.queue, index)
                          || (&& row.status == Failed && job.attemptNumber < maxRetries
                              && t.queue == Without(s.queue, index) + [job.(attemptNumber := job.attemptNumber + 1)]))))
  {
    var t := ProcessStep(maxRetries, s, index, endpoint, ok);
    if t.deliveries != s.deliveries {
      var row := t.deliveries[|s.deliveries|];
      assert t.deliveries == s.deliveries + [row];
      Regrouped(s.pruned, s.deliveries, [row]);
    }
  }

  lemma ProcessKeepsChains(maxRetries: nat, s: State, index: nat, endpoint: Option<Breaker.Endpoint>, ok: bool)
    requires Consistent(maxRetries, s) && index < |s.queue|
    ensures Consistent(maxRetries, ProcessStep(maxRetries, s, index, endpoint, ok))
  {
    var job, rest := s.queue[index], Without(s.queue, index);
    var t := ProcessStep(maxRetries, s, index, endpoint, ok);
    RemovalKeepsChains(maxRetries, AllRows(s), s.queue, s.nextEvent, index);
    ProcessedRow(maxRetries, s, index, endpoint, ok);
    if t != s.(queue := rest) {
      var row: Delivery :|
        && row.eventId == job.eventId && row.attemptNumber == job.attemptNumber
        && AllRows(t) == AllRows(s) + [row] && t.nextEvent == s.nextEvent
        && (|| t.queue == rest
            || (&& row.status == Failed && job.attemptNumber < maxRetries
                && t.queue == rest + [job.(attemptNumber := job.attemptNumber + 1)]));
      RowKeepsChains(maxRetries, AllRows(s), rest, s.nextEvent, job, row);
      if t.queue != rest {
        RowsAfter(AllRows(s), row, job.eventId);
        RetryKeepsChains(maxRetries, AllRows(t), rest, s.nextEvent, job.(attemptNumber := job.attemptNumber + 1));
      }
    }
  }

  /** In time order the rows deleted for their age are the oldest ones. */
  lemma {:induction false} DeletedAreOldest(deliveries: seq<Delivery>, cutoff: int)
    requires forall i, j :: 0 <= i < j < |deliveries| ==> deliveries[i].createdAt <= deliveries[j].createdAt
    ensures Deleted(deliveries, cutoff) + Kept(deliveries, cutoff) == deliveries
    ensures deliveries != [] && deliveries[0].createdAt >= cutoff ==> Deleted(deliveries, cutoff) == []
  {
    if deliveries == [] {
    } else {
      DeletedAreOldest(deliveries[1..], cutoff);
      assert deliveries == [deliveries[0]] + deliveries[1..];
    }
  }

  lemma Regrouped(a: seq<Delivery>, b: seq<Delivery>, c: seq<Delivery>)
    ensures (a + b) + c == a + (b + c)
  {
  }

  lemma PruneKeepsRows(s: State, cutoff: int)
    requires InTimeOrder(s)
    ensures AllRows(PruneStep(s, cutoff)) == AllRows(s)
  {
    DeletedAreOldest(s.deliveries, cutoff);
    Regrouped(s.pruned, Deleted(s.deliveries, cutoff), Kept(s.deliveries, cutoff));
  }

  lemma PruneKeepsOrder(s: State, cutoff: int)
    requires InTimeOrder(s)
    ensures InTimeOrder(PruneStep(s, cutoff))
  {
    DeletedAreOldest(s.deliveries, cutoff);
    var k := |Deleted(s.deliveries, cutoff)|;
    assert PruneStep(s, cutoff).deliveries == s.deliveries[k..];
  }

  lemma StepKeepsChains(maxRetries: nat, s: State, step: Step)
    requires Consistent(maxRetries, s) && Enabled(s, step)
    ensures Consistent(maxRetries, Next(maxRetries, s, step))
  {
    match step
    case FanOut(subscriptions, eventType, payloadFits) =>
      FanOutKeepsChains(maxRetries, AllRows(s), s.queue, s.nextEvent, subscriptions, eventType);
    case Process(index, endpoint, ok) => ProcessKeepsChains(maxRetries, s, index, endpoint, ok);
    case Prune(cutoff) =>
      PruneKeepsRows(s, cutoff);
      PruneKeepsOrder(s, cutoff);
    case Tick(ms) =>
  }

  lemma {:induction false} RunKeepsChains(maxRetries: nat, s: State, steps: seq<Step>)
    requires Consistent(maxRetries, s) && IsRun(maxRetries, s, steps)
    ensures Consistent(maxRetries, Final(maxRetries, s, steps))
    decreases |steps|
  {
    if steps == [] {
    } else {
      StepKeepsChains(maxRetries, s, steps[0]);
      RunKeepsChains(maxRetries, Next(maxRetries, s, steps[0]), steps[1..]);
    }
  }

  lemma {:induction false} NothingPruned(maxRetries: nat, s: State, steps: seq<Step>)
    requires IsRun(maxRetries, s, steps) && forall i :: 0 <= i < |steps| ==> !steps[i].Prune?
    ensures Final(maxRetries, s, steps).pruned == s.pruned
    decreases |steps|
  {
    if steps == [] {
    } else {
      NothingPruned(maxRetries, Next(maxRetries, s, steps[0]), steps[1..]);
    }
  }

  lemma {:induction false} RowsConcat(a: seq<Delivery>, b: seq<Delivery>, e: EventId)
    ensures RowsOf(a + b, e) == RowsOf(a, e) + RowsOf(b, e)
    decreases |b|
  {
    if b == [] {
      assert a + b == a;
    } else {
      var front, last := b[..|b| - 1], b[|b| - 1];
      assert a + b == (a + front) + [last];
      RowsAfter(a + front, last, e);
      RowsConcat(a, front, e);
    }
  }

  /** A piece of a chain: consecutive attempts, at most as many as allowed, every one but the last FAILED. */
  predicate IsChainFrom(maxRetries: nat, rows: seq<Delivery>, before: nat) {
    && (rows != [] ==> before + |rows| <= MaxAttempts(maxRetries))
    && (forall i :: 0 <= i < |rows| ==> rows[i].attemptNumber == before + i + 1)
    && forall i :: 0 <= i < |rows| - 1 ==> rows[i].status == Failed
  }

  lemma ChainSuffix(maxRetries: nat, first: seq<Delivery>, rows: seq<Delivery>)
    requires IsChain(maxRetries, first + rows)
    ensures IsChainFrom(maxRetries, rows, |first|)
    ensures AllFailed(first + rows) ==> AllFailed(rows)
  {
    assert forall i :: 0 <= i < |rows| ==> rows[i] == (first + rows)[|first| + i];
  }

  /** In every reachable state the rows of each event are the last attempts of a chain 1 to k, k at most
      max(1, maxRetries), the first ones having been deleted for their age and none without pruning; all but the last
      have failed. While a job of the event is queued all of them have, and its attempt is the next. */
  lemma DeliveriesFormChains(maxRetries: nat, steps: seq<Step>, eventId: EventId)
    requires IsRun(maxRetries, INITIAL, steps)
    ensures var s := Final(maxRetries, INITIAL, steps);
            var before, rows := |RowsOf(s.pruned, eventId)|, RowsOf(s.deliveries, eventId);
            && IsChainFrom(maxRetries, rows, before)
            && ((forall i :: 0 <= i < |steps| ==> !steps[i].Prune?) ==> before == 0)
            && forall i :: 0 <= i < |s.queue| && s.queue[i].eventId == eventId ==>
                 s.queue[i].attemptNumber == before + |rows| + 1 && AllFailed(rows)
  {
    RunKeepsChains(maxRetries, INITIAL, steps);
    if forall i :: 0 <= i < |steps| ==> !steps[i].Prune? {
      NothingPruned(maxRetries, INITIAL, steps);
    }
    var s := Final(maxRetries, INITIAL, steps);
    RowsConcat(s.pruned, s.deliveries, eventId);
    assert IsChain(maxRetries, RowsOf(AllRows(s), eventId));
    ChainSuffix(maxRetries, RowsOf(s.pruned, eventId), RowsOf(s.deliveries, eventId));
    forall i | 0 <= i < |s.queue| && s.queue[i].eventId == eventId
      ensures s.queue[i].attemptNumber == |RowsOf(AllRows(s), eventId)| + 1 && AllFailed(RowsOf(AllRows(s), eventId))
    {
      assert Continues(maxRetries, AllRows(s), s.queue[i], s.nextEvent);
    }
  }

  // ---------- fan-out reaches exactly the endpoints that want the event ----------

  /** Which subscriptions get a job, in order: `chosen` lists their places. */
  predicate IsChoice(subscriptions: seq<Subscription>, eventType: string, chosen: seq<nat>) {
    && (forall k :: 0 <= k < |chosen| ==> chosen[k] < |subscriptions|)
    && (forall k, m :: 0 <= k < m < |chosen| ==> chosen[k] < chosen[m])
    && forall i :: 0 <= i < |subscriptions| ==>
         (i in chosen <==> && subscriptions[i].endpoint.status == Breaker.Active
                           && subscriptions[i].endpoint.circuitState != Breaker.Open
                           && eventType in subscriptions[i].eventTypes)
  }

  lemma ShiftedChoice(subscriptions: seq<Subscription>, eventType: string, rest: seq<nat>, chosen: seq<nat>)
    requires subscriptions != [] && IsChoice(subscriptions[1..], eventType, rest)
    requires chosen == (if Receives(subscriptions[0], eventType) then [0] else [])
                       + Shift(rest)
    ensures IsChoice(subscriptions, eventType, chosen)
  {
    var shift := |chosen| - |rest|;
    forall i | 0 <= i < |subscriptions|
      ensures i in chosen <==> if i == 0 then shift == 1 else i - 1 in rest
    {
      if i > 0 && i - 1 in rest {
        var k :| 0 <= k < |rest| && rest[k] == i - 1;
        assert chosen[k + shift] == i;
      }
    }
    assert forall i :: 0 < i < |subscriptions| ==> subscriptions[i] == subscriptions[1..][i - 1];
  }

  function JobsFor(subscriptions: seq<Subscription>, chosen: seq<nat>, nextEvent: EventId): seq<Job>
    requires forall k :: 0 <= k < |chosen| ==> chosen[k] < |subscriptions|
  {
    seq(|chosen|, k requires 0 <= k < |chosen| => Job(nextEvent + k, subscriptions[chosen[k]].endpointId, 1))
  }

  function Shift(rest: seq<nat>): seq<nat>
  {
    seq(|rest|, k requires 0 <= k < |rest| => rest[k] + 1)
  }

  lemma JobsShift(subscriptions: seq<Subscription>, rest: seq<nat>, nextEvent: EventId)
    requires subscriptions != [] && forall k :: 0 <= k < |rest| ==> rest[k] < |subscriptions[1..]|
    ensures JobsFor(subscriptions, Shift(rest), nextEvent) == JobsFor(subscriptions[1..], rest, nextEvent)
    ensures JobsFor(subscriptions, [0] + Shift(rest), nextEvent)
         == [Job(nextEvent, subscriptions[0].endpointId, 1)] + JobsFor(subscriptions[1..], rest, nextEvent + 1)
  {
  }

  /** One job with attempt 1 and an event of its own for each subscription to an ACTIVE endpoint whose circuit is not
      OPEN, in their order, and none for any other. */
  lemma {:induction false} FanOutIsExact(subscriptions: seq<Subscription>, eventType: string, nextEvent: EventId)
    returns (chosen: seq<nat>)
    ensures IsChoice(subscriptions, eventType, chosen)
    ensures FirstJobs(subscriptions, eventType, nextEvent) == JobsFor(subscriptions, chosen, nextEvent)
    decreases |subscriptions|
  {
    if subscriptions == [] {
      chosen := [];
    } else {
      var received := Receives(subscriptions[0], eventType);
      var rest := FanOutIsExact(subscriptions[1..], eventType, if received then nextEvent + 1 else nextEvent);
      chosen := (if received then [0] else []) + Shift(rest);
      ShiftedChoice(subscriptions, eventType, rest, chosen);
      JobsShift(subscriptions, rest, nextEvent);
      assert !received ==> chosen == Shift(rest);
    }
  }

  // ---------- no event is given up early ----------

  predicate IsQueued(queue: seq<Job>, e: EventId) {
    exists i :: 0 <= i < |queue| && queue[i].eventId == e
  }

  /** Delivered, refused by an open circuit, or tried as often as allowed. */
  predicate IsOver(maxRetries: nat, rows: seq<Delivery>) {
    && rows != []
    && (|| rows[|rows| - 1].status == Success
        || rows[|rows| - 1].status == CircuitOpen
        || |rows| == MaxAttempts(maxRetries))
  }

  ghost predicate Attended(maxRetries: nat, rows: seq<Delivery>, queue: seq<Job>, nextEvent: EventId) {
    forall e :: 0 <= e < nextEvent ==> IsQueued(queue, e) || IsOver(maxRetries, RowsOf(rows, e))
  }

  /** No job of the run finds its endpoint deleted or DISABLED. */
  predicate EndpointsStay(steps: seq<Step>) {
    forall i :: 0 <= i < |steps| && steps[i].Process? ==>
                  steps[i].endpoint.Some? && steps[i].endpoint.value.status != Breaker.Disabled
  }

  lemma FanOutAttends(maxRetries: nat, rows: seq<Delivery>, queue: seq<Job>, nextEvent: EventId,
                      subscriptions: seq<Subscription>, eventType: string)
    requires Attended(maxRetries, rows, queue, nextEvent)
    ensures var jobs := FirstJobs(subscriptions, eventType, nextEvent);
            Attended(maxRetries, rows, queue + jobs, nextEvent + |jobs|)
  {
    var jobs := FirstJobs(subscriptions, eventType, nextEvent);
    forall e | 0 <= e < nextEvent + |jobs|
      ensures IsQueued(queue + jobs, e) || IsOver(maxRetries, RowsOf(rows, e))
    {
      if e >= nextEvent {
        FirstJobsAreNew(subscriptions, eventType, nextEvent, e - nextEvent);
        assert (queue + jobs)[|queue| + (e - nextEvent)].eventId == e;
      } else if IsQueued(queue, e) {
        var i :| 0 <= i < |queue| && queue[i].eventId == e;
        assert (queue + jobs)[i].eventId == e;
      }
    }
  }

  /** Whoever else was queued still is. */
  lemma OthersStayQueued(queue: seq<Job>, index: nat, more: seq<Job>, e: EventId)
    requires index < |queue| && IsQueued(queue, e) && e != queue[index].eventId
    ensures IsQueued(Without(queue, index) + more, e)
  {
    var i :| 0 <= i < |queue| && queue[i].eventId == e;
    var j := if i < index then i else i - 1;
    assert (Without(queue, index) + more)[j].eventId == e;
  }

  /** What processing a job on an endpoint that is there does, outright. */
  lemma ProcessEffect(maxRetries: nat, s: State, index: nat, endpoint: Option<Breaker.Endpoint>, ok: bool)
    requires index < |s.queue| && endpoint.Some? && endpoint.value.status != Breaker.Disabled
    ensures var t, job := ProcessStep(maxRetries, s, index, endpoint, ok), s.queue[index];
            var failed := IsDeliverable(endpoint) && !ok;
            var status := if !IsDeliverable(endpoint) then CircuitOpen else if ok then Success else Failed;
            && t.queue == Without(s.queue, index)
                          + (if failed && job.attemptNumber < maxRetries
                             then [Job(job.eventId, job.endpointId, job.attemptNumber + 1)] else [])
            && AllRows(t) == AllRows(s) + [Delivery(job.eventId, job.attemptNumber, status, s.now)]
            && t.nextEvent == s.nextEvent
  {
    var t := ProcessStep(maxRetries, s, index, endpoint, ok);
    Regrouped(s.pruned, s.deliveries, [t.deliveries[|s.deliveries|]]);
  }

  lemma ProcessAttends(maxRetries: nat, s: State, index: nat, endpoint: Option<Breaker.Endpoint>, ok: bool)
    requires Consistent(maxRetries, s) && Attended(maxRetries, AllRows(s), s.queue, s.nextEvent)
    requires index < |s.queue| && endpoint.Some? && endpoint.value.status != Breaker.Disabled
    ensures var t := ProcessStep(maxRetries, s, index, endpoint, ok);
            Attended(maxRetries, AllRows(t), t.queue, t.nextEvent)
  {
    var t, job := ProcessStep(maxRetries, s, index, endpoint, ok), s.queue[index];
    ProcessEffect(maxRetries, s, index, endpoint, ok);
    var row := AllRows(t)[|AllRows(s)|];
    var more := t.queue[|s.queue| - 1..];
    assert t.queue == Without(s.queue, index) + more;
    assert Continues(maxRetries, AllRows(s), job, s.nextEvent);
    forall e | 0 <= e < t.nextEvent
      ensures IsQueued(t.queue, e) || IsOver(maxRetries, RowsOf(AllRows(t), e))
    {
      RowsAfter(AllRows(s), row, e);
      if e != job.eventId {
        if IsQueued(s.queue, e) {
          OthersStayQueued(s.queue, index, more, e);
        }
      } else if more != [] {
        assert t.queue[|s.queue| - 1].eventId == e;
      }
    }
  }

  lemma StepAttends(maxRetries: nat, s: State, step: Step)
    requires Consistent(maxRetries, s) && Attended(maxRetries, AllRows(s), s.queue, s.nextEvent) && Enabled(s, step)
    requires EndpointsStay([step])
    ensures var t := Next(maxRetries, s, step); Attended(maxRetries, AllRows(t), t.queue, t.nextEvent)
  {
    match step
    case FanOut(subscriptions, eventType, payloadFits) =>
      FanOutAttends(maxRetries, AllRows(s), s.queue, s.nextEvent, subscriptions, eventType);
    case Process(index, endpoint, ok) =>
      assert [step][0].Process?;
      ProcessAttends(maxRetries, s, index, endpoint, ok);
    case Prune(cutoff) => PruneKeepsRows(s, cutoff);
    case Tick(ms) =>
  }

  lemma {:induction false} RunAttends(maxRetries: nat, s: State, steps: seq<Step>)
    requires Consistent(maxRetries, s) && Attended(maxRetries, AllRows(s), s.queue, s.nextEvent)
    requires IsRun(maxRetries, s, steps) && EndpointsStay(steps)
    ensures var t := Final(maxRetries, s, steps); Attended(maxRetries, AllRows(t), t.queue, t.nextEvent)
    decreases |steps|
  {
    if steps == [] {
    } else {
      assert EndpointsStay([steps[0]]) && EndpointsStay(steps[1..]);
      StepKeepsChains(maxRetries, s, steps[0]);
      StepAttends(maxRetries, s, steps[0]);
      RunAttends(maxRetries, Next(maxRetries, s, steps[0]), steps[1..]);
    }
  }

  /** No event is given up early: in any run whose jobs find their endpoints there and not DISABLED, every event ever
      created has a job queued, or its rows, pruned ones included, end in SUCCESS or CIRCUIT_OPEN or are as many as
      allowed. */
  lemma NoEventIsGivenUp(maxRetries: nat, steps: seq<Step>, eventId: EventId)
    requires IsRun(maxRetries, INITIAL, steps) && EndpointsStay(steps)
    requires eventId < Final(maxRetries, INITIAL, steps).nextEvent
    ensures var s := Final(maxRetries, INITIAL, steps);
            IsQueued(s.queue, eventId) || IsOver(maxRetries, RowsOf(s.pruned + s.deliveries, eventId))
  {
    RunAttends(maxRetries, INITIAL, steps);
  }
}
