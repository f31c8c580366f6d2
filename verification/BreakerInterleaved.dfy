/** The breaker under any interleaving: workers with stale snapshots, probes and admin edits, one write a step. */
module BreakerInterleaved {
  import opened Wrappers
  import opened Breaker

  /** A worker holds the endpoint as it read it, and after a counted failure may still owe the second write. */
  datatype Worker = Idle | Delivering(snapshot: Endpoint) | AboutToOpen

  datatype State = State(now: int, endpoint: Endpoint, workers: map<nat, Worker>)

  datatype Step =
    | Read(worker: nat)
    | Succeed(worker: nat)
    | Fail(worker: nat)
    | OpenCircuit(worker: nat)
    | Probe
    | Edit(status: EndpointStatus)
    | Tick(ms: nat)

  const INITIAL := State(0, NEW_ENDPOINT, map[])

  function WorkerAt(s: State, w: nat): Worker {
    if w in s.workers then s.workers[w] else Idle
  }

  predicate Enabled(s: State, step: Step) {
    match step
    case Read(w) => WorkerAt(s, w).Idle?
    case Succeed(w) => WorkerAt(s, w).Delivering?
    case Fail(w) => WorkerAt(s, w).Delivering?
    case OpenCircuit(w) => WorkerAt(s, w).AboutToOpen?
    case _ => true
  }

  function FailStep(c: Config, s: State, w: nat): State
    requires Enabled(s, Fail(w))
  {
    if WorkerAt(s, w).snapshot.circuitState == HalfOpen then
      s.(endpoint := HalfOpenFailed(s.endpoint, s.now), workers := s.workers[w := Idle])
    else
      var counted := Counted(s.endpoint, s.now);
      s.(endpoint := counted, workers := s.workers[w := if MustOpen(c, counted) then AboutToOpen else Idle])
  }

  function Next(c: Config, s: State, step: Step): State
    requires Enabled(s, step)
  {
    match step
    case Read(w) =>
      if s.endpoint.status == Disabled || !ShouldDeliver(s.endpoint) then s
      else s.(workers := s.workers[w := Delivering(s.endpoint)])
    case Succeed(w) => s.(endpoint := Succeeded(s.endpoint), workers := s.workers[w := Idle])
    case Fail(w) => FailStep(c, s, w)
    case OpenCircuit(w) => s.(endpoint := Opened(s.endpoint, s.now), workers := s.workers[w := Idle])
    case Probe => s.(endpoint := Probed(c, s.endpoint, s.now))
    case Edit(status) => s.(endpoint := s.endpoint.(status := status))
    case Tick(ms) => s.(now := s.now + ms)
  }

  predicate IsRun(c: Config, s: State, steps: seq<Step>)
    decreases |steps|
  {
    steps == [] || (Enabled(s, steps[0]) && IsRun(c, Next(c, s, steps[0]), steps[1..]))
  }

  function Final(c: Config, s: State, steps: seq<Step>): State
    requires IsRun(c, s, steps)
    decreases |steps|
  {
    if steps == [] then s else Final(c, Next(c, s, steps[0]), steps[1..])
  }

  ghost predicate SomeAboutToOpen(s: State) {
    exists w: nat :: WorkerAt(s, w).AboutToOpen?
  }

  /** CLOSED exactly when there is no opening time, and a CLOSED circuit at or over the threshold is being opened. */
  ghost predicate BreakerInvariant(c: Config, s: State) {
    && OpeningRecorded(s.endpoint)
    && (s.endpoint.circuitState == Closed && s.endpoint.failureCount >= c.threshold ==> SomeAboutToOpen(s))
  }

  lemma StepKeepsInvariant(c: Config, s: State, step: Step)
    requires c.threshold >= 1 && BreakerInvariant(c, s) && Enabled(s, step)
    ensures BreakerInvariant(c, Next(c, s, step))
  {
    var t := Next(c, s, step);
    if t.endpoint.circuitState == Closed && t.endpoint.failureCount >= c.threshold {
      if step.Fail? {
        assert WorkerAt(t, step.worker).AboutToOpen?;
      } else {
        var w: nat :| WorkerAt(s, w).AboutToOpen?;
        assert WorkerAt(t, w).AboutToOpen?;
      }
    }
  }

  lemma {:induction false} InvariantInEveryRun(c: Config, s: State, steps: seq<Step>)
    requires c.threshold >= 1 && BreakerInvariant(c, s) && IsRun(c, s, steps)
    ensures BreakerInvariant(c, Final(c, s, steps))
    decreases |steps|
  {
    if steps == [] {
    } else {
      StepKeepsInvariant(c, s, steps[0]);
      InvariantInEveryRun(c, Next(c, s, steps[0]), steps[1..]);
    }
  }

  /** After any interleaving from a new endpoint: CLOSED if and only if `circuitOpenedAt` is null, and a CLOSED endpoint
      whose failures have reached the threshold has a worker between the two writes of `recordFailure`. */
  lemma InterleavedBreaker(c: Config, steps: seq<Step>)
    requires c.threshold >= 1 && IsRun(c, INITIAL, steps)
    ensures var s := Final(c, INITIAL, steps);
            && (s.endpoint.circuitState == Closed <==> s.endpoint.circuitOpenedAt == None)
            && (s.endpoint.circuitState == Closed && s.endpoint.failureCount >= c.threshold ==> SomeAboutToOpen(s))
  {
    InvariantInEveryRun(c, INITIAL, steps);
  }

  /** An endpoint leaves DISABLED exactly by an edit to another status or by a late second write. */
  lemma LeavingDisabled(c: Config, s: State, step: Step)
    requires Enabled(s, step) && s.endpoint.status == Disabled
    ensures Next(c, s, step).endpoint.status != Disabled <==> step.OpenCircuit? || (step.Edit? && step.status != Disabled)
  {
  }

  predicate AllIdle(s: State) {
    forall w :: w in s.workers ==> s.workers[w].Idle?
  }

  /** With no write under way a DISABLED endpoint stays exactly as it is until an edit, whatever jobs and probes come. */
  lemma {:induction false} DisabledStays(c: Config, s: State, steps: seq<Step>)
    requires s.endpoint.status == Disabled && AllIdle(s) && IsRun(c, s, steps)
    requires forall i :: 0 <= i < |steps| ==> !steps[i].Edit?
    ensures Final(c, s, steps).endpoint == s.endpoint && AllIdle(Final(c, s, steps))
    decreases |steps|
  {
    if steps == [] {
    } else {
      DisabledStays(c, Next(c, s, steps[0]), steps[1..]);
    }
  }

  // ---------- what interleaving breaks ----------

  predicate OpenMeansThreshold(c: Config, s: State) {
    s.endpoint.circuitState == Open ==> s.endpoint.failureCount >= c.threshold
  }

  /** An open circuit below the threshold arises exactly from a late second write, or from a failure judged by a stale
      HALF_OPEN snapshot, after a success has reset the count. */
  lemma OpeningBelowThreshold(c: Config, s: State, step: Step)
    requires Enabled(s, step) && OpenMeansThreshold(c, s)
    ensures !OpenMeansThreshold(c, Next(c, s, step))
       <==> || (step.OpenCircuit? && s.endpoint.failureCount < c.threshold)
            || (&& step.Fail?
                && WorkerAt(s, step.worker).snapshot.circuitState == HalfOpen
                && s.endpoint.failureCount + 1 < c.threshold)
  {
  }

  lemma Prepend(c: Config, s: State, first: Step, rest: seq<Step>)
    requires Enabled(s, first) && IsRun(c, Next(c, s, first), rest)
    ensures IsRun(c, s, [first] + rest) && Final(c, s, [first] + rest) == Final(c, Next(c, s, first), rest)
  {
    assert ([first] + rest)[1..] == rest;
  }

  /** Four steps in a row, in any state that allows them. */
  lemma RunOfFour(c: Config, s: State, a: Step, b: Step, d: Step, e: Step)
    requires Enabled(s, a)
    requires var s1 := Next(c, s, a);
             Enabled(s1, b) && var s2 := Next(c, s1, b);
             Enabled(s2, d) && Enabled(Next(c, s2, d), e)
    ensures IsRun(c, s, [a, b, d, e])
    ensures Final(c, s, [a, b, d, e]) == Next(c, Next(c, Next(c, Next(c, s, a), b), d), e)
  {
    var s1 := Next(c, s, a);
    var s2 := Next(c, s1, b);
    var s3 := Next(c, s2, d);
    assert IsRun(c, Next(c, s3, e), []);
    Prepend(c, s3, e, []);
    Prepend(c, s2, d, [e]);
    Prepend(c, s1, b, [d] + [e]);
    Prepend(c, s, a, [b] + ([d] + [e]));
    assert [a] + ([b] + ([d] + [e])) == [a, b, d, e];
  }

  /** Two workers: one failure reaches the threshold, a success resets the count, and then the circuit opens. */
  lemma OpenBelowThreshold(resetMs: int)
    ensures var c := Config(1, resetMs);
            var steps := [Read(0), Read(1), Fail(0), Succeed(1), OpenCircuit(0)];
            && IsRun(c, INITIAL, steps)
            && Final(c, INITIAL, steps).endpoint.circuitState == Open
            && Final(c, INITIAL, steps).endpoint.failureCount == 0
  {
    var c := Config(1, resetMs);
    RunOfFour(c, Next(c, INITIAL, Read(0)), Read(1), Fail(0), Succeed(1), OpenCircuit(0));
    Prepend(c, INITIAL, Read(0), [Read(1), Fail(0), Succeed(1), OpenCircuit(0)]);
    assert [Read(0)] + [Read(1), Fail(0), Succeed(1), OpenCircuit(0)]
        == [Read(0), Read(1), Fail(0), Succeed(1), OpenCircuit(0)];
  }

  /** An endpoint disabled between the two writes of a failure comes back as PAUSED. */
  lemma DisabledOverwritten(resetMs: int)
    ensures var c := Config(1, resetMs);
            var steps := [Read(0), Fail(0), Edit(Disabled), OpenCircuit(0)];
            && IsRun(c, INITIAL, steps)
            && Final(c, INITIAL, steps).endpoint.status == Paused
  {
    RunOfFour(Config(1, resetMs), INITIAL, Read(0), Fail(0), Edit(Disabled), OpenCircuit(0));
  }

  // ---------- the dead end ----------

  /** PAUSED with a CLOSED circuit: fan-out passes the endpoint over and no probe ever matches it. */
  predicate IsDeadEnd(e: Endpoint) {
    e.status == Paused && e.circuitState == Closed
  }

  /** One step leads into the dead end exactly if a success is recorded on a PAUSED endpoint, or an edit pauses one with
      a CLOSED circuit. */
  lemma EnteringDeadEnd(c: Config, s: State, step: Step)
    requires Enabled(s, step) && !IsDeadEnd(s.endpoint)
    ensures IsDeadEnd(Next(c, s, step).endpoint)
       <==> || (step.Succeed? && s.endpoint.status == Paused)
            || (step == Edit(Paused) && s.endpoint.circuitState == Closed)
  {
  }

  /** Two workers get there without any edit: the success of one is recorded after the failure of the other has opened
      the circuit. */
  lemma DeadEndIsReached(resetMs: int)
    ensures var c := Config(1, resetMs);
            var steps := [Read(0), Read(1), Fail(0), OpenCircuit(0), Succeed(1)];
            && IsRun(c, INITIAL, steps)
            && IsDeadEnd(Final(c, INITIAL, steps).endpoint) && AllIdle(Final(c, INITIAL, steps))
  {
    var c := Config(1, resetMs);
    RunOfFour(c, Next(c, INITIAL, Read(0)), Read(1), Fail(0), OpenCircuit(0), Succeed(1));
    Prepend(c, INITIAL, Read(0), [Read(1), Fail(0), OpenCircuit(0), Succeed(1)]);
    assert [Read(0)] + [Read(1), Fail(0), OpenCircuit(0), Succeed(1)]
        == [Read(0), Read(1), Fail(0), OpenCircuit(0), Succeed(1)];
  }

  /** There is no way out but an edit or a job that was already queued: otherwise the endpoint never changes again, and
      at no time does fan-out select it or a probe match it. */
  lemma {:induction false} DeadEndStays(c: Config, s: State, steps: seq<Step>)
    requires IsDeadEnd(s.endpoint) && AllIdle(s) && IsRun(c, s, steps)
    requires forall i :: 0 <= i < |steps| ==> !steps[i].Edit? && !steps[i].Read?
    ensures var t := Final(c, s, steps);
            t.endpoint == s.endpoint && AllIdle(t) && !IsSelected(t.endpoint) && !ProbeMatches(c, t.endpoint, t.now)
    decreases |steps|
  {
    if steps == [] {
    } else {
      DeadEndStays(c, Next(c, s, steps[0]), steps[1..]);
    }
  }
}
