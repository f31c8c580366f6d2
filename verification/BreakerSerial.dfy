/** The breaker when deliveries do not overlap: the endpoint row is a function of the history of outcomes. */
module BreakerSerial {
  import opened Wrappers
  import opened Breaker

  /** One HTTP attempt with its recorded outcome. */
  datatype Attempt = Attempt(time: int, ok: bool)

  datatype Step = Deliver(ok: bool) | Probe | Edit(status: EndpointStatus) | Tick(ms: nat)

  // ---------- the row as the code keeps it ----------

  datatype State = State(now: int, endpoint: Endpoint, history: seq<Attempt>)

  const INITIAL := State(0, NEW_ENDPOINT, [])

  predicate Attempts(s: State) {
    s.endpoint.status != Disabled && ShouldDeliver(s.endpoint)
  }

  function Recorded(c: Config, e: Endpoint, ok: bool, now: int): Endpoint {
    if ok then Succeeded(e)
    else if e.circuitState == HalfOpen then HalfOpenFailed(e, now)
    else Failed(c, e, now)
  }

  function Next(c: Config, s: State, step: Step): State {
    match step
    case Deliver(ok) =>
      if !Attempts(s) then s
      else s.(endpoint := Recorded(c, s.endpoint, ok, s.now), history := s.history + [Attempt(s.now, ok)])
    case Probe => s.(endpoint := Probed(c, s.endpoint, s.now))
    case Edit(status) => s.(endpoint := s.endpoint.(status := status))
    case Tick(ms) => s.(now := s.now + ms)
  }

  function Final(c: Config, s: State, steps: seq<Step>): State
    decreases |steps|
  {
    if steps == [] then s else Final(c, Next(c, s, steps[0]), steps[1..])
  }

  // ---------- the simple breaker on the history ----------

  /** How many attempts at the end of the history failed. */
  function TrailingFailures(history: seq<Attempt>): (n: nat)
    ensures n <= |history|
  {
    if history == [] || history[|history| - 1].ok then 0
    else 1 + TrailingFailures(history[..|history| - 1])
  }

  /** `probed`: a probe has let one more attempt through since the last attempt. */
  datatype Abstract = Abstract(now: int, history: seq<Attempt>, probed: bool, status: EndpointStatus)

  const ABSTRACT_INITIAL := Abstract(0, [], false, Active)

  predicate Broken(c: Config, a: Abstract) {
    TrailingFailures(a.history) >= c.threshold
  }

  function LastTime(history: seq<Attempt>): int {
    if history == [] then 0 else history[|history| - 1].time
  }

  predicate Admits(c: Config, a: Abstract) {
    a.status != Disabled && (!Broken(c, a) || a.probed)
  }

  function AbstractNext(c: Config, a: Abstract, step: Step): Abstract {
    match step
    case Deliver(ok) =>
      if !Admits(c, a) then a
      else
        var b := a.(history := a.history + [Attempt(a.now, ok)], probed := false);
        if !Broken(c, a) && Broken(c, b) then b.(status := Paused) else b
    case Probe =>
      if Broken(c, a) && !a.probed && a.now > LastTime(a.history) + c.resetMs && a.status != Disabled
      then a.(probed := true, status := Active) else a
    case Edit(status) => a.(status := status)
    case Tick(ms) => a.(now := a.now + ms)
  }

  function AbstractFinal(c: Config, a: Abstract, steps: seq<Step>): Abstract
    decreases |steps|
  {
    if steps == [] then a else AbstractFinal(c, AbstractNext(c, a, steps[0]), steps[1..])
  }

  /** The row that the history stands for. */
  function Row(c: Config, a: Abstract): Endpoint {
    var n := TrailingFailures(a.history);
    Endpoint(
      a.status,
      n,
      if !Broken(c, a) then Closed else if a.probed then HalfOpen else Open,
      if Broken(c, a) then Some(LastTime(a.history)) else None,
      if n > 0 then Some(LastTime(a.history)) else None)
  }

  predicate Represents(c: Config, a: Abstract, s: State) {
    && s.now == a.now
    && s.history == a.history
    && s.endpoint == Row(c, a)
    && (a.probed ==> Broken(c, a))
  }

  lemma TrailingAfter(history: seq<Attempt>, last: Attempt)
    ensures TrailingFailures(history + [last]) == if last.ok then 0 else TrailingFailures(history) + 1
    ensures LastTime(history + [last]) == last.time
  {
    assert (history + [last])[..|history|] == history;
  }

  lemma StepRefines(c: Config, a: Abstract, s: State, step: Step)
    requires c.threshold >= 1 && Represents(c, a, s)
    ensures Represents(c, AbstractNext(c, a, step), Next(c, s, step))
    ensures Attempts(s) <==> Admits(c, a)
  {
    if step.Deliver? {
      TrailingAfter(a.history, Attempt(a.now, step.ok));
    }
  }

  lemma {:induction false} RunRefines(c: Config, a: Abstract, s: State, steps: seq<Step>)
    requires c.threshold >= 1 && Represents(c, a, s)
    ensures Represents(c, AbstractFinal(c, a, steps), Final(c, s, steps))
    decreases |steps|
  {
    if steps == [] {
    } else {
      StepRefines(c, a, s, steps[0]);
      RunRefines(c, AbstractNext(c, a, steps[0]), Next(c, s, steps[0]), steps[1..]);
    }
  }

  /** Refinement: after any serial run the row is the one the history stands for. In particular the circuit is CLOSED
      if and only if fewer than `threshold` attempts in a row have failed, and the count is the length of that run. */
  lemma SerialBreakerRefinesHistory(c: Config, steps: seq<Step>)
    requires c.threshold >= 1
    ensures var s, a := Final(c, INITIAL, steps), AbstractFinal(c, ABSTRACT_INITIAL, steps);
            && s.history == a.history && s.endpoint == Row(c, a)
            && (s.endpoint.circuitState == Closed <==> TrailingFailures(s.history) < c.threshold)
            && s.endpoint.failureCount == TrailingFailures(s.history)
  {
    RunRefines(c, ABSTRACT_INITIAL, INITIAL, steps);
  }

  // ---------- pauses between attempts ----------

  /** While at least `threshold` attempts in a row have failed, the next one comes later than the reset interval. */
  ghost predicate Spaced(c: Config, history: seq<Attempt>) {
    forall i :: 0 < i < |history| && TrailingFailures(history[..i]) >= c.threshold ==>
                  history[i].time > history[i - 1].time + c.resetMs
  }

  ghost predicate SpacedSoFar(c: Config, a: Abstract) {
    && Spaced(c, a.history)
    && (a.probed ==> a.now > LastTime(a.history) + c.resetMs)
  }

  lemma StepKeepsSpacing(c: Config, a: Abstract, step: Step)
    requires c.threshold >= 1 && SpacedSoFar(c, a)
    ensures SpacedSoFar(c, AbstractNext(c, a, step))
  {
    var b := AbstractNext(c, a, step);
    if step.Deliver? && Admits(c, a) {
      forall i | 0 < i < |b.history| && TrailingFailures(b.history[..i]) >= c.threshold
        ensures b.history[i].time > b.history[i - 1].time + c.resetMs
      {
        if i < |a.history| {
          assert b.history[..i] == a.history[..i];
        } else {
          assert b.history[..i] == a.history;
        }
      }
    }
  }

  lemma {:induction false} RunKeepsSpacing(c: Config, a: Abstract, steps: seq<Step>)
    requires c.threshold >= 1 && SpacedSoFar(c, a)
    ensures Spaced(c, AbstractFinal(c, a, steps).history)
    decreases |steps|
  {
    if steps == [] {
    } else {
      StepKeepsSpacing(c, a, steps[0]);
      RunKeepsSpacing(c, AbstractNext(c, a, steps[0]), steps[1..]);
    }
  }

  /** In every serial run an open circuit is left alone for longer than the reset interval before each attempt. */
  lemma OpenCircuitIsLeftAlone(c: Config, steps: seq<Step>)
    requires c.threshold >= 1
    ensures Spaced(c, Final(c, INITIAL, steps).history)
  {
    RunRefines(c, ABSTRACT_INITIAL, INITIAL, steps);
    RunKeepsSpacing(c, ABSTRACT_INITIAL, steps);
  }

  /** HALF_OPEN admits exactly one attempt: it closes the circuit or opens it again, and then nothing is tried. */
  lemma HalfOpenAdmitsOneAttempt(c: Config, steps: seq<Step>, ok: bool, again: bool)
    requires c.threshold >= 1
    requires Final(c, INITIAL, steps).endpoint.circuitState == HalfOpen
    requires Final(c, INITIAL, steps).endpoint.status != Disabled
    ensures var s := Final(c, INITIAL, steps);
            var t := Next(c, s, Deliver(ok));
            && t.history == s.history + [Attempt(s.now, ok)]
            && t.endpoint.circuitState == (if ok then Closed else Open)
            && (!ok ==> Next(c, t, Deliver(again)) == t)
  {
    RunRefines(c, ABSTRACT_INITIAL, INITIAL, steps);
  }

  /** Without edits a DISABLED endpoint stays disabled and is never tried. */
  lemma {:induction false} DisabledIsSticky(c: Config, s: State, steps: seq<Step>)
    requires s.endpoint.status == Disabled
    requires forall i :: 0 <= i < |steps| ==> !steps[i].Edit?
    ensures Final(c, s, steps).endpoint.status == Disabled && Final(c, s, steps).history == s.history
    decreases |steps|
  {
    if steps == [] {
    } else {
      DisabledIsSticky(c, Next(c, s, steps[0]), steps[1..]);
    }
  }

  /** PAUSED means an open circuit unless an admin has paused the endpoint. */
  lemma {:induction false} PausedMeansOpen(c: Config, a: Abstract, steps: seq<Step>)
    requires c.threshold >= 1 && (a.status == Paused ==> Broken(c, a) && !a.probed)
    requires forall i :: 0 <= i < |steps| ==> steps[i] != Edit(Paused)
    ensures Row(c, AbstractFinal(c, a, steps)).status == Paused ==>
              Row(c, AbstractFinal(c, a, steps)).circuitState == Open
    decreases |steps|
  {
    if steps == [] {
    } else {
      if steps[0].Deliver? {
        TrailingAfter(a.history, Attempt(a.now, steps[0].ok));
      }
      PausedMeansOpen(c, AbstractNext(c, a, steps[0]), steps[1..]);
    }
  }

  lemma SerialPausedMeansOpen(c: Config, steps: seq<Step>)
    requires c.threshold >= 1 && forall i :: 0 <= i < |steps| ==> steps[i] != Edit(Paused)
    ensures Final(c, INITIAL, steps).endpoint.status == Paused ==> Final(c, INITIAL, steps).endpoint.circuitState == Open
  {
    RunRefines(c, ABSTRACT_INITIAL, INITIAL, steps);
    PausedMeansOpen(c, ABSTRACT_INITIAL, steps);
  }
}
