/** What the throttler answers, outright, and to several clients at once. */
module ThrottlerClients {
  import opened Wrappers
  import opened Throttler

  /** `seconds` is `ms` rounded up to whole seconds. */
  predicate RoundedUp(seconds: int, ms: int) {
    (seconds - 1) * 1_000 < ms <= seconds * 1_000
  }

  /** One answer, outright. Under a block nothing is counted. Otherwise the request is counted in its window, refused
      exactly if the window is over the limit and blocking is on, and then the block starts; every time reported is
      rounded up. */
  lemma AnswerIsExact(p: Params, c: Counter, now: int)
    requires p.ttl > 0
    ensures var (c', r) := Admit(p, c, now);
            if c.block.Some? && now < c.block.value.deadline then
              && c' == c && r.isBlocked && r.timeToExpire == r.timeToBlockExpire
              && RoundedUp(r.timeToBlockExpire, c.block.value.deadline - now)
            else
              var open := c.hits.Some? && now < c.hits.value.deadline;
              && r.totalHits == (if open then c.hits.value.count + 1 else 1)
              && c'.hits == Some(Entry(r.totalHits, if open then c.hits.value.deadline else now + p.ttl))
              && RoundedUp(r.timeToExpire, c'.hits.value.deadline - now)
              && (r.isBlocked <==> r.totalHits > p.limit && p.blockDuration > 0)
              && (r.isBlocked ==> && c'.block == Some(Entry(r.totalHits, now + p.blockDuration))
                                  && RoundedUp(r.timeToBlockExpire, p.blockDuration))
              && (!r.isBlocked ==> c'.block == c.block && r.timeToBlockExpire == 0)
  {
  }

  // ---------- clients do not count for each other ----------

  predicate IsBy(call: Call, name: string, key: string) {
    call.throttlerName == name && call.key == key
  }

  function Only(calls: seq<Call>, name: string, key: string): seq<Call> {
    if calls == [] then []
    else (if IsBy(calls[0], name, key) then [calls[0]] else []) + Only(calls[1..], name, key)
  }

  /** The answers one client gets in a run of calls by anybody. */
  function AnswersTo(redis: map<string, Entry>, calls: seq<Call>, name: string, key: string): seq<Record>
    decreases |calls|
  {
    if calls == [] then []
    else
      var (redis', record) := CallStep(redis, calls[0]);
      (if IsBy(calls[0], name, key) then [record] else []) + AnswersTo(redis', calls[1..], name, key)
  }

  /** The answers to calls on one counter that nobody else touches. */
  function Alone(c: Counter, calls: seq<Call>): (r: seq<Record>)
    ensures |r| == |calls|
    decreases |calls|
  {
    if calls == [] then []
    else
      var (c', record) := Admit(calls[0].params, c, calls[0].now);
      [record] + Alone(c', calls[1..])
  }

  predicate OthersSeparate(calls: seq<Call>, name: string, key: string) {
    forall i :: 0 <= i < |calls| ==>
                  IsBy(calls[i], name, key) || Separate(calls[i].throttlerName, calls[i].key, name, key)
  }

  lemma OwnCall(redis: map<string, Entry>, call: Call)
    ensures CounterAt(CallStep(redis, call).0, call.throttlerName, call.key)
         == Admit(call.params, CounterAt(redis, call.throttlerName, call.key), call.now).0
  {
    assert |HitKey(call.throttlerName, call.key)| < |BlockKey(call.throttlerName, call.key)|;
  }

  lemma OthersCall(redis: map<string, Entry>, call: Call, name: string, key: string)
    requires Separate(call.throttlerName, call.key, name, key)
    ensures CounterAt(CallStep(redis, call).0, name, key) == CounterAt(redis, name, key)
  {
    SharedKeysExactly(call.throttlerName, call.key, name, key);
  }

  /** However the calls of separate clients interleave, each client gets the answers to its own calls alone. */
  lemma {:induction false} ClientsAreIndependent(redis: map<string, Entry>, calls: seq<Call>, name: string, key: string)
    requires OthersSeparate(calls, name, key)
    ensures AnswersTo(redis, calls, name, key) == Alone(CounterAt(redis, name, key), Only(calls, name, key))
    decreases |calls|
  {
    if calls == [] {
    } else {
      var redis' := CallStep(redis, calls[0]).0;
      ClientsAreIndependent(redis', calls[1..], name, key);
      if IsBy(calls[0], name, key) {
        OwnCall(redis, calls[0]);
        assert Only(calls, name, key) == [calls[0]] + Only(calls[1..], name, key);
      } else {
        OthersCall(redis, calls[0], name, key);
        assert Only(calls, name, key) == Only(calls[1..], name, key);
        assert AnswersTo(redis, calls, name, key) == AnswersTo(redis', calls[1..], name, key);
      }
    }
  }

  function Times(calls: seq<Call>): seq<int>
  {
    seq(|calls|, i requires 0 <= i < |calls| => calls[i].now)
  }

  lemma {:induction false} AloneIsRun(p: Params, c: Counter, calls: seq<Call>)
    requires forall i :: 0 <= i < |calls| ==> calls[i].params == p
    ensures forall i :: 0 <= i < |calls| ==> Alone(c, calls)[i].isBlocked == !Run(p, c, Times(calls))[i].allowed
    decreases |calls|
  {
    if calls == [] {
    } else {
      AloneIsRun(p, Admit(p, c, calls[0].now).0, calls[1..]);
      assert Times(calls)[1..] == Times(calls[1..]);
    }
  }

  /** In particular each client of a fresh store is let through and refused exactly as in a timed run of its own. */
  lemma EachClientHasItsOwnRun(p: Params, calls: seq<Call>, name: string, key: string)
    requires OthersSeparate(calls, name, key)
    requires forall i :: 0 <= i < |Only(calls, name, key)| ==> Only(calls, name, key)[i].params == p
    ensures var answers, requests := AnswersTo(map[], calls, name, key), Run(p, EMPTY, Times(Only(calls, name, key)));
            && |answers| == |requests|
            && forall i :: 0 <= i < |answers| ==> answers[i].isBlocked == !requests[i].allowed
  {
    ClientsAreIndependent(map[], calls, name, key);
    AloneIsRun(p, EMPTY, Only(calls, name, key));
  }

  // ---------- nobody is refused without reason ----------

  /** How many of the times are not before `from`. */
  function CountFrom(times: seq<int>, from: int): nat {
    if times == [] then 0
    else CountFrom(times[..|times| - 1], from) + if times[|times| - 1] >= from then 1 else 0
  }

  lemma {:induction false} CountFromMonotone(times: seq<int>, from: int, from': int)
    requires from <= from'
    ensures CountFrom(times, from') <= CountFrom(times, from)
  {
    if times == [] {
    } else {
      CountFromMonotone(times[..|times| - 1], from, from');
    }
  }

  lemma CountFromSnoc(times: seq<int>, last: int, from: int)
    ensures CountFrom(times + [last], from) == CountFrom(times, from) + if last >= from then 1 else 0
  {
    assert (times + [last])[..|times|] == times;
  }

  /** No stretch of one window's length up to a request holds more than `limit` requests. */
  predicate IsModest(p: Params, past: seq<int>, times: seq<int>)
    decreases |times|
  {
    times == []
    || (&& CountFrom(past + [times[0]], times[0] - p.ttl + 1) <= p.limit
        && IsModest(p, past + [times[0]], times[1..]))
  }

  lemma {:induction false} ModestRun(p: Params, c: Counter, past: seq<int>, times: seq<int>)
    requires p.ttl > 0 && IsModest(p, past, times)
    requires c.block == None && (c.hits.Some? ==> c.hits.value.count <= CountFrom(past, WindowOf(p, c)))
    requires c.hits.Some? && times != [] ==> WindowOf(p, c) <= times[0]
    requires Sorted(times)
    ensures forall i :: 0 <= i < |times| ==> Run(p, c, times)[i].allowed
    decreases |times|
  {
    if times == [] {
    } else {
      var now := times[0];
      var (c', record) := Admit(p, c, now);
      var window := WindowOf(p, c');
      CountFromSnoc(past, now, window);
      CountFromMonotone(past + [now], now - p.ttl + 1, window);
      ModestRun(p, c', past + [now], times[1..]);
    }
  }

  /** A client that never asks more than `limit` times within one window's length is never refused. */
  lemma ModestClientsAreNeverRefused(p: Params, times: seq<int>)
    requires p.ttl > 0 && Sorted(times) && IsModest(p, [], times)
    ensures forall i :: 0 <= i < |times| ==> Run(p, EMPTY, times)[i].allowed
  {
    ModestRun(p, EMPTY, [], times);
  }
}
