/** The Redis throttler: a hit counter with a window and a block key, and what they admit over timed runs. */
module Throttler {
  import opened Wrappers

  const MS_PER_SECOND := 1_000

  /** A key of Redis with the time it expires at, all in milliseconds. */
  datatype Entry = Entry(count: int, deadline: int)

  datatype Params = Params(ttl: nat, limit: nat, blockDuration: nat)

  datatype Record = Record(totalHits: int, timeToExpire: int, isBlocked: bool, timeToBlockExpire: int)

  /** What is stored for one throttled key. */
  datatype Counter = Counter(hits: Option<Entry>, block: Option<Entry>)

  const EMPTY := Counter(None, None)

  predicate Live(e: Option<Entry>, now: int) {
    e.Some? && now < e.value.deadline
  }

  /** Math.ceil of milliseconds over a thousand. */
  function MsToSeconds(ms: int): int {
    (ms + 999) / MS_PER_SECOND
  }

  /** INCR, and PEXPIRE when the counter starts. */
  function Hit(p: Params, hits: Option<Entry>, now: int): Entry {
    if Live(hits, now) then hits.value.(count := hits.value.count + 1) else Entry(1, now + p.ttl)
  }

  function Admit(p: Params, c: Counter, now: int): (Counter, Record) {
    if Live(c.block, now) then
      var blockTtl := MsToSeconds(c.block.value.deadline - now);
      (c, Record(if Live(c.hits, now) then c.hits.value.count else p.limit + 1, blockTtl, true, blockTtl))
    else
      var hit := Hit(p, c.hits, now);
      var remaining := if hit.deadline > now then hit.deadline - now else p.ttl;
      if hit.count > p.limit && p.blockDuration > 0 then
        (Counter(Some(hit), Some(Entry(hit.count, now + p.blockDuration))),
         Record(hit.count, MsToSeconds(remaining), true, MsToSeconds(p.blockDuration)))
      else
        (Counter(Some(hit), c.block), Record(hit.count, MsToSeconds(remaining), false, 0))
  }

  // ---------- the storage ----------

  function HitKey(throttlerName: string, key: string): string {
    "throttle:" + throttlerName + ":" + key
  }

  function BlockKey(throttlerName: string, key: string): string {
    "throttle:" + throttlerName + ":" + key + ":blocked"
  }

  function Get(redis: map<string, Entry>, key: string): Option<Entry> {
    if key in redis then Some(redis[key]) else None
  }

  function CounterAt(redis: map<string, Entry>, throttlerName: string, key: string): Counter {
    Counter(Get(redis, HitKey(throttlerName, key)), Get(redis, BlockKey(throttlerName, key)))
  }

  /** Two clients, told apart by what follows the namespace. */
  predicate Separate(name: string, key: string, name': string, key': string) {
    var a, b := name + ":" + key, name' + ":" + key';
    a != b && a != b + ":blocked" && b != a + ":blocked"
  }

  /** Two clients share no stored key exactly if they are separate. */
  lemma SharedKeysExactly(name: string, key: string, name': string, key': string)
    ensures Separate(name, key, name', key')
       <==> && HitKey(name, key) != HitKey(name', key') && HitKey(name, key) != BlockKey(name', key')
            && BlockKey(name, key) != HitKey(name', key') && BlockKey(name, key) != BlockKey(name', key')
  {
    var a, b := name + ":" + key, name' + ":" + key';
    KeyParts(name, key);
    KeyParts(name', key');
    assert a == HitKey(name, key)[9..] && b == HitKey(name', key')[9..];
    assert a + ":blocked" == BlockKey(name, key)[9..] && b + ":blocked" == BlockKey(name', key')[9..];
    assert a == (a + ":blocked")[..|a|] && b == (b + ":blocked")[..|b|];
  }

  lemma KeyParts(name: string, key: string)
    ensures HitKey(name, key) == "throttle:" + (name + ":" + key)
    ensures BlockKey(name, key) == "throttle:" + ((name + ":" + key) + ":blocked")
  {
  }

  /** One throttled request: who asks, what is configured, and when. */
  datatype Call = Call(throttlerName: string, key: string, params: Params, now: int)

  function Put(redis: map<string, Entry>, key: string, e: Option<Entry>): map<string, Entry> {
    if e.None? then redis else redis[key := e.value]
  }

  function CallStep(redis: map<string, Entry>, call: Call): (map<string, Entry>, Record) {
    var (c, record) := Admit(call.params, CounterAt(redis, call.throttlerName, call.key), call.now);
    (Put(Put(redis, HitKey(call.throttlerName, call.key), c.hits), BlockKey(call.throttlerName, call.key), c.block), record)
  }

  /** Whoever changes the keys of one client only leaves all separate clients their counters. */
  lemma OtherClients(before: map<string, Entry>, after: map<string, Entry>, name: string, key: string)
    requires forall k :: k != HitKey(name, key) && k != BlockKey(name, key) ==> Get(after, k) == Get(before, k)
    ensures forall name', key' :: Separate(name, key, name', key') ==>
                                    CounterAt(after, name', key') == CounterAt(before, name', key')
    ensures forall key' :: key' != key && key' != key + ":blocked" && key != key' + ":blocked" ==>
                             CounterAt(after, name, key') == CounterAt(before, name, key')
  {
    forall name', key' | Separate(name, key, name', key')
      ensures CounterAt(after, name', key') == CounterAt(before, name', key')
    {
      SharedKeysExactly(name, key, name', key');
    }
    forall key' | key' != key && key' != key + ":blocked" && key != key' + ":blocked"
      ensures CounterAt(after, name, key') == CounterAt(before, name, key')
    {
      var n, a, b := |name| + 1, name + ":" + key, name + ":" + key';
      assert a[n..] == key && b[n..] == key';
      assert (a + ":blocked")[n..] == key + ":blocked" && (b + ":blocked")[n..] == key' + ":blocked";
      assert Separate(name, key, name, key');
    }
  }

  /** The new counter of the caller, and nothing else, makes the new store. */
  lemma StoreAfter(before: map<string, Entry>, after: map<string, Entry>, call: Call)
    requires CounterAt(after, call.throttlerName, call.key)
          == Admit(call.params, CounterAt(before, call.throttlerName, call.key), call.now).0
    requires forall k :: k != HitKey(call.throttlerName, call.key) && k != BlockKey(call.throttlerName, call.key) ==>
                           Get(after, k) == Get(before, k)
    ensures after == CallStep(before, call).0
  {
    var hitKey, blockKey := HitKey(call.throttlerName, call.key), BlockKey(call.throttlerName, call.key);
    assert |hitKey| < |blockKey|;
    var stored := CallStep(before, call).0;
    forall k
      ensures Get(after, k) == Get(stored, k)
    {
      assert k != hitKey && k != blockKey ==> Get(after, k) == Get(before, k);
    }
    SameStores(after, stored);
  }

  lemma SameStores(a: map<string, Entry>, b: map<string, Entry>)
    requires forall k :: Get(a, k) == Get(b, k)
    ensures a == b
  {
    assert forall k :: k in a ==> Get(a, k).Some?;
    assert forall k :: k in b ==> Get(b, k).Some?;
  }

  class RedisThrottlerStorage {
    var redis: map<string, Entry>

    constructor ()
      ensures redis == map[]
    {
      redis := map[];
    }

    function CounterOf(throttlerName: string, key: string): Counter
      reads this
    {
      CounterAt(redis, throttlerName, key)
    }

    method Increment(key: string, ttl: nat, limit: nat, blockDuration: nat, throttlerName: string, now: int)
      returns (r: Record)
      modifies this
      ensures (CounterOf(throttlerName, key), r)
           == Admit(Params(ttl, limit, blockDuration), old(CounterOf(throttlerName, key)), now)
      ensures redis == CallStep(old(redis), Call(throttlerName, key, Params(ttl, limit, blockDuration), now)).0
      ensures forall name', key' :: Separate(throttlerName, key, name', key') ==>
                                      CounterOf(name', key') == old(CounterOf(name', key'))
      ensures forall key' :: key' != key && key' != key + ":blocked" && key != key' + ":blocked" ==>
                               CounterOf(throttlerName, key') == old(CounterOf(throttlerName, key'))
    {
      r := Count(key, ttl, limit, blockDuration, throttlerName, now);
      StoreAfter(old(redis), redis, Call(throttlerName, key, Params(ttl, limit, blockDuration), now));
      OtherClients(old(redis), redis, throttlerName, key);
    }

    /** The commands of one increment. */
    method Count(key: string, ttl: nat, limit: nat, blockDuration: nat, throttlerName: string, now: int)
      returns (r: Record)
      modifies this
      ensures (CounterOf(throttlerName, key), r)
           == Admit(Params(ttl, limit, blockDuration), old(CounterOf(throttlerName, key)), now)
      ensures forall k :: k != HitKey(throttlerName, key) && k != BlockKey(throttlerName, key) ==>
                            Get(redis, k) == Get(old(redis), k)
    {
      var hitKey, blockKey := HitKey(throttlerName, key), BlockKey(throttlerName, key);
      assert |hitKey| < |blockKey|;
      var blockTtl := PTtl(blockKey, now);
      if blockTtl > 0 {
        var totalHits := limit + 1;
        if Live(Get(redis, hitKey), now) {
          totalHits := redis[hitKey].count;
        }
        return Record(totalHits, MsToSeconds(blockTtl), true, MsToSeconds(blockTtl));
      }
      if Live(Get(redis, hitKey), now) {
        redis := redis[hitKey := redis[hitKey].(count := redis[hitKey].count + 1)];
      } else {
        redis := redis[hitKey := Entry(1, now + ttl)];
      }
      var totalHits := redis[hitKey].count;
      var remaining := PTtl(hitKey, now);
      var timeToExpire := MsToSeconds(if remaining > 0 then remaining else ttl);
      if totalHits > limit && blockDuration > 0 {
        redis := redis[blockKey := Entry(totalHits, now + blockDuration)];
        return Record(totalHits, timeToExpire, true, MsToSeconds(blockDuration));
      }
      r := Record(totalHits, timeToExpire, false, 0);
    }

    /** PTTL: the remaining milliseconds, -2 for a missing key. */
    method PTtl(key: string, now: int) returns (ms: int)
      ensures ms == if Live(Get(redis, key), now) then redis[key].deadline - now else -2
    {
      if key in redis && now < redis[key].deadline {
        ms := redis[key].deadline - now;
      } else {
        ms := -2;
      }
    }
  }

  // ---------- timed runs ----------

  /** One request of a run: when it came, the start of the hit window it fell into, and whether it was let through. */
  datatype Request = Request(time: int, window: int, allowed: bool)

  predicate Sorted(times: seq<int>) {
    forall i, j :: 0 <= i < j < |times| ==> times[i] <= times[j]
  }

  function WindowOf(p: Params, c: Counter): int {
    if c.hits.Some? then c.hits.value.deadline - p.ttl else 0
  }

  function After(p: Params, c: Counter, times: seq<int>): Counter
    decreases |times|
  {
    if times == [] then c else After(p, Admit(p, c, times[0]).0, times[1..])
  }

  function Run(p: Params, c: Counter, times: seq<int>): (r: seq<Request>)
    ensures |r| == |times|
    ensures forall i :: 0 <= i < |r| ==> r[i].time == times[i]
    decreases |times|
  {
    if times == [] then []
    else
      var (c', record) := Admit(p, c, times[0]);
      [Request(times[0], WindowOf(p, c'), !record.isBlocked)] + Run(p, c', times[1..])
  }

  function AllowedInWindow(requests: seq<Request>, window: int): nat {
    if requests == [] then 0
    else (if requests[0].allowed && requests[0].window == window then 1 else 0) + AllowedInWindow(requests[1..], window)
  }

  /** Requests let through at times from `from` up to but not including `to`. */
  function AllowedBetween(requests: seq<Request>, from: int, to: int): nat {
    if requests == [] then 0
    else
      (if requests[0].allowed && from <= requests[0].time < to then 1 else 0) + AllowedBetween(requests[1..], from, to)
  }

  // ---------- at most `limit` in a window ----------

  /** How much of the allowance of a window the counter has already used; windows of the past are used up. */
  function Used(p: Params, c: Counter, window: int): int {
    if c.hits == None then 0
    else if window < WindowOf(p, c) then p.limit
    else if window > WindowOf(p, c) then 0
    else if c.hits.value.count < p.limit then c.hits.value.count
    else p.limit
  }

  lemma HitUses(p: Params, c: Counter, now: int, window: int)
    requires p.ttl > 0 && p.blockDuration > 0
    requires c.hits.Some? ==> c.hits.value.count >= 1
    ensures var (c', record) := Admit(p, c, now);
            && Used(p, c, window) + (if !record.isBlocked && WindowOf(p, c') == window then 1 else 0) <= Used(p, c', window)
            && (c'.hits.Some? ==> c'.hits.value.count >= 1)
  {
  }

  lemma {:induction false} WindowAllowance(p: Params, c: Counter, times: seq<int>, window: int)
    requires p.ttl > 0 && p.blockDuration > 0
    requires c.hits.Some? ==> c.hits.value.count >= 1
    ensures AllowedInWindow(Run(p, c, times), window) <= p.limit - Used(p, c, window)
    decreases |times|
  {
    if times == [] {
    } else {
      HitUses(p, c, times[0], window);
      WindowAllowance(p, Admit(p, c, times[0]).0, times[1..], window);
    }
  }

  // ---------- windows are disjoint ----------

  predicate InWindow(p: Params, r: Request) {
    r.window <= r.time < r.window + p.ttl
  }

  predicate Apart(p: Params, w: int, w': int) {
    w == w' || w + p.ttl <= w'
  }

  lemma HitWindow(p: Params, c: Counter, now: int)
    requires p.ttl > 0 && (c.hits.Some? ==> WindowOf(p, c) <= now)
    ensures var (c', record) := Admit(p, c, now);
            && (!record.isBlocked ==> WindowOf(p, c') <= now < WindowOf(p, c') + p.ttl)
            && (c'.hits.Some? ==> WindowOf(p, c') <= now)
            && (c.hits.Some? ==> c'.hits.Some? && Apart(p, WindowOf(p, c), WindowOf(p, c')))
            && (!record.isBlocked ==> c'.hits.Some?)
  {
  }

  /** Every admitted request lies in its window, and windows of admitted requests are equal or in succession. */
  ghost predicate Windowed(p: Params, requests: seq<Request>) {
    && (forall i :: 0 <= i < |requests| && requests[i].allowed ==> InWindow(p, requests[i]))
    && forall i, j :: 0 <= i < j < |requests| && requests[i].allowed && requests[j].allowed ==>
                        Apart(p, requests[i].window, requests[j].window)
  }

  ghost predicate AllApartFrom(p: Params, window: int, requests: seq<Request>) {
    forall i :: 0 <= i < |requests| && requests[i].allowed ==> Apart(p, window, requests[i].window)
  }

  lemma WindowedPrepend(p: Params, first: Request, rest: seq<Request>)
    requires Windowed(p, rest)
    requires first.allowed ==> InWindow(p, first) && AllApartFrom(p, first.window, rest)
    ensures Windowed(p, [first] + rest)
  {
    var r := [first] + rest;
    assert forall i :: 0 < i < |r| ==> r[i] == rest[i - 1];
  }

  lemma ApartPrepend(p: Params, window: int, next: int, first: Request, rest: seq<Request>)
    requires p.ttl > 0 && Apart(p, window, next) && AllApartFrom(p, next, rest)
    requires first.allowed ==> first.window == next
    ensures AllApartFrom(p, window, [first] + rest)
  {
    var r := [first] + rest;
    forall i | 0 <= i < |r| && r[i].allowed
      ensures Apart(p, window, r[i].window)
    {
      if i > 0 {
        assert r[i] == rest[i - 1] && Apart(p, next, rest[i - 1].window);
      }
    }
  }

  lemma {:induction false} WindowsApart(p: Params, c: Counter, times: seq<int>)
    requires p.ttl > 0 && Sorted(times)
    requires c.hits.Some? && times != [] ==> WindowOf(p, c) <= times[0]
    ensures Windowed(p, Run(p, c, times))
    ensures c.hits.Some? ==> AllApartFrom(p, WindowOf(p, c), Run(p, c, times))
    decreases |times|
  {
    if times == [] {
    } else {
      var (c', record) := Admit(p, c, times[0]);
      HitWindow(p, c, times[0]);
      WindowsApart(p, c', times[1..]);
      var first := Request(times[0], WindowOf(p, c'), !record.isBlocked);
      WindowedPrepend(p, first, Run(p, c', times[1..]));
      if c.hits.Some? {
        ApartPrepend(p, WindowOf(p, c), WindowOf(p, c'), first, Run(p, c', times[1..]));
      }
    }
  }

  // ---------- at most twice the limit in any interval of one window's length ----------

  lemma {:induction false} CoveredByTwoWindows(requests: seq<Request>, from: int, to: int, w: int, w': int)
    requires forall i :: 0 <= i < |requests| && requests[i].allowed && from <= requests[i].time < to ==>
                           requests[i].window == w || requests[i].window == w'
    ensures AllowedBetween(requests, from, to) <= AllowedInWindow(requests, w) + AllowedInWindow(requests, w')
  {
    if requests == [] {
    } else {
      CoveredByTwoWindows(requests[1..], from, to, w, w');
    }
  }

  ghost predicate Between(requests: seq<Request>, i: int, from: int, to: int) {
    0 <= i < |requests| && requests[i].allowed && from <= requests[i].time < to
  }

  lemma {:induction false} NoneBetween(requests: seq<Request>, from: int, to: int)
    requires forall i :: !Between(requests, i, from, to)
    ensures AllowedBetween(requests, from, to) == 0
  {
    if requests == [] {
    } else {
      assert !Between(requests, 0, from, to);
      forall i
        ensures !Between(requests[1..], i, from, to)
      {
        assert !Between(requests, i + 1, from, to);
      }
      NoneBetween(requests[1..], from, to);
    }
  }

  /** Three windows that pairwise lie apart cannot all meet one interval of a window's length. */
  lemma NoThirdWindow(p: Params, from: int, x: Request, y: Request, z: Request)
    requires InWindow(p, x) && InWindow(p, y) && InWindow(p, z)
    requires from <= x.time < from + p.ttl && from <= y.time < from + p.ttl && from <= z.time < from + p.ttl
    requires Apart(p, x.window, y.window) || Apart(p, y.window, x.window)
    requires Apart(p, y.window, z.window) || Apart(p, z.window, y.window)
    requires Apart(p, x.window, z.window) || Apart(p, z.window, x.window)
    ensures x.window == y.window || y.window == z.window || x.window == z.window
  {
  }

  lemma ThreeBetween(p: Params, requests: seq<Request>, from: int, i: int, j: int, k: int)
    requires Windowed(p, requests)
    requires Between(requests, i, from, from + p.ttl) && Between(requests, j, from, from + p.ttl)
    requires Between(requests, k, from, from + p.ttl)
    ensures requests[i].window == requests[j].window || requests[k].window == requests[i].window
            || requests[k].window == requests[j].window
  {
    if i != j && j != k && i != k {
      NoThirdWindow(p, from, requests[i], requests[j], requests[k]);
    }
  }

  lemma TwoWindowsCover(p: Params, requests: seq<Request>, from: int) returns (w: int, w': int)
    requires Windowed(p, requests)
    ensures forall i :: Between(requests, i, from, from + p.ttl) ==>
                          requests[i].window == w || requests[i].window == w'
  {
    var to := from + p.ttl;
    w, w' := 0, 0;
    if i :| Between(requests, i, from, to) {
      w, w' := requests[i].window, requests[i].window;
      if j :| Between(requests, j, from, to) && requests[j].window != w {
        w' := requests[j].window;
        forall k | Between(requests, k, from, to)
          ensures requests[k].window == w || requests[k].window == w'
        {
          ThreeBetween(p, requests, from, i, j, k);
        }
      }
    }
  }

  /** Over any timed run on one key: every hit window lets at most `limit` requests through, and every half-open
      interval as long as the window at most twice as many. */
  lemma AdmissionBounds(p: Params, times: seq<int>, window: int, from: int)
    requires p.ttl > 0 && p.blockDuration > 0 && Sorted(times)
    ensures AllowedInWindow(Run(p, EMPTY, times), window) <= p.limit
    ensures AllowedBetween(Run(p, EMPTY, times), from, from + p.ttl) <= 2 * p.limit
  {
    WindowAllowance(p, EMPTY, times, window);
    WindowsApart(p, EMPTY, times);
    var r := Run(p, EMPTY, times);
    var w, w' := TwoWindowsCover(p, r, from);
    forall i | 0 <= i < |r| && r[i].allowed && from <= r[i].time < from + p.ttl
      ensures r[i].window == w || r[i].window == w'
    {
      assert Between(r, i, from, from + p.ttl);
    }
    WindowAllowance(p, EMPTY, times, w);
    WindowAllowance(p, EMPTY, times, w');
    CoveredByTwoWindows(r, from, from + p.ttl, w, w');
  }

  // ---------- silence lifts every restriction ----------

  /** Nothing stored outlives the last request by more than a window or a block. */
  predicate ExpiresSoon(p: Params, c: Counter, last: int) {
    && (c.hits.Some? ==> c.hits.value.deadline <= last + p.ttl)
    && (c.block.Some? ==> c.block.value.deadline <= last + p.blockDuration)
  }

  lemma {:induction false} RunExpiresSoon(p: Params, c: Counter, last: int, times: seq<int>)
    requires ExpiresSoon(p, c, last) && Sorted(times) && (times != [] ==> last <= times[0])
    ensures ExpiresSoon(p, After(p, c, times), if times == [] then last else times[|times| - 1])
    decreases |times|
  {
    if times == [] {
    } else {
      RunExpiresSoon(p, Admit(p, c, times[0]).0, times[0], times[1..]);
    }
  }

  /** After a silence of the longer of window and block, the next request is let through. */
  lemma SilenceRestoresAccess(p: Params, times: seq<int>, now: int)
    requires p.limit >= 1 && Sorted(times)
    requires times != [] ==> now >= times[|times| - 1] + p.ttl && now >= times[|times| - 1] + p.blockDuration
    ensures !Admit(p, After(p, EMPTY, times), now).1.isBlocked
  {
    RunExpiresSoon(p, EMPTY, if times == [] then now else times[0], times);
  }

  // ---------- what a refusal promises ----------

  /** A block stands only on a window that has gone over the limit, or has ended before the window began. */
  predicate BlockIsEarned(p: Params, c: Counter, last: int) {
    && (c.hits.Some? ==> WindowOf(p, c) <= last)
    && (c.block.Some? ==> c.hits.Some? && (c.hits.value.count > p.limit || c.block.value.deadline <= WindowOf(p, c)))
  }

  lemma {:induction false} RunEarnsBlocks(p: Params, c: Counter, last: int, times: seq<int>)
    requires p.ttl > 0 && BlockIsEarned(p, c, last) && Sorted(times) && (times != [] ==> last <= times[0])
    ensures BlockIsEarned(p, After(p, c, times), if times == [] then last else times[|times| - 1])
    decreases |times|
  {
    if times == [] {
    } else {
      RunEarnsBlocks(p, Admit(p, c, times[0]).0, times[0], times[1..]);
    }
  }

  /** A refusal for n seconds is honest to the second: until n − 1 seconds have passed every request is refused; after n
      seconds of silence a request is refused again if and only if the hit window still runs and is full. */
  lemma BlockLasts(p: Params, times: seq<int>, now: int, later: int)
    requires p.ttl > 0 && p.blockDuration > 0 && Sorted(times)
    requires times != [] ==> times[|times| - 1] <= now
    requires Admit(p, After(p, EMPTY, times), now).1.isBlocked && now <= later
    ensures var (c, refusal) := Admit(p, After(p, EMPTY, times), now);
            var n, again := refusal.timeToBlockExpire, Admit(p, c, later).1.isBlocked;
            && n >= 1
            && (later <= now + (n - 1) * 1_000 ==> again)
            && (later >= now + n * 1_000 ==> (again <==> Live(c.hits, later) || p.limit == 0))
  {
    RunEarnsBlocks(p, EMPTY, if times == [] then now else times[0], times);
  }

  // ---------- without a block duration nothing is limited ----------

  lemma {:induction false} BurstWithoutBlock(p: Params, c: Counter, n: nat)
    requires p.ttl > 0 && p.blockDuration == 0 && c.block == None
    requires c.hits.Some? ==> WindowOf(p, c) == 0
    ensures AllowedInWindow(Run(p, c, seq(n, i => 0)), 0) == n
    decreases n
  {
    if n == 0 {
    } else {
      var times := seq(n, i => 0);
      assert times[1..] == seq(n - 1, i => 0);
      BurstWithoutBlock(p, Admit(p, c, 0).0, n - 1);
    }
  }

  /** The bound on a window holds for every run exactly when blocking is switched on. */
  lemma WindowBoundNeedsBlocking(p: Params)
    requires p.ttl > 0
    ensures p.blockDuration > 0
       <==> forall times, window :: Sorted(times) ==> AllowedInWindow(Run(p, EMPTY, times), window) <= p.limit
  {
    if p.blockDuration > 0 {
      forall times, window | Sorted(times)
        ensures AllowedInWindow(Run(p, EMPTY, times), window) <= p.limit
      {
        AdmissionBounds(p, times, window, 0);
      }
    } else {
      BurstWithoutBlock(p, EMPTY, p.limit + 1);
      assert Sorted(seq(p.limit + 1, i => 0));
    }
  }
}
