/** The webhook circuit breaker: the columns of an endpoint row and every write the services make to them. */
module Breaker {
  import opened Wrappers

  datatype EndpointStatus = Active | Paused | Disabled

  datatype CircuitState = Closed | Open | HalfOpen

  datatype Endpoint = Endpoint(
    status: EndpointStatus,
    failureCount: nat,
    circuitState: CircuitState,
    circuitOpenedAt: Option<int>,
    lastFailedAt: Option<int>)

  datatype Config = Config(threshold: nat, resetMs: int)

  const NEW_ENDPOINT := Endpoint(Active, 0, Closed, None, None)

  predicate ShouldDeliver(e: Endpoint) {
    e.circuitState == Closed || e.circuitState == HalfOpen
  }

  function Succeeded(e: Endpoint): Endpoint {
    e.(failureCount := 0, circuitState := Closed, circuitOpenedAt := None, lastFailedAt := None)
  }

  /** The first write of `recordFailure`. */
  function Counted(e: Endpoint, now: int): Endpoint {
    e.(failureCount := e.failureCount + 1, lastFailedAt := Some(now))
  }

  /** Its decision, on the row that the first write returned. */
  predicate MustOpen(c: Config, e: Endpoint) {
    e.failureCount >= c.threshold && e.circuitState != Open
  }

  /** The second write of `recordFailure`. */
  function Opened(e: Endpoint, now: int): Endpoint {
    e.(circuitState := Open, circuitOpenedAt := Some(now), status := Paused)
  }

  function HalfOpenFailed(e: Endpoint, now: int): Endpoint {
    e.(circuitState := Open, circuitOpenedAt := Some(now), lastFailedAt := Some(now), failureCount := e.failureCount + 1)
  }

  predicate ProbeMatches(c: Config, e: Endpoint, now: int) {
    && e.circuitState == Open
    && e.circuitOpenedAt.Some? && e.circuitOpenedAt.value < now - c.resetMs
    && e.status != Disabled
  }

  function Probed(c: Config, e: Endpoint, now: int): Endpoint {
    if ProbeMatches(c, e, now) then e.(circuitState := HalfOpen, status := Active) else e
  }

  /** Both writes of `recordFailure` with nothing in between. */
  function Failed(c: Config, e: Endpoint, now: int): Endpoint {
    if MustOpen(c, Counted(e, now)) then Opened(Counted(e, now), now) else Counted(e, now)
  }

  /** What fan-out asks of an endpoint besides the event type. */
  predicate IsSelected(e: Endpoint) {
    e.status == Active && e.circuitState != Open
  }

  /** The circuit is CLOSED exactly when no opening time is recorded. */
  predicate OpeningRecorded(e: Endpoint) {
    e.circuitState == Closed <==> e.circuitOpenedAt == None
  }

  /** What every operation keeps when its writes are not interleaved with others. */
  predicate Sound(c: Config, e: Endpoint) {
    OpeningRecorded(e) && (e.circuitState == Closed ==> e.failureCount < c.threshold)
  }

  datatype DbError = RowNotFound

  /** The endpoint table with the breaker's five operations and the admin edit of a status. */
  class WebhookEndpoints {
    const config: Config
    var rows: map<string, Endpoint>

    ghost predicate Valid()
      reads this
    {
      config.threshold >= 1 && forall id :: id in rows ==> Sound(config, rows[id])
    }

    constructor (config: Config)
      requires config.threshold >= 1
      ensures Valid()
      ensures rows == map[] && this.config == config
    {
      this.config, rows := config, map[];
    }

    method CreateEndpoint(id: string)
      requires Valid() && id !in rows
      modifies this
      ensures Valid()
      ensures rows == old(rows)[id := NEW_ENDPOINT]
    {
      rows := rows[id := NEW_ENDPOINT];
    }

    method UpdateStatus(id: string, status: EndpointStatus) returns (r: Result<(), DbError>)
      requires Valid()
      modifies this
      ensures Valid()
      ensures r == if id in old(rows) then Ok(()) else Err(RowNotFound)
      ensures rows == if id in old(rows) then old(rows)[id := old(rows)[id].(status := status)] else old(rows)
    {
      if id !in rows {
        return Err(RowNotFound);
      }
      rows := rows[id := rows[id].(status := status)];
      r := Ok(());
    }

    method RecordSuccess(id: string) returns (r: Result<(), DbError>)
      requires Valid()
      modifies this
      ensures Valid()
      ensures r == if id in old(rows) then Ok(()) else Err(RowNotFound)
      ensures rows == if id in old(rows) then old(rows)[id := Succeeded(old(rows)[id])] else old(rows)
    {
      if id !in rows {
        return Err(RowNotFound);
      }
      rows := rows[id := rows[id].(failureCount := 0, circuitState := Closed, circuitOpenedAt := None, lastFailedAt := None)];
      r := Ok(());
    }

    method RecordFailure(id: string, now: int) returns (r: Result<(), DbError>)
      requires Valid()
      modifies this
      ensures Valid()
      ensures r == if id in old(rows) then Ok(()) else Err(RowNotFound)
      ensures rows == if id in old(rows) then old(rows)[id := Failed(config, old(rows)[id], now)] else old(rows)
    {
      if id !in rows {
        return Err(RowNotFound);
      }
      var endpoint := rows[id].(failureCount := rows[id].failureCount + 1, lastFailedAt := Some(now));
      rows := rows[id := endpoint];
      if endpoint.failureCount >= config.threshold && endpoint.circuitState != Open {
        rows := rows[id := rows[id].(circuitState := Open, circuitOpenedAt := Some(now), status := Paused)];
      }
      r := Ok(());
    }

    method RecordHalfOpenFailure(id: string, now: int) returns (r: Result<(), DbError>)
      requires Valid()
      modifies this
      ensures Valid()
      ensures r == if id in old(rows) then Ok(()) else Err(RowNotFound)
      ensures rows == if id in old(rows) then old(rows)[id := HalfOpenFailed(old(rows)[id], now)] else old(rows)
    {
      if id !in rows {
        return Err(RowNotFound);
      }
      rows := rows[id := rows[id].(circuitState := Open, circuitOpenedAt := Some(now), lastFailedAt := Some(now),
                                   failureCount := rows[id].failureCount + 1)];
      r := Ok(());
    }

    method ProbeOpenCircuits(now: int) returns (count: nat)
      requires Valid()
      modifies this
      ensures Valid()
      ensures rows.Keys == old(rows).Keys
      ensures forall id :: id in rows ==> rows[id] == Probed(config, old(rows)[id], now)
      ensures count == |set id | id in old(rows) && ProbeMatches(config, old(rows)[id], now)|
      ensures forall id :: id in rows ==> !ProbeMatches(config, rows[id], now)
    {
      count := |set id | id in rows && ProbeMatches(config, rows[id], now)|;
      rows := map id | id in rows :: Probed(config, rows[id], now);
    }

    /** The delivery's record of its outcome: which failure write is made depends on the endpoint as it was read
        before the request, not on the row as it is now. */
    method RecordOutcome(id: string, snapshot: Endpoint, ok: bool, now: int) returns (r: Result<(), DbError>)
      requires Valid()
      modifies this
      ensures Valid()
      ensures r == if id in old(rows) then Ok(()) else Err(RowNotFound)
      ensures rows == if id !in old(rows) then old(rows)
                      else old(rows)[id := if ok then Succeeded(old(rows)[id])
                                           else if snapshot.circuitState == HalfOpen then HalfOpenFailed(old(rows)[id], now)
                                           else Failed(config, old(rows)[id], now)]
    {
      if ok {
        r := RecordSuccess(id);
      } else if snapshot.circuitState == HalfOpen {
        r := RecordHalfOpenFailure(id, now);
      } else {
        r := RecordFailure(id, now);
      }
    }
  }
}
