/** Appending to the audit log: one writer at a time under the advisory lock, any number of writers interleaved. */
module AuditWriters {
  import opened Wrappers
  import opened CodeUnits
  import opened Sequences
  import opened AuditChain

  function NewRow(d: Digest, previousHash: Text, entry: AuditEntry, id: Text, now: int): AuditRow {
    AuditRow(id, entry, previousHash, d.hash(Payload(d, entry, previousHash, now)), now)
  }

  /** A row that `findFirst` ordered by descending creation time may return; ties are not decided. */
  predicate Latest(rows: seq<AuditRow>, i: nat) {
    && i < |rows|
    && forall j :: 0 <= j < |rows| ==> rows[j].createdAt <= rows[i].createdAt
  }

  predicate LaterThanAll(rows: seq<AuditRow>, now: int) {
    forall i :: 0 <= i < |rows| ==> rows[i].createdAt < now
  }

  predicate StrictTimes(rows: seq<AuditRow>) {
    forall i, j :: 0 <= i < j < |rows| ==> rows[i].createdAt < rows[j].createdAt
  }

  lemma {:induction false} LatestExists(rows: seq<AuditRow>) returns (i: nat)
    requires rows != []
    ensures Latest(rows, i)
    decreases |rows|
  {
    var n := |rows| - 1;
    i := n;
    if n > 0 {
      var k := LatestExists(rows[..n]);
      assert forall j :: 0 <= j < n ==> rows[j].createdAt == rows[..n][j].createdAt <= rows[k].createdAt;
      if rows[n].createdAt <= rows[k].createdAt {
        i := k;
      }
    }
  }

  /** The read is sure to return the last row exactly when that row is strictly later than all before it. */
  lemma ReadReturnsTip(rows: seq<AuditRow>)
    requires rows != []
    ensures (forall c: nat :: Latest(rows, c) ==> c == |rows| - 1) <==> LaterThanAll(rows[..|rows| - 1], rows[|rows| - 1].createdAt)
  {
    var last := |rows| - 1;
    var k := LatestExists(rows);
    if forall c: nat :: Latest(rows, c) ==> c == last {
      forall i | 0 <= i < last
        ensures rows[i].createdAt < rows[last].createdAt
      {
        assert k == last;
        assert !Latest(rows, i);
      }
    }
  }

  lemma AppendVerifies(d: Digest, rows: seq<AuditRow>, entry: AuditEntry, id: Text, now: int)
    requires Verifies(d, rows)
    ensures Verifies(d, rows + [NewRow(d, Tip(d, rows), entry, id, now)])
  {
    var longer := rows + [NewRow(d, Tip(d, rows), entry, id, now)];
    forall i | 0 <= i < |longer|
      ensures longer[i].previousHash == Tip(d, longer[..i])
      ensures longer[i].currentHash == d.hash(RowPayload(d, longer[i]))
    {
      assert longer[..i] == rows[..i];
      if i == |rows| {
        assert rows[..i] == rows;
      }
    }
  }

  /** The audit table as one process sees it, with each call of `Log` a whole transaction. */
  class AuditService {
    const digest: Digest
    var rows: seq<AuditRow>

    constructor (d: Digest)
      ensures rows == [] && digest == d
    {
      digest := d;
      rows := [];
    }

    method Log(entry: AuditEntry, id: Text, now: int)
      modifies this
      ensures old(rows) == [] ==> rows == [NewRow(digest, Tip(digest, []), entry, id, now)]
      ensures old(rows) != [] ==>
                exists c: nat :: Latest(old(rows), c)
                                 && rows == old(rows) + [NewRow(digest, old(rows)[c].currentHash, entry, id, now)]
      ensures |rows| == |old(rows)| + 1 && rows[..|old(rows)|] == old(rows)
      ensures var row := rows[|old(rows)|];
              && row.entry == entry && row.id == id && row.createdAt == now
              && row.currentHash == digest.hash(RowPayload(digest, row))
      ensures old(Verifies(digest, rows) && StrictTimes(rows)) && LaterThanAll(old(rows), now) ==>
                Verifies(digest, rows) && StrictTimes(rows)
    {
      var previousHash := digest.hash(GENESIS_INPUT);
      if rows != [] {
        ghost var latest := LatestExists(rows);
        assert Latest(rows, latest);
        var c: nat :| c < |rows| && Latest(rows, c);
        previousHash := rows[c].currentHash;
        ReadReturnsTip(rows);
        AppendVerifiesTip(digest, rows, c, entry, id, now);
      } else {
        AppendVerifies(digest, rows, entry, id, now);
      }
      rows := rows + [NewRow(digest, previousHash, entry, id, now)];
    }
  }

  lemma AppendVerifiesTip(d: Digest, rows: seq<AuditRow>, c: nat, entry: AuditEntry, id: Text, now: int)
    requires rows != [] && Latest(rows, c)
    ensures Verifies(d, rows) && StrictTimes(rows) ==>
              Verifies(d, rows + [NewRow(d, rows[c].currentHash, entry, id, now)])
  {
    if Verifies(d, rows) && StrictTimes(rows) {
      ReadReturnsTip(rows);
      AppendVerifies(d, rows, entry, id, now);
    }
  }

  // ---------- interleaved writers ----------

  /** Where a writer stands in its transaction. */
  datatype Writer = Idle | Locked | HasRead(previousHash: Text) | Inserted(row: AuditRow)

  /** `rows` holds the committed rows in commit order. */
  datatype State = State(rows: seq<AuditRow>, lock: Option<nat>, writers: map<nat, Writer>)

  datatype Step =
    | Acquire(writer: nat)
    | Read(writer: nat, choice: nat)
    | Insert(writer: nat, entry: AuditEntry, id: Text, now: int)
    | Commit(writer: nat)
    | Abort(writer: nat)

  const INITIAL := State([], None, map[])

  function WriterAt(s: State, w: nat): Writer {
    if w in s.writers then s.writers[w] else Idle
  }

  /** The lock is granted when free, statements run in order, and an abort may come at any point of a transaction. */
  predicate Enabled(s: State, step: Step) {
    match step
    case Acquire(w) => s.lock == None && WriterAt(s, w).Idle?
    case Read(w, choice) => WriterAt(s, w).Locked? && (s.rows == [] || Latest(s.rows, choice))
    case Insert(w, _, _, _) => WriterAt(s, w).HasRead?
    case Commit(w) => WriterAt(s, w).Inserted?
    case Abort(w) => !WriterAt(s, w).Idle?
  }

  function Next(d: Digest, s: State, step: Step): State
    requires Enabled(s, step)
  {
    match step
    case Acquire(w) => s.(lock := Some(w), writers := s.writers[w := Locked])
    case Read(w, choice) =>
      var previousHash := if s.rows == [] then d.hash(GENESIS_INPUT) else s.rows[choice].currentHash;
      s.(writers := s.writers[w := HasRead(previousHash)])
    case Insert(w, entry, id, now) =>
      s.(writers := s.writers[w := Inserted(NewRow(d, WriterAt(s, w).previousHash, entry, id, now))])
    case Commit(w) =>
      State(s.rows + [WriterAt(s, w).row], None, s.writers[w := Idle])
    case Abort(w) =>
      s.(lock := None, writers := s.writers[w := Idle])
  }

  predicate IsRun(d: Digest, s: State, steps: seq<Step>)
    decreases |steps|
  {
    steps == [] || (Enabled(s, steps[0]) && IsRun(d, Next(d, s, steps[0]), steps[1..]))
  }

  function Final(d: Digest, s: State, steps: seq<Step>): State
    requires IsRun(d, s, steps)
    decreases |steps|
  {
    if steps == [] then s else Final(d, Next(d, s, steps[0]), steps[1..])
  }

  /** Every insert of the run is stamped strictly later than all rows committed before it. */
  predicate Increasing(d: Digest, s: State, steps: seq<Step>)
    requires IsRun(d, s, steps)
    decreases |steps|
  {
    steps == []
    || (&& (steps[0].Insert? ==> LaterThanAll(s.rows, steps[0].now))
        && Increasing(d, Next(d, s, steps[0]), steps[1..]))
  }

  /** The committed rows form a chain in strict time order, only the lock holder is inside a transaction, and what
      it has read or inserted continues the chain. */
  ghost predicate Linear(d: Digest, s: State) {
    && Verifies(d, s.rows)
    && StrictTimes(s.rows)
    && (forall w: nat :: !WriterAt(s, w).Idle? ==> s.lock == Some(w))
    && (s.lock.Some? ==> !WriterAt(s, s.lock.value).Idle?)
    && (forall w: nat :: WriterAt(s, w).HasRead? ==> WriterAt(s, w).previousHash == Tip(d, s.rows))
    && (forall w: nat :: WriterAt(s, w).Inserted? ==>
          var row := WriterAt(s, w).row;
          && row == NewRow(d, Tip(d, s.rows), row.entry, row.id, row.createdAt)
          && LaterThanAll(s.rows, row.createdAt))
  }

  lemma CommitKeepsLinear(d: Digest, s: State, w: nat)
    requires Linear(d, s) && WriterAt(s, w).Inserted?
    ensures Linear(d, Next(d, s, Commit(w)))
  {
    var row := WriterAt(s, w).row;
    var s' := Next(d, s, Commit(w));
    AppendVerifies(d, s.rows, row.entry, row.id, row.createdAt);
    assert StrictTimes(s'.rows);
    forall v: nat
      ensures WriterAt(s', v).Idle?
    {
      assert WriterAt(s, v).Idle? || v == w;
    }
  }

  lemma ReadKeepsLinear(d: Digest, s: State, w: nat, choice: nat)
    requires Linear(d, s) && Enabled(s, Read(w, choice))
    ensures Linear(d, Next(d, s, Read(w, choice)))
  {
    var s' := Next(d, s, Read(w, choice));
    if s.rows != [] {
      ReadReturnsTip(s.rows);
    }
    assert WriterAt(s', w) == HasRead(Tip(d, s.rows));
    assert forall v: nat :: v != w ==> WriterAt(s', v) == WriterAt(s, v);
  }

  lemma StepKeepsLinear(d: Digest, s: State, step: Step)
    requires Linear(d, s) && Enabled(s, step)
    requires step.Insert? ==> LaterThanAll(s.rows, step.now)
    ensures Linear(d, Next(d, s, step))
  {
    match step
    case Commit(w) => CommitKeepsLinear(d, s, w);
    case Read(w, choice) => ReadKeepsLinear(d, s, w, choice);
    case _ =>
      var s' := Next(d, s, step);
      assert forall v: nat :: v != step.writer ==> WriterAt(s', v) == WriterAt(s, v);
  }

  lemma {:induction false} RunKeepsLinear(d: Digest, s: State, steps: seq<Step>)
    requires Linear(d, s) && IsRun(d, s, steps) && Increasing(d, s, steps)
    ensures Linear(d, Final(d, s, steps))
    decreases |steps|
  {
    if steps == [] {
    } else {
      StepKeepsLinear(d, s, steps[0]);
      RunKeepsLinear(d, Next(d, s, steps[0]), steps[1..]);
    }
  }

  /** Nobody waits for ever: in a linear state the lock is free for any writer, or its holder can go on or give up. */
  lemma NoDeadlock(d: Digest, s: State, w: nat, entry: AuditEntry, id: Text, now: int) returns (step: Step)
    requires Linear(d, s) && WriterAt(s, w).Idle?
    ensures Enabled(s, step) && if s.lock == None then step == Acquire(w) else step.writer == s.lock.value
    ensures s.lock.Some? ==> Enabled(s, Abort(s.lock.value)) && Next(d, s, Abort(s.lock.value)).lock == None
  {
    if s.lock == None {
      step := Acquire(w);
    } else {
      var holder := s.lock.value;
      match WriterAt(s, holder) {
        case Locked =>
          var choice := 0;
          if s.rows != [] {
            choice := LatestExists(s.rows);
          }
          step := Read(holder, choice);
        case HasRead(_) => step := Insert(holder, entry, id, now);
        case Inserted(_) => step := Commit(holder);
      }
    }
  }

  /** Under every interleaving of writers with increasing stamps, the committed rows taken in time order, however
      the table itself is ordered, form one chain from the genesis hash. */
  lemma InterleavedLogIsOneChain(d: Digest, steps: seq<Step>, byTime: seq<AuditRow>)
    requires IsRun(d, INITIAL, steps) && Increasing(d, INITIAL, steps)
    requires multiset(byTime) == multiset(Final(d, INITIAL, steps).rows)
    requires forall i, j :: 0 <= i < j < |byTime| ==> byTime[i].createdAt <= byTime[j].createdAt
    ensures byTime == Final(d, INITIAL, steps).rows
    ensures Verifies(d, byTime)
  {
    RunKeepsLinear(d, INITIAL, steps);
    TimeOrderIsCommitOrder(Final(d, INITIAL, steps).rows, byTime);
  }

  lemma SameFirstRow(rows: seq<AuditRow>, byTime: seq<AuditRow>)
    requires StrictTimes(rows) && multiset(byTime) == multiset(rows) && rows != [] && byTime != []
    requires forall j :: 0 <= j < |byTime| ==> byTime[0].createdAt <= byTime[j].createdAt
    ensures byTime[0] == rows[0]
  {
    assert byTime[0] in multiset(rows) && rows[0] in multiset(byTime);
    var i :| 0 <= i < |rows| && rows[i] == byTime[0];
    var j :| 0 <= j < |byTime| && byTime[j] == rows[0];
    assert rows[0].createdAt >= rows[i].createdAt;
  }

  lemma {:induction false} TimeOrderIsCommitOrder(rows: seq<AuditRow>, byTime: seq<AuditRow>)
    requires StrictTimes(rows) && multiset(byTime) == multiset(rows)
    requires forall i, j :: 0 <= i < j < |byTime| ==> byTime[i].createdAt <= byTime[j].createdAt
    ensures byTime == rows
    decreases |rows|
  {
    assert |byTime| == |multiset(byTime)| == |multiset(rows)| == |rows|;
    if rows != [] {
      SameFirstRow(rows, byTime);
      TailMultiset(rows);
      TailMultiset(byTime);
      assert multiset(byTime[1..]) == multiset(rows[1..]);
      TimeOrderIsCommitOrder(rows[1..], byTime[1..]);
      assert rows == [rows[0]] + rows[1..] && byTime == [byTime[0]] + byTime[1..];
    }
  }

  /** Two rows stamped alike let a third fork the chain: a run whose log does not verify. */
  lemma TiesForkTheChain(d: Digest, entry: AuditEntry, id: Text, now: int)
    requires d.hash(Payload(d, entry, Tip(d, []), now))
          != d.hash(Payload(d, entry, d.hash(Payload(d, entry, Tip(d, []), now)), now))
    ensures exists steps :: IsRun(d, INITIAL, steps) && !Verifies(d, Final(d, INITIAL, steps).rows)
  {
    var transaction := [Acquire(0), Read(0, 0), Insert(0, entry, id, now), Commit(0)];
    var r1 := NewRow(d, Tip(d, []), entry, id, now);
    var r2 := NewRow(d, r1.currentHash, entry, id, now);
    var r3 := NewRow(d, r1.currentHash, entry, id, now);
    TransactionAppends(d, INITIAL, entry, id, now);
    var s1 := State([r1], None, map[0 := Idle]);
    assert [] + [r1] == [r1] && INITIAL.writers[0 := Idle] == map[0 := Idle];
    TransactionAppends(d, s1, entry, id, now);
    var s2 := State([r1, r2], None, map[0 := Idle]);
    assert [r1] + [r2] == [r1, r2] && s1.writers[0 := Idle] == s1.writers;
    TransactionAppends(d, s2, entry, id, now);
    RunsCompose(d, s1, transaction, transaction);
    RunsCompose(d, INITIAL, transaction, transaction + transaction);
    var steps := transaction + (transaction + transaction);
    var rows := Final(d, INITIAL, steps).rows;
    assert rows == [r1, r2, r3];
    assert rows[2].previousHash != Tip(d, rows[..2]);
  }

  lemma TransactionAppends(d: Digest, s: State, entry: AuditEntry, id: Text, now: int)
    requires s.lock == None && WriterAt(s, 0).Idle?
    requires s.rows == [] || Latest(s.rows, 0)
    ensures var steps := [Acquire(0), Read(0, 0), Insert(0, entry, id, now), Commit(0)];
            var previousHash := if s.rows == [] then Tip(d, []) else s.rows[0].currentHash;
            && IsRun(d, s, steps)
            && Final(d, s, steps)
            == State(s.rows + [NewRow(d, previousHash, entry, id, now)], None, s.writers[0 := Idle])
  {
    var steps := [Acquire(0), Read(0, 0), Insert(0, entry, id, now), Commit(0)];
    var s1 := Next(d, s, steps[0]);
    var s2 := Next(d, s1, steps[1]);
    var s3 := Next(d, s2, steps[2]);
    var s4 := Next(d, s3, steps[3]);
    assert steps[3..][1..] == [] && steps[2..][1..] == steps[3..] && steps[1..][1..] == steps[2..];
    assert IsRun(d, s4, []);
    assert IsRun(d, s3, steps[3..]) && Final(d, s3, steps[3..]) == s4;
    assert IsRun(d, s2, steps[2..]) && Final(d, s2, steps[2..]) == s4;
    assert IsRun(d, s1, steps[1..]) && Final(d, s1, steps[1..]) == s4;
    assert s4.writers == s.writers[0 := Idle];
  }

  lemma {:induction false} RunsCompose(d: Digest, s: State, first: seq<Step>, second: seq<Step>)
    requires IsRun(d, s, first) && IsRun(d, Final(d, s, first), second)
    ensures IsRun(d, s, first + second)
    ensures Final(d, s, first + second) == Final(d, Final(d, s, first), second)
    decreases |first|
  {
    if first == [] {
      assert first + second == second;
    } else {
      RunsCompose(d, Next(d, s, first[0]), first[1..], second);
      assert (first + second)[1..] == first[1..] + second;
    }
  }

  lemma GenesisText()
    ensures |GENESIS_INPUT| == |"allservices-audit-genesis"|
    ensures forall i :: 0 <= i < |GENESIS_INPUT| ==> GENESIS_INPUT[i] == "allservices-audit-genesis"[i] as int
  {
  }

  // ---------- what is committed is what was inserted ----------

  datatype Stamp = Stamp(entry: AuditEntry, id: Text, createdAt: int)

  function Stamps(rows: seq<AuditRow>): seq<Stamp>
  {
    seq(|rows|, i requires 0 <= i < |rows| => Stamp(rows[i].entry, rows[i].id, rows[i].createdAt))
  }

  /** What the commits of a run should leave in the table: each one the last insert of its writer. */
  function Expected(inserted: map<nat, Stamp>, steps: seq<Step>): seq<Stamp>
    decreases |steps|
  {
    if steps == [] then []
    else
      match steps[0]
      case Insert(w, entry, id, now) => Expected(inserted[w := Stamp(entry, id, now)], steps[1..])
      case Commit(w) => (if w in inserted then [inserted[w]] else []) + Expected(inserted, steps[1..])
      case _ => Expected(inserted, steps[1..])
  }

  ghost predicate Remembers(s: State, inserted: map<nat, Stamp>) {
    forall w: nat :: WriterAt(s, w).Inserted? ==>
                       var row := WriterAt(s, w).row;
                       w in inserted && inserted[w] == Stamp(row.entry, row.id, row.createdAt)
  }

  lemma StampsConcat(a: seq<AuditRow>, b: seq<AuditRow>)
    ensures Stamps(a + b) == Stamps(a) + Stamps(b)
  {
  }

  lemma {:induction false} CommitsAreLogged(d: Digest, s: State, steps: seq<Step>, inserted: map<nat, Stamp>)
    requires IsRun(d, s, steps) && Remembers(s, inserted)
    ensures Stamps(Final(d, s, steps).rows) == Stamps(s.rows) + Expected(inserted, steps)
    decreases |steps|
  {
    if steps == [] {
    } else {
      var t := Next(d, s, steps[0]);
      var inserted' := if steps[0].Insert? then inserted[steps[0].writer := Stamp(steps[0].entry, steps[0].id, steps[0].now)]
                       else inserted;
      forall w: nat | WriterAt(t, w).Inserted?
        ensures w in inserted' && inserted'[w] == Stamp(WriterAt(t, w).row.entry, WriterAt(t, w).row.id, WriterAt(t, w).row.createdAt)
      {
        assert w != steps[0].writer ==> WriterAt(t, w) == WriterAt(s, w);
      }
      CommitsAreLogged(d, t, steps[1..], inserted');
      if steps[0].Commit? {
        StampsConcat(s.rows, [WriterAt(s, steps[0].writer).row]);
      }
    }
  }

  /** After any interleaving the table holds exactly what the committed transactions inserted, in commit order. */
  lemma TableIsTheCommits(d: Digest, steps: seq<Step>)
    requires IsRun(d, INITIAL, steps)
    ensures Stamps(Final(d, INITIAL, steps).rows) == Expected(map[], steps)
  {
    CommitsAreLogged(d, INITIAL, steps, map[]);
  }
}
