/** The hash chain of the audit log: what a row hashes, and what the last hash of a log proves about all of it. */
module AuditChain {
  import opened Wrappers
  import opened CodeUnits
  import opened JsonPrinter
  import opened JsonDecoding

  /** The two library calls behind a row hash: SHA-256 in hexadecimal, and Date.prototype.toISOString. */
  datatype Digest = Digest(hash: Text -> Text, iso: int -> Text) {
    ghost predicate BarFree() {
      && (forall x :: NoBar(hash(x)))
      && (forall t :: NoBar(iso(t)))
    }
  }

  datatype AuditEntry = AuditEntry(
    action: Text,
    userId: Option<Text>,
    resource: Option<Text>,
    detail: Option<JsValue>,
    ipHash: Text,
    userAgent: Option<Text>,
    region: Text,
    requestId: Text)

  datatype AuditRow = AuditRow(
    id: Text,
    entry: AuditEntry,
    previousHash: Text,
    currentHash: Text,
    createdAt: int)

  /** "allservices-audit-genesis" */
  const GENESIS_INPUT: Text :=
    [97, 108, 108, 115, 101, 114, 118, 105, 99, 101, 115, 45, 97, 117, 100, 105, 116, 45, 103, 101, 110, 101, 115, 105, 115]

  predicate NoBar(t: Text) {
    forall i :: 0 <= i < |t| ==> t[i] != BAR
  }

  function OrEmpty(t: Option<Text>): Text {
    match t
    case None => []
    case Some(text) => text
  }

  function DetailText(detail: Option<JsValue>): Text {
    match detail
    case None => []
    case Some(v) => CanonicalJson(v)
  }

  function Payload(d: Digest, entry: AuditEntry, previousHash: Text, createdAt: int): Text {
    Join([entry.action, OrEmpty(entry.userId), OrEmpty(entry.resource), DetailText(entry.detail),
          entry.ipHash, entry.region, entry.requestId, previousHash, d.iso(createdAt)], BAR)
  }

  function RowPayload(d: Digest, row: AuditRow): Text {
    Payload(d, row.entry, row.previousHash, row.createdAt)
  }

  /** A detail is absent or a record with distinct keys. */
  predicate DetailFits(detail: Option<JsValue>) {
    detail.Some? ==> detail.value.Object? && WellFormed(detail.value)
  }

  /** No hashed field but the detail contains the separator. */
  predicate BarFreeFields(e: AuditEntry) {
    && NoBar(e.action) && NoBar(OrEmpty(e.userId)) && NoBar(OrEmpty(e.resource))
    && NoBar(e.ipHash) && NoBar(e.region) && NoBar(e.requestId)
  }

  predicate SeparableEntry(e: AuditEntry) {
    BarFreeFields(e) && DetailFits(e.detail)
  }

  predicate ReadableLog(rows: seq<AuditRow>) {
    forall i :: 0 <= i < |rows| ==> DetailFits(rows[i].entry.detail)
  }

  predicate SeparableLog(rows: seq<AuditRow>) {
    forall i :: 0 <= i < |rows| ==> SeparableEntry(rows[i].entry)
  }

  /** The hash the next row links to. */
  function Tip(d: Digest, rows: seq<AuditRow>): Text {
    if rows == [] then d.hash(GENESIS_INPUT) else rows[|rows| - 1].currentHash
  }

  /** Every row links to its predecessor, the first to the genesis hash, and carries its own hash. */
  ghost predicate Verifies(d: Digest, rows: seq<AuditRow>) {
    forall i :: 0 <= i < |rows| ==>
      && rows[i].previousHash == Tip(d, rows[..i])
      && rows[i].currentHash == d.hash(RowPayload(d, rows[i]))
  }

  predicate SameDetail(x: Option<JsValue>, y: Option<JsValue>) {
    match (x, y)
    case (None, None) => true
    case (Some(v), Some(w)) => Meaning(v) == Meaning(w)
    case _ => false
  }

  /** Agreement on all that is hashed: an absent user or resource counts as empty, details up to key order. */
  predicate SameFields(d: Digest, e: AuditEntry, p: Text, t: int, e': AuditEntry, p': Text, t': int) {
    && e.action == e'.action
    && OrEmpty(e.userId) == OrEmpty(e'.userId)
    && OrEmpty(e.resource) == OrEmpty(e'.resource)
    && SameDetail(e.detail, e'.detail)
    && e.ipHash == e'.ipHash
    && e.region == e'.region
    && e.requestId == e'.requestId
    && p == p'
    && d.iso(t) == d.iso(t')
  }

  predicate SameHashedFields(d: Digest, r: AuditRow, s: AuditRow) {
    && SameFields(d, r.entry, r.previousHash, r.createdAt, s.entry, s.previousHash, s.createdAt)
    && r.currentHash == s.currentHash
  }

  predicate Agree(d: Digest, a: seq<AuditRow>, b: seq<AuditRow>) {
    && |a| == |b|
    && forall i :: 0 <= i < |a| ==> SameHashedFields(d, a[i], b[i])
  }

  /** Everything that was hashed to build a log. */
  function Inputs(d: Digest, rows: seq<AuditRow>): (r: seq<Text>)
    ensures |r| == |rows| + 1
  {
    if rows == [] then [GENESIS_INPUT]
    else Inputs(d, rows[..|rows| - 1]) + [RowPayload(d, rows[|rows| - 1])]
  }

  /** Two different texts, one hashed for each log, with the same hash. */
  ghost predicate Collision(d: Digest, a: seq<AuditRow>, b: seq<AuditRow>) {
    exists x, y :: x in Inputs(d, a) && y in Inputs(d, b) && x != y && d.hash(x) == d.hash(y)
  }

  // ---------- separating the fields of a payload ----------

  lemma SplitFirst(x: Text, s: Text, y: Text, t: Text)
    requires NoBar(x) && NoBar(y)
    requires x + ([BAR] + s) == y + ([BAR] + t)
    ensures x == y && s == t
  {
    var u, w := x + ([BAR] + s), y + ([BAR] + t);
    assert u[|x|] == BAR && w[|y|] == BAR;
    assert forall i :: 0 <= i < |x| ==> u[i] == x[i] != BAR;
    assert forall i :: 0 <= i < |y| ==> w[i] == y[i] != BAR;
    assert |x| == |y|;
    assert u[..|x|] == x && w[..|y|] == y;
    assert u[|x| + 1..] == s && w[|y| + 1..] == t;
  }

  lemma SplitLast(s: Text, x: Text, t: Text, y: Text)
    requires NoBar(x) && NoBar(y)
    requires s + ([BAR] + x) == t + ([BAR] + y)
    ensures x == y && s == t
  {
    var u, w := s + ([BAR] + x), t + ([BAR] + y);
    assert u[|s|] == BAR && w[|t|] == BAR;
    assert forall i :: |s| < i < |u| ==> u[i] == x[i - |s| - 1] != BAR;
    assert forall i :: |t| < i < |w| ==> w[i] == y[i - |t| - 1] != BAR;
    assert |s| == |t|;
    assert u[..|s|] == s && w[..|t|] == t;
    assert u[|s| + 1..] == x && w[|t| + 1..] == y;
  }

  /** The last six fields, the detail first, grouped from the left. */
  function Tail(detail: Text, ipHash: Text, region: Text, requestId: Text, previous: Text, time: Text): Text {
    ((((detail + ([BAR] + ipHash)) + ([BAR] + region)) + ([BAR] + requestId)) + ([BAR] + previous)) + ([BAR] + time)
  }

  lemma PayloadShape(d: Digest, e: AuditEntry, previous: Text, createdAt: int)
    ensures Payload(d, e, previous, createdAt)
         == e.action + ([BAR] + (OrEmpty(e.userId) + ([BAR] + (OrEmpty(e.resource) + ([BAR]
            + Tail(DetailText(e.detail), e.ipHash, e.region, e.requestId, previous, d.iso(createdAt)))))))
  {
    var fields := [e.action, OrEmpty(e.userId), OrEmpty(e.resource), DetailText(e.detail),
                   e.ipHash, e.region, e.requestId, previous, d.iso(createdAt)];
    JoinFront(fields);
    JoinFront(fields[1..]);
    JoinFront(fields[2..]);
    assert fields[1..][1..] == fields[2..] && fields[2..][1..] == fields[3..];
    var last := [DetailText(e.detail), e.ipHash, e.region, e.requestId, previous, d.iso(createdAt)];
    assert fields[3..] == last;
    JoinSix(DetailText(e.detail), e.ipHash, e.region, e.requestId, previous, d.iso(createdAt));
  }

  lemma JoinFront(parts: seq<Text>)
    requires |parts| > 1
    ensures Join(parts, BAR) == parts[0] + ([BAR] + Join(parts[1..], BAR))
  {
  }

  lemma JoinSix(a: Text, b: Text, c: Text, d: Text, e: Text, f: Text)
    ensures Join([a, b, c, d, e, f], BAR) == Tail(a, b, c, d, e, f)
  {
    JoinFront([a, b, c, d, e, f]);
    assert [a, b, c, d, e, f][1..] == [b, c, d, e, f];
    JoinFront([b, c, d, e, f]);
    assert [b, c, d, e, f][1..] == [c, d, e, f];
    JoinFront([c, d, e, f]);
    assert [c, d, e, f][1..] == [d, e, f];
    JoinFront([d, e, f]);
    assert [d, e, f][1..] == [e, f];
    JoinFront([e, f]);
    assert [e, f][1..] == [f];
  }

  lemma SameTail(a: Text, b: Text, c: Text, d: Text, e: Text, f: Text,
                 a': Text, b': Text, c': Text, d': Text, e': Text, f': Text)
    requires NoBar(b) && NoBar(c) && NoBar(d) && NoBar(e) && NoBar(f)
    requires NoBar(b') && NoBar(c') && NoBar(d') && NoBar(e') && NoBar(f')
    requires Tail(a, b, c, d, e, f) == Tail(a', b', c', d', e', f')
    ensures a == a' && b == b' && c == c' && d == d' && e == e' && f == f'
  {
    var s1, s1' := a + ([BAR] + b), a' + ([BAR] + b');
    var s2, s2' := s1 + ([BAR] + c), s1' + ([BAR] + c');
    var s3, s3' := s2 + ([BAR] + d), s2' + ([BAR] + d');
    var s4, s4' := s3 + ([BAR] + e), s3' + ([BAR] + e');
    SplitLast(s4, f, s4', f');
    SplitLast(s3, e, s3', e');
    SplitLast(s2, d, s2', d');
    SplitLast(s1, c, s1', c');
    SplitLast(a, b, a', b');
  }

  lemma SameDetailText(x: Option<JsValue>, y: Option<JsValue>)
    requires DetailFits(x) && DetailFits(y)
    ensures DetailText(x) == DetailText(y) <==> SameDetail(x, y)
  {
    if x.Some? && y.Some? {
      TextDeterminesMeaning(x.value, y.value);
    } else if x.Some? {
      FirstUnit(x.value);
    } else if y.Some? {
      FirstUnit(y.value);
    }
  }

  /** Of two entries that both keep the separator out of these fields the payload tells every field. */
  lemma SeparablePayloads(d: Digest, e: AuditEntry, p: Text, t: int, e': AuditEntry, p': Text, t': int)
    requires d.BarFree() && SeparableEntry(e) && SeparableEntry(e') && NoBar(p) && NoBar(p')
    requires Payload(d, e, p, t) == Payload(d, e', p', t')
    ensures SameFields(d, e, p, t, e', p', t')
  {
    PayloadShape(d, e, p, t);
    PayloadShape(d, e', p', t');
    var tail := Tail(DetailText(e.detail), e.ipHash, e.region, e.requestId, p, d.iso(t));
    var tail' := Tail(DetailText(e'.detail), e'.ipHash, e'.region, e'.requestId, p', d.iso(t'));
    var third, third' := OrEmpty(e.resource) + ([BAR] + tail), OrEmpty(e'.resource) + ([BAR] + tail');
    SplitFirst(e.action, OrEmpty(e.userId) + ([BAR] + third), e'.action, OrEmpty(e'.userId) + ([BAR] + third'));
    SplitFirst(OrEmpty(e.userId), third, OrEmpty(e'.userId), third');
    SplitFirst(OrEmpty(e.resource), tail, OrEmpty(e'.resource), tail');
    SameTail(DetailText(e.detail), e.ipHash, e.region, e.requestId, p, d.iso(t),
             DetailText(e'.detail), e'.ipHash, e'.region, e'.requestId, p', d.iso(t'));
    SameDetailText(e.detail, e'.detail);
  }

  lemma SameFieldsSamePayload(d: Digest, r: AuditRow, s: AuditRow)
    requires DetailFits(r.entry.detail) && DetailFits(s.entry.detail) && SameHashedFields(d, r, s)
    ensures RowPayload(d, r) == RowPayload(d, s)
  {
    SameDetailText(r.entry.detail, s.entry.detail);
  }

  /** No row hashes the text that the genesis hash is made of. */
  lemma PayloadIsNotGenesis(d: Digest, row: AuditRow)
    ensures RowPayload(d, row) != GENESIS_INPUT
  {
    var e := row.entry;
    PayloadShape(d, e, row.previousHash, row.createdAt);
    assert RowPayload(d, row)[|e.action|] == BAR;
    assert NoBar(GENESIS_INPUT);
  }

  // ---------- whole logs ----------

  lemma PrefixVerifies(d: Digest, rows: seq<AuditRow>)
    requires rows != [] && Verifies(d, rows)
    ensures Verifies(d, rows[..|rows| - 1])
    ensures Tip(d, rows[..|rows| - 1]) == rows[|rows| - 1].previousHash
  {
    var front := rows[..|rows| - 1];
    forall i | 0 <= i < |front|
      ensures front[i].previousHash == Tip(d, front[..i])
    {
      assert front[..i] == rows[..i];
    }
  }

  lemma TipBarFree(d: Digest, rows: seq<AuditRow>)
    requires d.BarFree() && Verifies(d, rows)
    ensures NoBar(Tip(d, rows))
  {
  }

  lemma LastInput(d: Digest, rows: seq<AuditRow>) returns (input: Text)
    requires Verifies(d, rows)
    ensures input in Inputs(d, rows) && d.hash(input) == Tip(d, rows)
    ensures input == if rows == [] then GENESIS_INPUT else RowPayload(d, rows[|rows| - 1])
  {
    input := Inputs(d, rows)[|rows|];
  }

  /** Previous hash and time can be read off any payload from the right. */
  lemma PayloadEnd(d: Digest, e: AuditEntry, p: Text, t: int) returns (front: Text)
    ensures Payload(d, e, p, t) == (front + ([BAR] + p)) + ([BAR] + d.iso(t))
  {
    PayloadShape(d, e, p, t);
    var last := ((DetailText(e.detail) + ([BAR] + e.ipHash)) + ([BAR] + e.region)) + ([BAR] + e.requestId);
    front := e.action + ([BAR] + (OrEmpty(e.userId) + ([BAR] + (OrEmpty(e.resource) + ([BAR] + last)))));
    EndOnto(e.action, OrEmpty(e.userId), OrEmpty(e.resource), last, p, d.iso(t));
  }

  lemma EndOnto(a: Text, b: Text, c: Text, last: Text, p: Text, time: Text)
    ensures a + ([BAR] + (b + ([BAR] + (c + ([BAR] + ((last + ([BAR] + p)) + ([BAR] + time)))))))
         == (a + ([BAR] + (b + ([BAR] + (c + ([BAR] + last))))) + ([BAR] + p)) + ([BAR] + time)
  {
  }

  lemma SameLastRowSameTip(d: Digest, a: seq<AuditRow>, b: seq<AuditRow>)
    requires d.BarFree() && Verifies(d, a) && Verifies(d, b)
    requires a != [] && b != [] && RowPayload(d, a[|a| - 1]) == RowPayload(d, b[|b| - 1])
    ensures Tip(d, a[..|a| - 1]) == Tip(d, b[..|b| - 1])
  {
    PrefixVerifies(d, a);
    PrefixVerifies(d, b);
    TipBarFree(d, a[..|a| - 1]);
    TipBarFree(d, b[..|b| - 1]);
    var r, s := a[|a| - 1], b[|b| - 1];
    var x := PayloadEnd(d, r.entry, r.previousHash, r.createdAt);
    var y := PayloadEnd(d, s.entry, s.previousHash, s.createdAt);
    SplitLast(x + ([BAR] + r.previousHash), d.iso(r.createdAt), y + ([BAR] + s.previousHash), d.iso(s.createdAt));
    SplitLast(x, r.previousHash, y, s.previousHash);
  }

  ghost predicate SamePayloads(d: Digest, a: seq<AuditRow>, b: seq<AuditRow>) {
    && |a| == |b|
    && forall i :: 0 <= i < |a| ==> RowPayload(d, a[i]) == RowPayload(d, b[i])
  }

  /** Two verified logs of any content that end in the same hash have hashed the same texts, unless two of these
      collide. */
  lemma {:induction false} SameTipSamePayloads(d: Digest, a: seq<AuditRow>, b: seq<AuditRow>)
    requires d.BarFree() && Verifies(d, a) && Verifies(d, b) && Tip(d, a) == Tip(d, b)
    ensures SamePayloads(d, a, b) || Collision(d, a, b)
    decreases |a|
  {
    var x := LastInput(d, a);
    var y := LastInput(d, b);
    if x == y {
      if a != [] { PayloadIsNotGenesis(d, a[|a| - 1]); }
      if b != [] { PayloadIsNotGenesis(d, b[|b| - 1]); }
      if a != [] {
        SameLastRowSameTip(d, a, b);
        PrefixVerifies(d, a);
        PrefixVerifies(d, b);
        SameTipSamePayloads(d, a[..|a| - 1], b[..|b| - 1]);
        if SamePayloads(d, a[..|a| - 1], b[..|b| - 1]) {
          SamePayloadsExtends(d, a, b);
        } else {
          CollisionExtends(d, a, b);
        }
      }
    }
  }

  lemma SamePayloadsExtends(d: Digest, a: seq<AuditRow>, b: seq<AuditRow>)
    requires a != [] && b != [] && SamePayloads(d, a[..|a| - 1], b[..|b| - 1])
    requires RowPayload(d, a[|a| - 1]) == RowPayload(d, b[|b| - 1])
    ensures SamePayloads(d, a, b)
  {
    var a', b' := a[..|a| - 1], b[..|b| - 1];
    forall i | 0 <= i < |a|
      ensures RowPayload(d, a[i]) == RowPayload(d, b[i])
    {
      if i < |a'| { assert RowPayload(d, a'[i]) == RowPayload(d, b'[i]); }
    }
  }

  lemma CollisionExtends(d: Digest, a: seq<AuditRow>, b: seq<AuditRow>)
    requires a != [] && b != [] && Collision(d, a[..|a| - 1], b[..|b| - 1])
    ensures Collision(d, a, b)
  {
    var x, y :| x in Inputs(d, a[..|a| - 1]) && y in Inputs(d, b[..|b| - 1]) && x != y && d.hash(x) == d.hash(y);
    assert x in Inputs(d, a) && y in Inputs(d, b);
  }

  predicate SameLinks(r: AuditRow, s: AuditRow) {
    r.previousHash == s.previousHash && r.currentHash == s.currentHash
  }

  /** Verification sees no more of a row than its two hashes and the hash of its payload. */
  lemma SameLinksVerify(d: Digest, a: seq<AuditRow>, b: seq<AuditRow>)
    requires Verifies(d, a) && |a| == |b|
    requires forall i :: 0 <= i < |a| ==> SameLinks(a[i], b[i])
    requires forall i :: 0 <= i < |a| ==> d.hash(RowPayload(d, a[i])) == d.hash(RowPayload(d, b[i]))
    ensures Verifies(d, b) && Tip(d, b) == Tip(d, a)
  {
    forall i | 0 <= i < |b|
      ensures b[i].previousHash == Tip(d, b[..i]) && b[i].currentHash == d.hash(RowPayload(d, b[i]))
    {
      assert SameLinks(a[i], b[i]);
      if i > 0 { assert SameLinks(a[i - 1], b[i - 1]); }
    }
  }

  /** The other direction: a change that keeps every hashed field goes unnoticed. */
  lemma UnhashedChangesVerify(d: Digest, a: seq<AuditRow>, b: seq<AuditRow>)
    requires ReadableLog(a) && ReadableLog(b) && Verifies(d, a) && Agree(d, a, b)
    ensures Verifies(d, b) && Tip(d, b) == Tip(d, a)
  {
    forall i | 0 <= i < |a|
      ensures SameLinks(a[i], b[i]) && RowPayload(d, a[i]) == RowPayload(d, b[i])
    {
      assert SameHashedFields(d, a[i], b[i]);
      SameFieldsSamePayload(d, a[i], b[i]);
    }
    SameLinksVerify(d, a, b);
  }
}
