/** The hash of a row is taken over bytes: what UTF-8 adds to tamper evidence, and what it takes away. */
module AuditBytes {
  import opened CodeUnits
  import opened Hex
  import opened Wrappers
  import opened JsonPrinter
  import opened AuditChain
  import opened AuditEvidence
  import opened Sequences
  import Utf8

  /** ASCII without the separator. */
  predicate IsPlain(t: Text) {
    forall i :: 0 <= i < |t| ==> t[i] < 0x80 && t[i] != BAR
  }

  /** SHA-256 over bytes, in hexadecimal, and Date.prototype.toISOString. */
  datatype ByteDigest = ByteDigest(sha: seq<Byte> -> Text, iso: int -> Text) {
    ghost predicate Plain() {
      && (forall b :: IsPlain(sha(b)))
      && (forall t :: IsPlain(iso(t)))
    }

    function OnText(): Digest {
      Digest(x => sha(Utf8.Encode(x)), iso)
    }
  }

  function ScrubbedOption(t: Option<Text>): Option<Text> {
    match t
    case None => None
    case Some(text) => Some(Utf8.Scrubbed(text))
  }

  /** The entry with the lone surrogates of its hashed fields replaced; canonical text has none to begin with. */
  function ScrubbedEntry(e: AuditEntry): AuditEntry {
    e.(action := Utf8.Scrubbed(e.action), userId := ScrubbedOption(e.userId), resource := ScrubbedOption(e.resource),
       ipHash := Utf8.Scrubbed(e.ipHash), region := Utf8.Scrubbed(e.region), requestId := Utf8.Scrubbed(e.requestId))
  }

  function ScrubbedLog(rows: seq<AuditRow>): seq<AuditRow>
  {
    seq(|rows|, i requires 0 <= i < |rows| => rows[i].(entry := ScrubbedEntry(rows[i].entry)))
  }

  // ---------- canonical JSON always has an encoding ----------

  lemma {:induction false} ConcatWellFormed(a: Text, b: Text)
    requires Utf8.IsWellFormed(a) && Utf8.IsWellFormed(b)
    ensures Utf8.IsWellFormed(a + b)
  {
    if a == [] {
      assert a + b == b;
    } else if StartsWithPair(a) {
      assert (a + b)[2..] == a[2..] + b;
      ConcatWellFormed(a[2..], b);
    } else {
      assert (a + b)[1..] == a[1..] + b;
      ConcatWellFormed(a[1..], b);
    }
  }

  lemma {:induction false} PlainUnitsWellFormed(t: Text)
    requires forall i :: 0 <= i < |t| ==> !IsSurrogate(t[i])
    ensures Utf8.IsWellFormed(t)
  {
    if t == [] {
    } else {
      PlainUnitsWellFormed(t[1..]);
    }
  }

  lemma {:induction false} JoinWellFormed(parts: seq<Text>, separator: CodeUnit)
    requires !IsSurrogate(separator)
    requires forall i :: 0 <= i < |parts| ==> Utf8.IsWellFormed(parts[i])
    ensures Utf8.IsWellFormed(Join(parts, separator))
  {
    if |parts| > 1 {
      JoinWellFormed(parts[1..], separator);
      PlainUnitsWellFormed([separator]);
      ConcatWellFormed(parts[0], [separator]);
      ConcatWellFormed(parts[0] + [separator], Join(parts[1..], separator));
    }
  }

  /** Escaping leaves no lone surrogate. */
  lemma {:induction false} EscapeWellFormed(s: Text)
    ensures Utf8.IsWellFormed(Escape(s))
  {
    if s == [] {
    } else {
      if StartsWithPair(s) {
        EscapeWellFormed(s[2..]);
        assert s[..2][2..] == [];
        ConcatWellFormed(s[..2], Escape(s[2..]));
      } else {
        EscapeWellFormed(s[1..]);
        PlainUnitsWellFormed(EscapeUnit(s[0]));
        ConcatWellFormed(EscapeUnit(s[0]), Escape(s[1..]));
      }
    }
  }

  lemma QuotedWellFormed(s: Text)
    ensures Utf8.IsWellFormed(Quoted(s))
  {
    EscapeWellFormed(s);
    BracketedWellFormed(QUOTE, Escape(s), QUOTE);
  }

  lemma BracketedWellFormed(open: CodeUnit, body: Text, close: CodeUnit)
    requires Utf8.IsWellFormed(body) && !IsSurrogate(open) && !IsSurrogate(close)
    ensures Utf8.IsWellFormed([open] + body + [close])
  {
    PlainUnitsWellFormed([open]);
    PlainUnitsWellFormed([close]);
    ConcatWellFormed([open], body);
    ConcatWellFormed([open] + body, [close]);
  }

  lemma ListWellFormed(open: CodeUnit, parts: seq<Text>, close: CodeUnit)
    requires !IsSurrogate(open) && !IsSurrogate(close)
    requires forall i :: 0 <= i < |parts| ==> Utf8.IsWellFormed(parts[i])
    ensures Utf8.IsWellFormed([open] + Join(parts, COMMA) + [close])
  {
    JoinWellFormed(parts, COMMA);
    BracketedWellFormed(open, Join(parts, COMMA), close);
  }

  lemma EntryWellFormed(key: Text, text: Text)
    requires Utf8.IsWellFormed(text)
    ensures Utf8.IsWellFormed(Quoted(key) + [COLON] + text)
  {
    QuotedWellFormed(key);
    PlainUnitsWellFormed([COLON]);
    ConcatWellFormed(Quoted(key), [COLON]);
    ConcatWellFormed(Quoted(key) + [COLON], text);
  }

  lemma LeafWellFormed(v: JsValue)
    requires WellFormed(v) && !v.String? && !v.Array? && !v.Object?
    ensures Utf8.IsWellFormed(CanonicalJson(v))
  {
    PlainUnitsWellFormed(CanonicalJson(v));
  }

  /** The canonical text of any value is well-formed UTF-16, lone surrogates in its strings included. */
  lemma {:induction false} CanonicalWellFormed(v: JsValue)
    requires WellFormed(v)
    ensures Utf8.IsWellFormed(CanonicalJson(v))
    decreases v, 0
  {
    match v
    case String(chars) => QuotedWellFormed(chars);
    case Array(items) =>
      ItemsWellFormed(items);
      ListWellFormed(LEFT_BRACKET, ItemTexts(items), RIGHT_BRACKET);
    case Object(members) =>
      var keys := Sort(Keys(members));
      SameMultisetSameElements(keys, Keys(members));
      EntriesWellFormed(keys, members);
      ListWellFormed(LEFT_BRACE, EntryTexts(keys, members), RIGHT_BRACE);
    case _ => LeafWellFormed(v);
  }

  lemma {:induction false} ItemsWellFormed(items: seq<JsValue>)
    requires WellFormed(Array(items))
    ensures forall i :: 0 <= i < |items| ==> Utf8.IsWellFormed(ItemTexts(items)[i])
    decreases items, 1
  {
    if items == [] {
    } else {
      CanonicalWellFormed(items[0]);
      ItemsWellFormed(items[1..]);
    }
  }

  lemma {:induction false} EntriesWellFormed(keys: seq<Text>, members: seq<Member>)
    requires WellFormed(Object(members)) && forall k :: k in keys ==> k in Keys(members)
    ensures forall i :: 0 <= i < |keys| ==> Utf8.IsWellFormed(EntryTexts(keys, members)[i])
    decreases members, |keys| + 1
  {
    if keys == [] {
    } else {
      assert keys[0] in keys;
      var value := Lookup(members, keys[0]);
      var i :| 0 <= i < |members| && members[i] == Member(keys[0], value);
      CanonicalWellFormed(value);
      EntryWellFormed(keys[0], CanonicalJson(value));
      EntriesWellFormed(keys[1..], members);
    }
  }

  // ---------- what the bytes of a payload tell ----------

  lemma DetailTextScrubbed(detail: Option<JsValue>)
    requires DetailFits(detail)
    ensures Utf8.Scrubbed(DetailText(detail)) == DetailText(detail)
  {
    if detail.Some? {
      CanonicalWellFormed(detail.value);
    }
    Utf8.ScrubbedIsSame(DetailText(detail));
  }

  /** Scrubbing a payload scrubs its fields. */
  lemma PayloadScrubbed(d: Digest, e: AuditEntry, p: Text, t: int)
    requires DetailFits(e.detail) && Utf8.IsWellFormed(p) && Utf8.IsWellFormed(d.iso(t))
    ensures Utf8.Scrubbed(Payload(d, e, p, t)) == Payload(d, ScrubbedEntry(e), p, t)
  {
    PayloadShape(d, e, p, t);
    PayloadShape(d, ScrubbedEntry(e), p, t);
    DetailTextScrubbed(e.detail);
    Utf8.ScrubbedIsSame(p);
    Utf8.ScrubbedIsSame(d.iso(t));
    var tail := Tail(DetailText(e.detail), e.ipHash, e.region, e.requestId, p, d.iso(t));
    TailScrubbed(DetailText(e.detail), e.ipHash, e.region, e.requestId, p, d.iso(t));
    var third := OrEmpty(e.resource) + ([BAR] + tail);
    Utf8.ScrubbedAround(OrEmpty(e.resource), BAR, tail);
    Utf8.ScrubbedAround(OrEmpty(e.userId), BAR, third);
    Utf8.ScrubbedAround(e.action, BAR, OrEmpty(e.userId) + ([BAR] + third));
  }

  lemma TailScrubbed(a: Text, b: Text, c: Text, d: Text, e: Text, f: Text)
    ensures Utf8.Scrubbed(Tail(a, b, c, d, e, f))
         == Tail(Utf8.Scrubbed(a), Utf8.Scrubbed(b), Utf8.Scrubbed(c), Utf8.Scrubbed(d), Utf8.Scrubbed(e), Utf8.Scrubbed(f))
  {
    var s1 := a + ([BAR] + b);
    var s2 := s1 + ([BAR] + c);
    var s3 := s2 + ([BAR] + d);
    var s4 := s3 + ([BAR] + e);
    Utf8.ScrubbedAround(a, BAR, b);
    Utf8.ScrubbedAround(s1, BAR, c);
    Utf8.ScrubbedAround(s2, BAR, d);
    Utf8.ScrubbedAround(s3, BAR, e);
    Utf8.ScrubbedAround(s4, BAR, f);
  }

  /** Two payloads are hashed over the same bytes exactly when their scrubbed entries have the same payload. */
  lemma SameBytesExactly(d: Digest, e: AuditEntry, p: Text, t: int, f: AuditEntry, p': Text, t': int)
    requires DetailFits(e.detail) && Utf8.IsWellFormed(p) && Utf8.IsWellFormed(d.iso(t))
    requires DetailFits(f.detail) && Utf8.IsWellFormed(p') && Utf8.IsWellFormed(d.iso(t'))
    ensures Utf8.Encode(Payload(d, e, p, t)) == Utf8.Encode(Payload(d, f, p', t'))
       <==> Payload(d, ScrubbedEntry(e), p, t) == Payload(d, ScrubbedEntry(f), p', t')
  {
    Utf8.SameEncoding(Payload(d, e, p, t), Payload(d, f, p', t'));
    PayloadScrubbed(d, e, p, t);
    PayloadScrubbed(d, f, p', t');
  }

  // ---------- tamper evidence over bytes ----------

  lemma HashIsPlain(d: ByteDigest, x: Text)
    requires d.Plain()
    ensures d.OnText().hash(x) == d.sha(Utf8.Encode(x))
    ensures NoBar(d.OnText().hash(x)) && Utf8.IsWellFormed(d.OnText().hash(x))
  {
    assert IsPlain(d.sha(Utf8.Encode(x)));
    PlainUnitsWellFormed(d.sha(Utf8.Encode(x)));
  }

  lemma OnTextBarFree(d: ByteDigest)
    requires d.Plain()
    ensures d.OnText().BarFree()
  {
    forall x
      ensures NoBar(d.OnText().hash(x))
    {
      HashIsPlain(d, x);
    }
    forall t
      ensures NoBar(d.OnText().iso(t))
    {
      assert IsPlain(d.iso(t));
    }
  }

  lemma TipWellFormed(d: ByteDigest, rows: seq<AuditRow>)
    requires d.Plain() && Verifies(d.OnText(), rows)
    ensures Utf8.IsWellFormed(Tip(d.OnText(), rows))
  {
    if rows == [] {
      HashIsPlain(d, GENESIS_INPUT);
    } else {
      HashIsPlain(d, RowPayload(d.OnText(), rows[|rows| - 1]));
    }
  }

  lemma PreviousHashWellFormed(d: ByteDigest, rows: seq<AuditRow>, i: nat)
    requires d.Plain() && Verifies(d.OnText(), rows) && i < |rows|
    ensures Utf8.IsWellFormed(rows[i].previousHash) && Utf8.IsWellFormed(d.OnText().iso(rows[i].createdAt))
  {
    FrontVerifies(d.OnText(), rows, i);
    TipWellFormed(d, rows[..i]);
    assert IsPlain(d.iso(rows[i].createdAt));
    PlainUnitsWellFormed(d.iso(rows[i].createdAt));
  }

  lemma FrontVerifies(d: Digest, rows: seq<AuditRow>, i: nat)
    requires Verifies(d, rows) && i <= |rows|
    ensures Verifies(d, rows[..i])
    ensures i < |rows| ==> rows[i].previousHash == Tip(d, rows[..i])
  {
    forall j | 0 <= j < i
      ensures rows[..i][j].previousHash == Tip(d, rows[..i][..j])
    {
      assert rows[..i][..j] == rows[..j];
    }
  }

  lemma RowScrubbed(d: ByteDigest, rows: seq<AuditRow>, i: nat)
    requires d.Plain() && Verifies(d.OnText(), rows) && ReadableLog(rows) && i < |rows|
    ensures RowPayload(d.OnText(), ScrubbedLog(rows)[i]) == Utf8.Scrubbed(RowPayload(d.OnText(), rows[i]))
    ensures Utf8.Encode(RowPayload(d.OnText(), ScrubbedLog(rows)[i])) == Utf8.Encode(RowPayload(d.OnText(), rows[i]))
  {
    var r := rows[i];
    PreviousHashWellFormed(d, rows, i);
    PayloadScrubbed(d.OnText(), r.entry, r.previousHash, r.createdAt);
    Utf8.EncodeScrubbed(RowPayload(d.OnText(), r));
  }

  /** Replacing the lone surrogates of all fields goes unnoticed. */
  lemma ScrubbedLogVerifies(d: ByteDigest, rows: seq<AuditRow>)
    requires d.Plain() && Verifies(d.OnText(), rows) && ReadableLog(rows)
    ensures var s := ScrubbedLog(rows);
            Verifies(d.OnText(), s) && Tip(d.OnText(), s) == Tip(d.OnText(), rows) && ReadableLog(s)
  {
    var s := ScrubbedLog(rows);
    forall i | 0 <= i < |rows|
      ensures SameLinks(rows[i], s[i])
      ensures d.OnText().hash(RowPayload(d.OnText(), rows[i])) == d.OnText().hash(RowPayload(d.OnText(), s[i]))
    {
      RowScrubbed(d, rows, i);
      HashIsPlain(d, RowPayload(d.OnText(), rows[i]));
      HashIsPlain(d, RowPayload(d.OnText(), s[i]));
    }
    SameLinksVerify(d.OnText(), rows, s);
  }

  lemma ScrubbedNoBar(t: Text)
    requires NoBar(t)
    ensures NoBar(Utf8.Scrubbed(t))
  {
    Utf8.ScrubbedHasNoNew(t, BAR);
  }

  lemma ScrubbedSafe(rows: seq<AuditRow>)
    requires SafeLog(rows)
    ensures SafeLog(ScrubbedLog(rows))
  {
    forall i | 0 <= i < |rows|
      ensures IsSafe(ScrubbedLog(rows)[i].entry)
    {
      var e := rows[i].entry;
      assert IsSafe(e);
      ScrubbedNoBar(e.action);
      ScrubbedNoBar(OrEmpty(e.userId));
      ScrubbedNoBar(OrEmpty(e.resource));
      ScrubbedNoBar(e.ipHash);
      ScrubbedNoBar(e.region);
      ScrubbedNoBar(e.requestId);
    }
  }

  /** Two different byte strings, one hashed for each log, with the same hash. */
  ghost predicate ByteCollision(d: ByteDigest, a: seq<AuditRow>, b: seq<AuditRow>) {
    exists x, y :: x in Inputs(d.OnText(), a) && y in Inputs(d.OnText(), b)
                   && Utf8.Encode(x) != Utf8.Encode(y) && d.sha(Utf8.Encode(x)) == d.sha(Utf8.Encode(y))
  }

  lemma {:induction false} InputsAre(d: Digest, rows: seq<AuditRow>)
    ensures Inputs(d, rows)[0] == GENESIS_INPUT
    ensures forall i :: 0 <= i < |rows| ==> Inputs(d, rows)[i + 1] == RowPayload(d, rows[i])
    decreases |rows|
  {
    if rows == [] {
    } else {
      InputsAre(d, rows[..|rows| - 1]);
    }
  }

  /** The text hashed for row i; for the genesis hash, before row 0. */
  function InputAt(d: Digest, rows: seq<AuditRow>, i: int): Text
    requires -1 <= i < |rows|
  {
    if i < 0 then GENESIS_INPUT else RowPayload(d, rows[i])
  }

  lemma FindInput(d: Digest, rows: seq<AuditRow>, x: Text) returns (i: int)
    requires x in Inputs(d, rows)
    ensures -1 <= i < |rows| && x == InputAt(d, rows, i)
  {
    InputsAre(d, rows);
    var k :| 0 <= k < |Inputs(d, rows)| && Inputs(d, rows)[k] == x;
    i := k - 1;
  }

  lemma IsInput(d: Digest, rows: seq<AuditRow>, i: int)
    requires -1 <= i < |rows|
    ensures InputAt(d, rows, i) in Inputs(d, rows)
  {
    InputsAre(d, rows);
    assert Inputs(d, rows)[i + 1] in Inputs(d, rows);
  }

  /** Every text hashed for the scrubbed log is well formed, and its bytes are hashed for the log itself. */
  lemma ScrubbedInput(d: ByteDigest, rows: seq<AuditRow>, i: int)
    requires d.Plain() && Verifies(d.OnText(), rows) && ReadableLog(rows) && -1 <= i < |rows|
    ensures var x, y := InputAt(d.OnText(), ScrubbedLog(rows), i), InputAt(d.OnText(), rows, i);
            Utf8.Encode(y) == Utf8.Encode(x) && Utf8.IsWellFormed(x)
  {
    if i < 0 {
      PlainUnitsWellFormed(GENESIS_INPUT);
    } else {
      RowScrubbed(d, rows, i);
      Utf8.ScrubbedWellFormed(RowPayload(d.OnText(), rows[i]));
    }
  }

  lemma DifferentBytes(x: Text, y: Text)
    requires Utf8.IsWellFormed(x) && Utf8.IsWellFormed(y) && x != y
    ensures Utf8.Encode(x) != Utf8.Encode(y)
  {
    Utf8.SameEncoding(x, y);
    Utf8.ScrubbedIsSame(x);
    Utf8.ScrubbedIsSame(y);
  }

  /** Tamper evidence down to the bytes: whatever readable log is presented in place of a safe one, if it verifies and
      ends in the same hash it agrees on every hashed field of every row up to lone surrogates, or SHA-256 itself has
      collided on two byte strings hashed for the logs. */
  lemma TamperEvidenceOverBytes(d: ByteDigest, a: seq<AuditRow>, b: seq<AuditRow>)
    requires d.Plain() && ReadableLog(a) && SafeLog(a) && ReadableLog(b)
    requires Verifies(d.OnText(), a) && Verifies(d.OnText(), b) && Tip(d.OnText(), a) == Tip(d.OnText(), b)
    ensures Agree(d.OnText(), ScrubbedLog(a), ScrubbedLog(b)) || ByteCollision(d, a, b)
  {
    OnTextBarFree(d);
    ScrubbedLogVerifies(d, a);
    ScrubbedLogVerifies(d, b);
    ScrubbedSafe(a);
    TamperEvidence(d.OnText(), ScrubbedLog(a), ScrubbedLog(b));
    if !Agree(d.OnText(), ScrubbedLog(a), ScrubbedLog(b)) {
      var t := d.OnText();
      var x, y :| x in Inputs(t, ScrubbedLog(a)) && y in Inputs(t, ScrubbedLog(b)) && x != y && t.hash(x) == t.hash(y);
      var i := FindInput(t, ScrubbedLog(a), x);
      var j := FindInput(t, ScrubbedLog(b), y);
      ScrubbedInput(d, a, i);
      ScrubbedInput(d, b, j);
      IsInput(t, a, i);
      IsInput(t, b, j);
      HashIsPlain(d, x);
      HashIsPlain(d, y);
      DifferentBytes(x, y);
    }
  }
}
