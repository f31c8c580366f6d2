/** What the last hash of an audit log proves about its rows, and exactly where it proves nothing.

    A row hashes nine fields joined by bars. Three stand before the detail and five after it, so bars inside the
    detail do no harm by themselves; but a row read back need not cut the text where the row written did. */
module AuditEvidence {
  import opened Wrappers
  import opened CodeUnits
  import opened JsonPrinter
  import opened JsonDecoding
  import opened JsonBars
  import opened AuditChain

  // ---------- counting bars ----------

  function Bars(t: Text): nat {
    if t == [] then 0 else (if t[0] == BAR then 1 else 0) + Bars(t[1..])
  }

  lemma {:induction false} BarsConcat(a: Text, b: Text)
    ensures Bars(a + b) == Bars(a) + Bars(b)
  {
    if a == [] {
      assert a + b == b;
    } else {
      assert (a + b)[1..] == a[1..] + b;
      BarsConcat(a[1..], b);
    }
  }

  lemma {:induction false} NoBarsCounted(t: Text)
    ensures Bars(t) == 0 <==> NoBar(t)
  {
    if t == [] {
    } else {
      NoBarsCounted(t[1..]);
      assert NoBar(t) <==> t[0] != BAR && NoBar(t[1..]) by {
        assert t == [t[0]] + t[1..];
      }
    }
  }

  lemma HasBar(t: Text, i: nat)
    requires i < |t| && t[i] == BAR
    ensures Bars(t) > 0
  {
    NoBarsCounted(t);
  }

  lemma FrontHasFewer(v: Text, u: Text)
    requires |v| < |u| && v == u[..|v|] && u[|u| - 1] == BAR
    ensures Bars(v) < Bars(u)
  {
    var z := u[|v|..];
    assert u == v + z;
    HasBar(z, |z| - 1);
    BarsConcat(v, z);
  }

  lemma EndHasFewer(v: Text, u: Text)
    requires |v| < |u| && v == u[|u| - |v|..] && u[0] == BAR
    ensures Bars(v) < Bars(u)
  {
    var z := u[..|u| - |v|];
    assert u == z + v;
    HasBar(z, 0);
    BarsConcat(z, v);
  }

  lemma Fronts(u: Text, x: Text, v: Text, y: Text)
    requires u + x == v + y && |u| <= |v|
    ensures u == v[..|u|] && v == u + v[|u|..] && x == v[|u|..] + y
  {
    var w := u + x;
    assert u == w[..|u|] && v == w[..|v|] && x == w[|u|..];
  }

  lemma Ends(x: Text, u: Text, y: Text, v: Text)
    requires x + u == y + v && |u| <= |v|
    ensures u == v[|v| - |u|..] && v == v[..|v| - |u|] + u && x == y + v[..|v| - |u|]
  {
    var w := x + u;
    assert u == w[|w| - |u|..] && v == w[|w| - |v|..] && x == w[..|w| - |u|];
  }

  /** A beginning that closes with a bar is no longer than another beginning of the same text with as many bars. */
  lemma FewerBarsShorterFront(u: Text, x: Text, v: Text, y: Text)
    requires u + x == v + y && u != [] && u[|u| - 1] == BAR && Bars(u) <= Bars(v)
    ensures |u| <= |v| && v == u + v[|u|..] && x == v[|u|..] + y
  {
    if |v| < |u| {
      Fronts(v, y, u, x);
      FrontHasFewer(v, u);
    } else {
      Fronts(u, x, v, y);
    }
  }

  lemma FewerBarsShorterEnd(x: Text, u: Text, y: Text, v: Text)
    requires x + u == y + v && u != [] && u[0] == BAR && Bars(u) <= Bars(v)
    ensures |u| <= |v| && v == v[..|v| - |u|] + u && x == y + v[..|v| - |u|]
  {
    if |v| < |u| {
      Ends(y, v, x, u);
      EndHasFewer(v, u);
    } else {
      Ends(x, u, y, v);
    }
  }

  // ---------- a payload around its detail ----------

  function Head(e: AuditEntry): Text {
    (e.action + [BAR]) + ((OrEmpty(e.userId) + [BAR]) + (OrEmpty(e.resource) + [BAR]))
  }

  function Rear(e: AuditEntry, p: Text, time: Text): Text {
    ([BAR] + e.ipHash) + (([BAR] + e.region) + (([BAR] + e.requestId) + (([BAR] + p) + ([BAR] + time))))
  }

  lemma PayloadAround(d: Digest, e: AuditEntry, p: Text, t: int)
    ensures Payload(d, e, p, t) == Head(e) + (DetailText(e.detail) + Rear(e, p, d.iso(t)))
  {
    PayloadShape(d, e, p, t);
    var time := d.iso(t);
    Regrouped(DetailText(e.detail), e.ipHash, e.region, e.requestId, p, time);
    HeadOnto(e.action, OrEmpty(e.userId), OrEmpty(e.resource), DetailText(e.detail) + Rear(e, p, time));
  }

  lemma Regrouped(a: Text, b: Text, c: Text, d: Text, e: Text, f: Text)
    ensures Tail(a, b, c, d, e, f)
         == a + (([BAR] + b) + (([BAR] + c) + (([BAR] + d) + (([BAR] + e) + ([BAR] + f)))))
  {
  }

  lemma HeadOnto(a: Text, b: Text, c: Text, rest: Text)
    ensures a + ([BAR] + (b + ([BAR] + (c + ([BAR] + rest))))) == ((a + [BAR]) + ((b + [BAR]) + (c + [BAR]))) + rest
  {
  }

  lemma HeadBars(e: AuditEntry)
    ensures Head(e) != [] && Head(e)[|Head(e)| - 1] == BAR
    ensures Bars(Head(e)) == 3 + Bars(e.action) + Bars(OrEmpty(e.userId)) + Bars(OrEmpty(e.resource))
  {
    var a, b, c := e.action + [BAR], OrEmpty(e.userId) + [BAR], OrEmpty(e.resource) + [BAR];
    BarsConcat(a, b + c);
    BarsConcat(b, c);
    OneMoreBar(e.action);
    OneMoreBar(OrEmpty(e.userId));
    OneMoreBar(OrEmpty(e.resource));
  }

  lemma RearBars(e: AuditEntry, p: Text, time: Text)
    ensures Rear(e, p, time) != [] && Rear(e, p, time)[0] == BAR
    ensures Bars(Rear(e, p, time)) == 5 + Bars(e.ipHash) + Bars(e.region) + Bars(e.requestId) + Bars(p) + Bars(time)
  {
    var a, b, c, f, g := [BAR] + e.ipHash, [BAR] + e.region, [BAR] + e.requestId, [BAR] + p, [BAR] + time;
    BarsConcat(a, b + (c + (f + g)));
    BarsConcat(b, c + (f + g));
    BarsConcat(c, f + g);
    BarsConcat(f, g);
    OneMoreBar(e.ipHash);
    OneMoreBar(e.region);
    OneMoreBar(e.requestId);
    OneMoreBar(p);
    OneMoreBar(time);
  }

  lemma OneMoreBar(t: Text)
    ensures Bars(t + [BAR]) == Bars(t) + 1 && Bars([BAR] + t) == Bars(t) + 1
  {
    BarsConcat(t, [BAR]);
    BarsConcat([BAR], t);
    assert Bars([BAR]) == 1 + Bars([BAR][1..]);
  }

  lemma BarFreeHead(e: AuditEntry)
    ensures Bars(Head(e)) == 3 <==> NoBar(e.action) && NoBar(OrEmpty(e.userId)) && NoBar(OrEmpty(e.resource))
  {
    HeadBars(e);
    NoBarsCounted(e.action);
    NoBarsCounted(OrEmpty(e.userId));
    NoBarsCounted(OrEmpty(e.resource));
  }

  lemma BarFreeRear(e: AuditEntry, p: Text, time: Text)
    ensures Bars(Rear(e, p, time)) == 5
       <==> NoBar(e.ipHash) && NoBar(e.region) && NoBar(e.requestId) && NoBar(p) && NoBar(time)
  {
    RearBars(e, p, time);
    NoBarsCounted(e.ipHash);
    NoBarsCounted(e.region);
    NoBarsCounted(e.requestId);
    NoBarsCounted(p);
    NoBarsCounted(time);
  }

  // ---------- slots ----------

  /** `x` stands between two bars of `t`. */
  ghost predicate Between(t: Text, x: Text) {
    exists front, back :: t == (front + [BAR]) + (x + ([BAR] + back))
  }

  /** The text of a detail has a slot when something that reads as a whole detail, nothing at all or the canonical text
      of an object, stands between two bars of it. */
  ghost predicate HasSlot(detail: Option<JsValue>) {
    exists other: Option<JsValue> :: DetailFits(other) && Between(DetailText(detail), DetailText(other))
  }

  lemma DetailBalanced(detail: Option<JsValue>)
    requires DetailFits(detail)
    ensures IsBalanced(DetailText(detail))
  {
    match detail
    case None =>
    case Some(v) => CanonicalBalanced(v);
  }

  lemma BetweenBars(t: Text, x: Text)
    requires Between(t, x)
    ensures !NoBar(t)
  {
    var front, back :| t == (front + [BAR]) + (x + ([BAR] + back));
    assert t[|front|] == BAR;
  }

  lemma BarFreeDetailHasNoSlot(detail: Option<JsValue>)
    requires NoBar(DetailText(detail))
    ensures !HasSlot(detail)
  {
    if HasSlot(detail) {
      var other: Option<JsValue> :| DetailFits(other) && Between(DetailText(detail), DetailText(other));
      BetweenBars(DetailText(detail), DetailText(other));
    }
  }

  /** Whatever entry shares the payload of a separable one, its detail text lies inside the other's. */
  lemma DetailShrinks(d: Digest, e: AuditEntry, p: Text, t: int, f: AuditEntry, p': Text, t': int)
    returns (front: Text, back: Text)
    requires d.BarFree() && BarFreeFields(e) && NoBar(p)
    requires Payload(d, e, p, t) == Payload(d, f, p', t')
    ensures DetailText(e.detail) == front + (DetailText(f.detail) + back)
    ensures Head(f) == Head(e) + front && Rear(f, p', d.iso(t')) == back + Rear(e, p, d.iso(t))
    ensures front != [] ==> front[|front| - 1] == BAR
    ensures back != [] ==> back[0] == BAR
  {
    PayloadAround(d, e, p, t);
    PayloadAround(d, f, p', t');
    BarFreeHead(e);
    HeadBars(e);
    HeadBars(f);
    BarFreeRear(e, p, d.iso(t));
    RearBars(e, p, d.iso(t));
    RearBars(f, p', d.iso(t'));
    front, back := MiddleShrinks(Head(e), DetailText(e.detail), Rear(e, p, d.iso(t)),
                                 Head(f), DetailText(f.detail), Rear(f, p', d.iso(t')));
  }

  lemma MiddleShrinks(head: Text, x: Text, rear: Text, head': Text, y: Text, rear': Text)
    returns (front: Text, back: Text)
    requires head + (x + rear) == head' + (y + rear')
    requires head != [] && head[|head| - 1] == BAR && Bars(head) <= Bars(head')
    requires head' != [] && head'[|head'| - 1] == BAR
    requires rear != [] && rear[0] == BAR && Bars(rear) <= Bars(rear')
    requires rear' != [] && rear'[0] == BAR
    ensures x == front + (y + back) && head' == head + front && rear' == back + rear
    ensures front != [] ==> front[|front| - 1] == BAR
    ensures back != [] ==> back[0] == BAR
  {
    FewerBarsShorterFront(head, x + rear, head', y + rear');
    front := head'[|head|..];
    assert front + (y + rear') == (front + y) + rear';
    FewerBarsShorterEnd(x, rear, front + y, rear');
    back := rear'[..|rear'| - |rear|];
    assert (front + y) + back == front + (y + back);
    assert front != [] ==> front[|front| - 1] == head'[|head'| - 1];
    assert back != [] ==> back[0] == rear'[0];
  }

  /** The piece is the whole, or it stands in a slot: bars are inside strings and an object is not. */
  lemma WholeOrSlot(x: Text, y: Text, front: Text, back: Text)
    requires IsBalanced(x) && IsBalanced(y) && x == front + (y + back)
    requires front != [] ==> front[|front| - 1] == BAR
    requires back != [] ==> back[0] == BAR
    ensures (front == [] && back == []) || Between(x, y)
  {
    if front == [] && back != [] {
      assert back == [BAR] + back[1..] && x == y + ([BAR] + back[1..]);
      NoBarAfter(y, back[1..]);
    } else if front != [] && back == [] {
      assert front == front[..|front| - 1] + [BAR] && x == (front[..|front| - 1] + [BAR]) + y;
      NoBarBefore(front[..|front| - 1], y);
    } else if front != [] {
      assert front == front[..|front| - 1] + [BAR] && back == [BAR] + back[1..];
    }
  }

  /** An entry without slots and stray bars is told by its payload, among all readable entries. */
  lemma PayloadDeterminesFields(d: Digest, e: AuditEntry, p: Text, t: int, f: AuditEntry, p': Text, t': int)
    requires d.BarFree() && SeparableEntry(e) && NoBar(p) && !HasSlot(e.detail) && DetailFits(f.detail)
    requires Payload(d, e, p, t) == Payload(d, f, p', t')
    ensures SameFields(d, e, p, t, f, p', t')
  {
    var front, back := DetailShrinks(d, e, p, t, f, p', t');
    DetailBalanced(e.detail);
    DetailBalanced(f.detail);
    WholeOrSlot(DetailText(e.detail), DetailText(f.detail), front, back);
    assert Between(DetailText(e.detail), DetailText(f.detail)) ==> HasSlot(e.detail);
    assert Head(f) == Head(e) && Rear(f, p', d.iso(t')) == Rear(e, p, d.iso(t));
    BarFreeHead(e);
    BarFreeHead(f);
    BarFreeRear(e, p, d.iso(t));
    BarFreeRear(f, p', d.iso(t'));
    SeparablePayloads(d, e, p, t, f, p', t');
  }

  // ---------- forgeries ----------

  /** The entry that keeps only the piece in the slot and moves the rest of the detail into its neighbours. */
  function Shrunk(e: AuditEntry, other: Option<JsValue>, front: Text, back: Text): AuditEntry {
    e.(resource := Some(OrEmpty(e.resource) + ([BAR] + front)), detail := other, ipHash := back + ([BAR] + e.ipHash))
  }

  /** Every slot forges: resource, detail and address hash change, the payload does not. */
  lemma SlotForges(d: Digest, e: AuditEntry, other: Option<JsValue>, front: Text, back: Text, p: Text, t: int)
    requires DetailText(e.detail) == (front + [BAR]) + (DetailText(other) + ([BAR] + back))
    ensures Payload(d, Shrunk(e, other, front, back), p, t) == Payload(d, e, p, t)
    ensures Shrunk(e, other, front, back).ipHash != e.ipHash
  {
    var f := Shrunk(e, other, front, back);
    var y := DetailText(other);
    PayloadShape(d, e, p, t);
    PayloadShape(d, f, p, t);
    Regrouped(DetailText(e.detail), e.ipHash, e.region, e.requestId, p, d.iso(t));
    Regrouped(y, f.ipHash, e.region, e.requestId, p, d.iso(t));
    var rest := ([BAR] + e.region) + (([BAR] + e.requestId) + (([BAR] + p) + ([BAR] + d.iso(t))));
    SlotOnto(OrEmpty(e.resource), front, y, back, e.ipHash, rest);
  }

  lemma SlotOnto(resource: Text, front: Text, y: Text, back: Text, ipHash: Text, rest: Text)
    ensures (resource + ([BAR] + front)) + ([BAR] + (y + (([BAR] + (back + ([BAR] + ipHash))) + rest)))
         == resource + ([BAR] + (((front + [BAR]) + (y + ([BAR] + back))) + (([BAR] + ipHash) + rest)))
  {
  }

  /** Two bars in a row, as in the detail `{"k":"||"}`, let the whole detail be erased; only resource, detail and address
      hash differ, so that the forged row can be stored where the true one can. */
  lemma DoubleBarErasesDetail(d: Digest, e: AuditEntry, p: Text, t: int)
    requires e.detail == Some(Object([Member([107], String([BAR, BAR]))]))
    ensures DetailFits(e.detail)
    ensures exists f: AuditEntry ::
              && f == e.(resource := f.resource, detail := None, ipHash := f.ipHash)
              && Payload(d, f, p, t) == Payload(d, e, p, t)
  {
    var front, back := [LEFT_BRACE, QUOTE, 107, QUOTE, COLON, QUOTE], [QUOTE, RIGHT_BRACE];
    DoubleBarText();
    assert DetailText(e.detail) == (front + [BAR]) + (DetailText(None) + ([BAR] + back));
    SlotForges(d, e, None, front, back, p, t);
    var f := Shrunk(e, None, front, back);
    assert f == e.(resource := f.resource, detail := None, ipHash := f.ipHash);
  }

  lemma DoubleBarText()
    ensures CanonicalJson(Object([Member([107], String([BAR, BAR]))]))
         == [LEFT_BRACE, QUOTE, 107, QUOTE, COLON, QUOTE, BAR, BAR, QUOTE, RIGHT_BRACE]
  {
    OneMemberText([107], String([BAR, BAR]));
    PlainEscape([107]);
    PlainEscape([BAR, BAR]);
  }

  lemma OneMemberText(key: Text, value: JsValue)
    ensures CanonicalJson(Object([Member(key, value)]))
         == [LEFT_BRACE] + (Quoted(key) + [COLON] + CanonicalJson(value)) + [RIGHT_BRACE]
  {
    var members := [Member(key, value)];
    assert members[1..] == [] && Keys(members) == [key];
    assert [key][1..] == [] && Sort([key]) == Insert(key, Sort([])) == [key];
    assert EntryTexts([key], members) == [Quoted(key) + [COLON] + CanonicalJson(value)];
  }

  lemma {:induction false} PlainEscape(t: Text)
    requires forall i :: 0 <= i < |t| ==> 93 < t[i] < 128
    ensures Escape(t) == t
  {
    if t == [] {
    } else {
      PlainEscape(t[1..]);
      assert t == [t[0]] + t[1..];
    }
  }

  /** A bar in any other hashed field lets its boundary move: another entry with the same detail and payload. */
  lemma BarForges(e: AuditEntry) returns (f: AuditEntry)
    requires !BarFreeFields(e)
    ensures f.detail == e.detail
    ensures forall d: Digest, p, t :: Payload(d, f, p, t) == Payload(d, e, p, t) && !SameFields(d, e, p, t, f, p, t)
  {
    if !NoBar(e.action) {
      var x, y := CutAtBar(e.action);
      f := e.(action := x, userId := Some(y + ([BAR] + OrEmpty(e.userId))));
      HeadShift(x, y, OrEmpty(e.userId), OrEmpty(e.resource));
    } else if !NoBar(OrEmpty(e.userId)) {
      var x, y := CutAtBar(OrEmpty(e.userId));
      f := e.(action := e.action + ([BAR] + x), userId := Some(y));
      HeadShift(e.action, x, y, OrEmpty(e.resource));
    } else if !NoBar(OrEmpty(e.resource)) {
      var x, y := CutAtBar(OrEmpty(e.resource));
      f := e.(userId := Some(OrEmpty(e.userId) + ([BAR] + x)), resource := Some(y));
      HeadShift'(e.action, OrEmpty(e.userId), x, y);
    } else if !NoBar(e.ipHash) {
      var x, y := CutAtBar(e.ipHash);
      f := e.(ipHash := x, region := y + ([BAR] + e.region));
      SameRear(e, f, x, y, e.region);
    } else if !NoBar(e.region) {
      var x, y := CutAtBar(e.region);
      f := e.(ipHash := e.ipHash + ([BAR] + x), region := y);
      SameRear(e, f, e.ipHash, x, y);
    } else {
      var x, y := CutAtBar(e.requestId);
      f := e.(region := e.region + ([BAR] + x), requestId := y);
      SameRear'(e, f, x, y);
    }
    forall d: Digest, p, t
      ensures Payload(d, f, p, t) == Payload(d, e, p, t) && !SameFields(d, e, p, t, f, p, t)
    {
      PayloadAround(d, e, p, t);
      PayloadAround(d, f, p, t);
      assert Rear(f, p, d.iso(t)) == Rear(e, p, d.iso(t));
    }
  }

  lemma CutAtBar(t: Text) returns (x: Text, y: Text)
    requires !NoBar(t)
    ensures t == x + ([BAR] + y) && |x| < |t| && |y| < |t|
  {
    var i :| 0 <= i < |t| && t[i] == BAR;
    x, y := t[..i], t[i + 1..];
  }

  lemma HeadShift(a: Text, b: Text, c: Text, resource: Text)
    ensures ((a + ([BAR] + b)) + [BAR]) + ((c + [BAR]) + (resource + [BAR]))
         == (a + [BAR]) + (((b + ([BAR] + c)) + [BAR]) + (resource + [BAR]))
  {
  }

  lemma HeadShift'(action: Text, a: Text, b: Text, c: Text)
    ensures (action + [BAR]) + (((a + ([BAR] + b)) + [BAR]) + (c + [BAR]))
         == (action + [BAR]) + ((a + [BAR]) + ((b + ([BAR] + c)) + [BAR]))
  {
  }

  lemma SameRear(e: AuditEntry, f: AuditEntry, a: Text, b: Text, c: Text)
    requires f.requestId == e.requestId
    requires (e.ipHash == a + ([BAR] + b) && e.region == c && f.ipHash == a && f.region == b + ([BAR] + c))
          || (e.ipHash == a && e.region == b + ([BAR] + c) && f.ipHash == a + ([BAR] + b) && f.region == c)
    ensures forall p, time :: Rear(f, p, time) == Rear(e, p, time)
  {
    forall p, time
      ensures Rear(f, p, time) == Rear(e, p, time)
    {
      RearShift(a, b, c, ([BAR] + e.requestId) + (([BAR] + p) + ([BAR] + time)));
    }
  }

  lemma SameRear'(e: AuditEntry, f: AuditEntry, b: Text, c: Text)
    requires f.ipHash == e.ipHash && e.requestId == b + ([BAR] + c)
    requires f.region == e.region + ([BAR] + b) && f.requestId == c
    ensures forall p, time :: Rear(f, p, time) == Rear(e, p, time)
  {
    forall p, time
      ensures Rear(f, p, time) == Rear(e, p, time)
    {
      RearShift(e.region, b, c, ([BAR] + p) + ([BAR] + time));
    }
  }

  lemma RearShift(a: Text, b: Text, c: Text, rest: Text)
    ensures ([BAR] + (a + ([BAR] + b))) + (([BAR] + c) + rest) == ([BAR] + a) + (([BAR] + (b + ([BAR] + c))) + rest)
  {
  }

  // ---------- exactly which rows are told by their payload ----------

  /** No readable entry with another hashed field has the same payload. */
  ghost predicate IsIdentified(d: Digest, e: AuditEntry, p: Text, t: int) {
    forall f: AuditEntry, p', t' :: DetailFits(f.detail) && Payload(d, f, p', t') == Payload(d, e, p, t) ==>
                                      SameFields(d, e, p, t, f, p', t')
  }

  ghost predicate IsSafe(e: AuditEntry) {
    BarFreeFields(e) && !HasSlot(e.detail)
  }

  /** An unsafe entry shares its payload with another readable one that differs in a hashed field. */
  lemma UnsafeIsForged(d: Digest, e: AuditEntry, p: Text, t: int) returns (f: AuditEntry)
    requires DetailFits(e.detail) && !IsSafe(e)
    ensures DetailFits(f.detail) && Payload(d, f, p, t) == Payload(d, e, p, t) && !SameFields(d, e, p, t, f, p, t)
  {
    if BarFreeFields(e) {
      var other: Option<JsValue> :| DetailFits(other) && Between(DetailText(e.detail), DetailText(other));
      var front, back :| DetailText(e.detail) == (front + [BAR]) + (DetailText(other) + ([BAR] + back));
      SlotForges(d, e, other, front, back, p, t);
      f := Shrunk(e, other, front, back);
    } else {
      f := BarForges(e);
    }
  }

  /** A payload tells its entry exactly when no other hashed field holds a bar and the detail has no slot. */
  lemma PayloadIdentifiesExactly(d: Digest, e: AuditEntry, p: Text, t: int)
    requires d.BarFree() && NoBar(p) && DetailFits(e.detail)
    ensures IsIdentified(d, e, p, t) <==> IsSafe(e)
  {
    if IsSafe(e) {
      forall f: AuditEntry, p', t' | DetailFits(f.detail) && Payload(d, f, p', t') == Payload(d, e, p, t)
        ensures SameFields(d, e, p, t, f, p', t')
      {
        PayloadDeterminesFields(d, e, p, t, f, p', t');
      }
    } else {
      var f := UnsafeIsForged(d, e, p, t);
    }
  }

  // ---------- whole logs ----------

  ghost predicate SafeLog(rows: seq<AuditRow>) {
    forall i :: 0 <= i < |rows| ==> IsSafe(rows[i].entry)
  }

  lemma PreviousHashBarFree(d: Digest, rows: seq<AuditRow>, i: nat)
    requires d.BarFree() && Verifies(d, rows) && i < |rows|
    ensures NoBar(rows[i].previousHash)
  {
    assert rows[i].previousHash == Tip(d, rows[..i]);
    assert i > 0 ==> rows[..i][i - 1] == rows[i - 1];
  }

  lemma SafePayloadsAgree(d: Digest, a: seq<AuditRow>, b: seq<AuditRow>)
    requires d.BarFree() && ReadableLog(a) && SafeLog(a) && ReadableLog(b)
    requires Verifies(d, a) && Verifies(d, b) && SamePayloads(d, a, b)
    ensures Agree(d, a, b)
  {
    forall i | 0 <= i < |a|
      ensures SameHashedFields(d, a[i], b[i])
    {
      assert RowPayload(d, a[i]) == RowPayload(d, b[i]);
      assert IsSafe(a[i].entry) && DetailFits(a[i].entry.detail) && DetailFits(b[i].entry.detail);
      PreviousHashBarFree(d, a, i);
      PayloadDeterminesFields(d, a[i].entry, a[i].previousHash, a[i].createdAt,
                              b[i].entry, b[i].previousHash, b[i].createdAt);
    }
  }

  /** Tamper evidence: whatever readable log is presented in place of a safe one, if it verifies and ends in the same
      hash it has the same length and agrees on every hashed field of every row, or two hashed texts collide. */
  lemma TamperEvidence(d: Digest, a: seq<AuditRow>, b: seq<AuditRow>)
    requires d.BarFree() && ReadableLog(a) && SafeLog(a) && ReadableLog(b)
    requires Verifies(d, a) && Verifies(d, b) && Tip(d, a) == Tip(d, b)
    ensures Agree(d, a, b) || Collision(d, a, b)
  {
    SameTipSamePayloads(d, a, b);
    if SamePayloads(d, a, b) {
      SafePayloadsAgree(d, a, b);
    }
  }

  /** Between two logs that both keep bars out of all fields but the detail, slots do no harm. */
  lemma SeparableLogsAgree(d: Digest, a: seq<AuditRow>, b: seq<AuditRow>)
    requires d.BarFree() && SeparableLog(a) && SeparableLog(b)
    requires Verifies(d, a) && Verifies(d, b) && Tip(d, a) == Tip(d, b)
    ensures Agree(d, a, b) || Collision(d, a, b)
  {
    SameTipSamePayloads(d, a, b);
    if SamePayloads(d, a, b) {
      forall i | 0 <= i < |a|
        ensures SameHashedFields(d, a[i], b[i])
      {
        assert RowPayload(d, a[i]) == RowPayload(d, b[i]);
        assert SeparableEntry(a[i].entry) && SeparableEntry(b[i].entry);
        PreviousHashBarFree(d, a, i);
        PreviousHashBarFree(d, b, i);
        SeparablePayloads(d, a[i].entry, a[i].previousHash, a[i].createdAt,
                          b[i].entry, b[i].previousHash, b[i].createdAt);
      }
    }
  }

  /** A readable log that passes for `a` without any collision: it hashes the very same texts and says something else. */
  ghost predicate Forges(d: Digest, a: seq<AuditRow>, b: seq<AuditRow>) {
    && ReadableLog(b) && Verifies(d, b) && Tip(d, b) == Tip(d, a)
    && SamePayloads(d, a, b) && !Agree(d, a, b)
  }

  lemma UnsafeRowForges(d: Digest, a: seq<AuditRow>, i: nat) returns (b: seq<AuditRow>)
    requires Verifies(d, a) && ReadableLog(a) && i < |a| && !IsSafe(a[i].entry)
    ensures Forges(d, a, b)
  {
    var f := UnsafeIsForged(d, a[i].entry, a[i].previousHash, a[i].createdAt);
    b := a[i := a[i].(entry := f)];
    ReplacedEntryVerifies(d, a, i, f);
    assert !SameHashedFields(d, a[i], b[i]);
  }

  lemma RowAfterReplacing(d: Digest, a: seq<AuditRow>, i: nat, f: AuditEntry, j: nat)
    requires i < |a| && j < |a|
    requires Payload(d, f, a[i].previousHash, a[i].createdAt) == RowPayload(d, a[i])
    ensures RowPayload(d, a[i := a[i].(entry := f)][j]) == RowPayload(d, a[j])
  {
    var b := a[i := a[i].(entry := f)];
    assert j == i ==> RowPayload(d, b[j]) == Payload(d, f, a[i].previousHash, a[i].createdAt);
    assert j != i ==> b[j] == a[j];
  }

  lemma ReplacedEntryVerifies(d: Digest, a: seq<AuditRow>, i: nat, f: AuditEntry)
    requires Verifies(d, a) && i < |a|
    requires Payload(d, f, a[i].previousHash, a[i].createdAt) == RowPayload(d, a[i])
    ensures var b := a[i := a[i].(entry := f)];
            Verifies(d, b) && SamePayloads(d, a, b) && Tip(d, b) == Tip(d, a)
  {
    var b := a[i := a[i].(entry := f)];
    forall j | 0 <= j < |a|
      ensures SameLinks(a[j], b[j]) && RowPayload(d, a[j]) == RowPayload(d, b[j])
    {
      RowAfterReplacing(d, a, i, f, j);
    }
    SameLinksVerify(d, a, b);
  }

  /** A log can be forged without a collision exactly when one of its rows is unsafe. */
  lemma ForgeableExactly(d: Digest, a: seq<AuditRow>)
    requires d.BarFree() && Verifies(d, a) && ReadableLog(a)
    ensures (exists b :: Forges(d, a, b)) <==> !SafeLog(a)
  {
    if SafeLog(a) {
      forall b: seq<AuditRow> | ReadableLog(b) && Verifies(d, b) && Tip(d, b) == Tip(d, a) && SamePayloads(d, a, b)
        ensures Agree(d, a, b)
      {
        SafePayloadsAgree(d, a, b);
      }
    } else {
      var i :| 0 <= i < |a| && !IsSafe(a[i].entry);
      var b := UnsafeRowForges(d, a, i);
    }
  }
}
