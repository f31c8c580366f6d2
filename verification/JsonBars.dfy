/** Where bars can stand in canonical text: only inside string literals. A scanner keeps track of the quotes. */
module JsonBars {
  import opened CodeUnits
  import opened Hex
  import opened JsonPrinter
  import opened Sequences

  /** Inside a string literal, just after a backslash, and whether every bar so far stood inside a literal. */
  datatype Scan = Scan(inside: bool, escaped: bool, barsInside: bool)

  const OUTSIDE := Scan(false, false, true)
  const INSIDE := Scan(true, false, true)

  function ScanUnit(s: Scan, c: CodeUnit): Scan {
    if !s.escaped && c == BACKSLASH then s.(escaped := true)
    else if !s.escaped && c == QUOTE then s.(inside := !s.inside)
    else Scan(s.inside, false, s.barsInside && (c == BAR ==> s.inside))
  }

  function ScanText(t: Text, s: Scan): Scan
    decreases |t|
  {
    if t == [] then s else ScanText(t[1..], ScanUnit(s, t[0]))
  }

  /** From outside a literal to outside a literal, with every bar inside one. */
  predicate IsBalanced(t: Text) {
    ScanText(t, OUTSIDE) == OUTSIDE
  }

  lemma {:induction false} ScanConcat(a: Text, b: Text, s: Scan)
    ensures ScanText(a + b, s) == ScanText(b, ScanText(a, s))
    decreases |a|
  {
    if a == [] {
      assert a + b == b;
    } else {
      assert (a + b)[1..] == a[1..] + b;
      ScanConcat(a[1..], b, ScanUnit(s, a[0]));
    }
  }

  lemma {:induction false} ScanPlain(t: Text, s: Scan)
    requires !s.escaped && forall i :: 0 <= i < |t| ==> t[i] != QUOTE && t[i] != BACKSLASH && t[i] != BAR
    ensures ScanText(t, s) == s
    decreases |t|
  {
    if t == [] {
    } else {
      ScanPlain(t[1..], s);
    }
  }

  /** Two scans that differ in being inside go on to differ in it. */
  lemma {:induction false} ScanFlips(t: Text, s: Scan, u: Scan)
    requires s.inside != u.inside && s.escaped == u.escaped
    ensures ScanText(t, s).inside != ScanText(t, u).inside
    decreases |t|
  {
    if t == [] {
    } else {
      ScanFlips(t[1..], ScanUnit(s, t[0]), ScanUnit(u, t[0]));
    }
  }

  lemma {:induction false} BarsWereInside(t: Text, s: Scan)
    requires ScanText(t, s).barsInside
    ensures s.barsInside
    decreases |t|
  {
    if t == [] {
    } else {
      BarsWereInside(t[1..], ScanUnit(s, t[0]));
    }
  }

  // ---------- canonical text is balanced ----------

  lemma BalancedConcat(a: Text, b: Text)
    requires IsBalanced(a) && IsBalanced(b)
    ensures IsBalanced(a + b)
  {
    ScanConcat(a, b, OUTSIDE);
  }

  lemma PlainUnitBalanced(c: CodeUnit)
    requires c != QUOTE && c != BACKSLASH && c != BAR
    ensures IsBalanced([c])
  {
    ScanPlain([c], OUTSIDE);
  }

  lemma BracketedBalanced(open: CodeUnit, body: Text, close: CodeUnit)
    requires IsBalanced(body) && open != QUOTE && open != BACKSLASH && open != BAR
    requires close != QUOTE && close != BACKSLASH && close != BAR
    ensures IsBalanced([open] + body + [close])
  {
    PlainUnitBalanced(open);
    PlainUnitBalanced(close);
    BalancedConcat([open], body);
    BalancedConcat([open] + body, [close]);
  }

  lemma {:induction false} JoinBalanced(parts: seq<Text>)
    requires forall i :: 0 <= i < |parts| ==> IsBalanced(parts[i])
    ensures IsBalanced(Join(parts, COMMA))
  {
    if |parts| <= 1 {
    } else {
      JoinBalanced(parts[1..]);
      PlainUnitBalanced(COMMA);
      BalancedConcat(parts[0], [COMMA]);
      BalancedConcat(parts[0] + [COMMA], Join(parts[1..], COMMA));
    }
  }

  lemma ScanTwo(a: CodeUnit, b: CodeUnit, s: Scan)
    ensures ScanText([a, b], s) == ScanUnit(ScanUnit(s, a), b)
  {
    assert [a, b][1..] == [b] && [b][1..] == [];
    assert ScanText([a, b], s) == ScanText([b], ScanUnit(s, a));
    assert ScanText([b], ScanUnit(s, a)) == ScanText([], ScanUnit(ScanUnit(s, a), b));
  }

  lemma ScanEscapedUnit(c: CodeUnit)
    ensures ScanText(EscapeUnit(c), INSIDE) == INSIDE
  {
    var e := EscapeUnit(c);
    if |e| == 1 {
      assert e[1..] == [];
    } else {
      assert e == [e[0], e[1]] + e[2..];
      ScanConcat([e[0], e[1]], e[2..], INSIDE);
      ScanTwo(e[0], e[1], INSIDE);
      ScanPlain(e[2..], INSIDE);
    }
  }

  lemma {:induction false} ScanEscaped(s: Text)
    ensures ScanText(Escape(s), INSIDE) == INSIDE
  {
    if s == [] {
    } else if StartsWithPair(s) {
      ScanEscaped(s[2..]);
      ScanPlain(s[..2], INSIDE);
      ScanConcat(s[..2], Escape(s[2..]), INSIDE);
    } else {
      ScanEscaped(s[1..]);
      ScanEscapedUnit(s[0]);
      ScanConcat(EscapeUnit(s[0]), Escape(s[1..]), INSIDE);
    }
  }

  lemma QuotedBalanced(s: Text)
    ensures IsBalanced(Quoted(s))
  {
    ScanEscaped(s);
    ScanConcat([QUOTE], Escape(s), OUTSIDE);
    ScanConcat([QUOTE] + Escape(s), [QUOTE], OUTSIDE);
    assert [QUOTE][1..] == [];
  }

  /** Canonical text of any value is balanced. */
  lemma {:induction false} CanonicalBalanced(v: JsValue)
    requires WellFormed(v)
    ensures IsBalanced(CanonicalJson(v))
    decreases v, 0
  {
    match v
    case String(chars) => QuotedBalanced(chars);
    case Array(items) =>
      ItemsBalanced(items);
      JoinBalanced(ItemTexts(items));
      BracketedBalanced(LEFT_BRACKET, Join(ItemTexts(items), COMMA), RIGHT_BRACKET);
    case Object(members) =>
      var keys := Sort(Keys(members));
      SameMultisetSameElements(keys, Keys(members));
      EntriesBalanced(keys, members);
      JoinBalanced(EntryTexts(keys, members));
      BracketedBalanced(LEFT_BRACE, Join(EntryTexts(keys, members), COMMA), RIGHT_BRACE);
    case _ => ScanPlain(CanonicalJson(v), OUTSIDE);
  }

  lemma {:induction false} ItemsBalanced(items: seq<JsValue>)
    requires WellFormed(Array(items))
    ensures forall i :: 0 <= i < |items| ==> IsBalanced(ItemTexts(items)[i])
    decreases items, 1
  {
    if items == [] {
    } else {
      CanonicalBalanced(items[0]);
      ItemsBalanced(items[1..]);
    }
  }

  lemma {:induction false} EntriesBalanced(keys: seq<Text>, members: seq<Member>)
    requires WellFormed(Object(members)) && forall k :: k in keys ==> k in Keys(members)
    ensures forall i :: 0 <= i < |keys| ==> IsBalanced(EntryTexts(keys, members)[i])
    decreases members, |keys| + 1
  {
    if keys == [] {
    } else {
      assert keys[0] in keys;
      var value := Lookup(members, keys[0]);
      var i :| 0 <= i < |members| && members[i] == Member(keys[0], value);
      CanonicalBalanced(value);
      QuotedBalanced(keys[0]);
      PlainUnitBalanced(COLON);
      BalancedConcat(Quoted(keys[0]), [COLON]);
      BalancedConcat(Quoted(keys[0]) + [COLON], CanonicalJson(value));
      EntriesBalanced(keys[1..], members);
    }
  }

  // ---------- so no balanced text is a proper piece at either end of another one ----------

  lemma NoBarAfter(x: Text, rest: Text)
    requires IsBalanced(x)
    ensures !IsBalanced(x + ([BAR] + rest))
  {
    ScanConcat(x, [BAR] + rest, OUTSIDE);
    if IsBalanced(x + ([BAR] + rest)) {
      assert ([BAR] + rest)[1..] == rest;
      BarsWereInside(rest, ScanUnit(OUTSIDE, BAR));
    }
  }

  lemma NoBarBefore(front: Text, x: Text)
    requires IsBalanced(x)
    ensures !IsBalanced((front + [BAR]) + x)
  {
    var s := ScanText(front, OUTSIDE);
    ScanConcat(front + [BAR], x, OUTSIDE);
    ScanConcat(front, [BAR], OUTSIDE);
    assert [BAR][1..] == [];
    if IsBalanced((front + [BAR]) + x) {
      BarsWereInside(x, ScanUnit(s, BAR));
      ScanFlips(x, OUTSIDE, ScanUnit(s, BAR));
    }
  }
}
