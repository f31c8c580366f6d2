/** The canonical text of a value determines its meaning, and its meaning determines the text. */
module JsonDecoding {
  import opened CodeUnits
  import opened Hex
  import opened JsonPrinter
  import opened Sequences

  /** What may follow a value without being read as part of it. */
  predicate Delimited(rest: Text) {
    rest == [] || !IsNumberUnit(rest[0])
  }

  // ---------- strings ----------

  lemma HexRoundTrip(c: CodeUnit)
    ensures c / 4096 * 4096 + c / 256 % 16 * 256 + c / 16 % 16 * 16 + c % 16 == c
  {
    assert c / 256 == c / 4096 * 16 + c / 256 % 16;
    assert c / 16 == c / 256 * 16 + c / 16 % 16;
  }

  lemma ParseUnicodeEscape(e: Text, rest: Text, a: nat, b: nat, c: nat, d: nat)
    requires a < 16 && b < 16 && c < 16 && d < 16
    requires e == [BACKSLASH, 117, HexUnit(a), HexUnit(b), HexUnit(c), HexUnit(d)]
    ensures ParseString(e + rest) == Prepend(a * 4096 + b * 256 + c * 16 + d, ParseString(rest))
  {
    HexDigitRoundTrip(a);
    HexDigitRoundTrip(b);
    HexDigitRoundTrip(c);
    HexDigitRoundTrip(d);
    var s := e + rest;
    assert s[6..] == rest;
    assert s[0] == e[0] && s[1] == e[1] && s[2] == e[2] && s[3] == e[3] && s[4] == e[4] && s[5] == e[5];
  }

  lemma ParseSimpleEscape(escape: CodeUnit, rest: Text)
    requires SimpleEscape(escape) >= 0
    ensures ParseString([BACKSLASH, escape] + rest) == Prepend(SimpleEscape(escape), ParseString(rest))
  {
    assert ([BACKSLASH, escape] + rest)[2..] == rest;
  }

  /** Every escaped unit reads back as itself, whatever text follows. */
  lemma ParseEscapedUnit(c: CodeUnit, rest: Text)
    ensures ParseString(EscapeUnit(c) + rest) == Prepend(c, ParseString(rest))
  {
    var e := EscapeUnit(c);
    if |e| == 6 {
      HexRoundTrip(c);
      ParseUnicodeEscape(e, rest, c / 4096, c / 256 % 16, c / 16 % 16, c % 16);
    } else if |e| == 2 {
      assert e == [BACKSLASH, e[1]];
      ParseSimpleEscape(e[1], rest);
    } else {
      assert (e + rest)[1..] == rest;
    }
  }

  lemma ParseRawUnit(c: CodeUnit, rest: Text)
    requires c != QUOTE && c != BACKSLASH
    ensures ParseString([c] + rest) == Prepend(c, ParseString(rest))
  {
    assert ([c] + rest)[1..] == rest;
  }

  lemma ParseClosingQuote(rest: Text)
    ensures ParseString([QUOTE] + rest) == Done([], rest)
  {
    assert ([QUOTE] + rest)[1..] == rest;
  }

  lemma Associative(a: Text, b: Text, c: Text)
    ensures (a + b) + c == a + (b + c)
  {
  }

  lemma ParseRawPair(first: CodeUnit, second: CodeUnit, body: Text, chars: Text, rest: Text)
    requires IsLead(first) && IsTrail(second)
    requires ParseString(body) == Done(chars, rest)
    ensures ParseString([first, second] + body) == Done([first, second] + chars, rest)
  {
    ParseRawUnit(second, body);
    ParseRawUnit(first, [second] + body);
    PairOnto(first, second, body);
    PairOnto(first, second, chars);
  }

  lemma PairOnto(first: CodeUnit, second: CodeUnit, t: Text)
    ensures [first, second] + t == [first] + ([second] + t)
  {
  }

  lemma {:induction false} StringRoundTrip(chars: Text, rest: Text)
    ensures ParseString(Escape(chars) + ([QUOTE] + rest)) == Done(chars, rest)
    decreases |chars|
  {
    var tail := [QUOTE] + rest;
    if chars == [] {
      ParseClosingQuote(rest);
      assert Escape(chars) + tail == tail;
    } else if StartsWithPair(chars) {
      StringRoundTrip(chars[2..], rest);
      Associative(chars[..2], Escape(chars[2..]), tail);
      assert chars[..2] == [chars[0], chars[1]];
      ParseRawPair(chars[0], chars[1], Escape(chars[2..]) + tail, chars[2..], rest);
      assert chars == [chars[0], chars[1]] + chars[2..];
    } else {
      StringRoundTrip(chars[1..], rest);
      ParseEscapedUnit(chars[0], Escape(chars[1..]) + tail);
      Associative(EscapeUnit(chars[0]), Escape(chars[1..]), tail);
      assert chars == [chars[0]] + chars[1..];
    }
  }

  lemma {:induction false} NumberRoundTrip(t: Text, rest: Text)
    requires forall i :: 0 <= i < |t| ==> IsNumberUnit(t[i])
    requires Delimited(rest)
    ensures NumberLength(t + rest) == |t|
  {
    if t == [] {
      assert t + rest == rest;
    } else {
      NumberRoundTrip(t[1..], rest);
      assert (t + rest)[1..] == t[1..] + rest;
    }
  }

  // ---------- values ----------

  /** Canonical texts start with a unit that tells the kind of value, never with a closing bracket. */
  lemma FirstUnit(v: JsValue)
    requires WellFormed(v)
    ensures CanonicalJson(v) != []
    ensures CanonicalJson(v)[0] != RIGHT_BRACKET && CanonicalJson(v)[0] != RIGHT_BRACE
  {
  }

  lemma LookupWellFormed(members: seq<Member>, key: Text)
    requires WellFormed(Object(members)) && key in Keys(members)
    ensures WellFormed(Lookup(members, key))
  {
    var i :| 0 <= i < |members| && members[i] == Member(key, Lookup(members, key));
  }

  // One step of the parser on each kind of text.

  lemma ParseWord(word: Text, rest: Text)
    requires word == NULL_TEXT || word == TRUE_TEXT || word == FALSE_TEXT
    ensures ParseValue(word + rest)
         == Done(if word == NULL_TEXT then JNull else JBool(word == TRUE_TEXT), rest)
  {
    var s := word + rest;
    assert s[..|word|] == word && s[|word|..] == rest;
    assert s[0] == word[0];
    assert !(NULL_TEXT <= s) || s[0] == 110;
    assert !(TRUE_TEXT <= s) || s[0] == 116;
  }

  lemma ParseNumber(text: Text, rest: Text)
    requires NumberText(text) && Delimited(rest)
    ensures ParseValue(text + rest) == Done(JNumber(text), rest)
  {
    NumberRoundTrip(text, rest);
    var s := text + rest;
    assert s[..|text|] == text && s[|text|..] == rest;
  }

  lemma ParseQuoted(chars: Text, rest: Text)
    ensures ParseValue(Quoted(chars) + rest) == Done(JString(chars), rest)
  {
    QuotedOnto(chars, rest);
    StringRoundTrip(chars, rest);
    var s := [QUOTE] + (Escape(chars) + ([QUOTE] + rest));
    assert s[1..] == Escape(chars) + ([QUOTE] + rest);
  }

  lemma QuotedOnto(chars: Text, rest: Text)
    ensures Quoted(chars) + rest == [QUOTE] + (Escape(chars) + ([QUOTE] + rest))
  {
  }

  lemma ParseBracketed(body: Text, items: seq<Json>, rest: Text)
    requires body != [] && body[0] != RIGHT_BRACKET
    requires ParseItems(body) == Done(items, rest)
    ensures ParseValue([LEFT_BRACKET] + body) == Done(JArray(items), rest)
  {
    var s := [LEFT_BRACKET] + body;
    assert s[1..] == body;
  }

  lemma ParseBraced(body: Text, members: map<Text, Json>, rest: Text)
    requires body != [] && body[0] != RIGHT_BRACE
    requires ParseMembers(body) == Done(members, rest)
    ensures ParseValue([LEFT_BRACE] + body) == Done(JObject(members), rest)
  {
    var s := [LEFT_BRACE] + body;
    assert s[1..] == body;
  }

  lemma ParseEmpty(rest: Text)
    ensures ParseValue([LEFT_BRACKET, RIGHT_BRACKET] + rest) == Done(JArray([]), rest)
    ensures ParseValue([LEFT_BRACE, RIGHT_BRACE] + rest) == Done(JObject(map[]), rest)
  {
    assert ([LEFT_BRACKET, RIGHT_BRACKET] + rest)[2..] == rest;
    assert ([LEFT_BRACE, RIGHT_BRACE] + rest)[2..] == rest;
  }

  lemma ParseLastItem(text: Text, item: Json, rest: Text)
    requires ParseValue(text + ([RIGHT_BRACKET] + rest)) == Done(item, [RIGHT_BRACKET] + rest)
    ensures ParseItems(text + ([RIGHT_BRACKET] + rest)) == Done([item], rest)
  {
    assert ([RIGHT_BRACKET] + rest)[1..] == rest;
  }

  lemma ParseFirstItem(text: Text, item: Json, more: Text, items: seq<Json>, rest: Text)
    requires ParseValue(text + ([COMMA] + more)) == Done(item, [COMMA] + more)
    requires ParseItems(more) == Done(items, rest)
    ensures ParseItems(text + ([COMMA] + more)) == Done([item] + items, rest)
  {
    assert ([COMMA] + more)[1..] == more;
  }

  /** One member `"key":value` followed by `more`: what the parser makes of it. */
  function AfterMember(key: Text, value: Json, more: Text): Parsed<map<Text, Json>> {
    if more == [] then NoParse
    else if more[0] == RIGHT_BRACE then Done(map[key := value], more[1..])
    else if more[0] == COMMA then
      match ParseMembers(more[1..])
      case NoParse => NoParse
      case Done(members, rest) => Done(members[key := value], rest)
    else NoParse
  }

  lemma ParseMembersStep(s: Text, key: Text, afterKey: Text, value: Json, more: Text)
    requires s != [] && s[0] == QUOTE && ParseString(s[1..]) == Done(key, afterKey)
    requires afterKey != [] && afterKey[0] == COLON && ParseValue(afterKey[1..]) == Done(value, more)
    ensures ParseMembers(s) == AfterMember(key, value, more)
  {
  }

  lemma MemberOnto(key: Text, text: Text, more: Text)
    ensures Quoted(key) + [COLON] + text + more
         == [QUOTE] + (Escape(key) + ([QUOTE] + ([COLON] + (text + more))))
  {
  }

  lemma ParseMember(key: Text, text: Text, value: Json, more: Text)
    requires ParseValue(text + more) == Done(value, more)
    ensures ParseMembers(Quoted(key) + [COLON] + text + more) == AfterMember(key, value, more)
  {
    var afterKey := [COLON] + (text + more);
    assert afterKey[1..] == text + more;
    StringRoundTrip(key, afterKey);
    var body := Escape(key) + ([QUOTE] + afterKey);
    var s := [QUOTE] + body;
    assert s[1..] == body;
    ParseMembersStep(s, key, afterKey, value, more);
    MemberOnto(key, text, more);
  }

  /** The parser undoes the printer and leaves exactly what followed the printed value. */
  lemma {:induction false} RoundTrip(v: JsValue, rest: Text)
    requires WellFormed(v) && Delimited(rest)
    ensures ParseValue(CanonicalJson(v) + rest) == Done(Meaning(v), rest)
    decreases v
  {
    match v
    case Null => ParseWord(NULL_TEXT, rest);
    case Undefined => ParseWord(NULL_TEXT, rest);
    case NonFinite => ParseWord(NULL_TEXT, rest);
    case Bool(b) => ParseWord(if b then TRUE_TEXT else FALSE_TEXT, rest);
    case Number(text) => ParseNumber(text, rest);
    case String(chars) => ParseQuoted(chars, rest);
    case Array(items) => ArrayRoundTrip(items, rest);
    case Object(members) => ObjectRoundTrip(members, rest);
  }

  lemma {:induction false} ArrayRoundTrip(items: seq<JsValue>, rest: Text)
    requires WellFormed(Array(items))
    ensures ParseValue(CanonicalJson(Array(items)) + rest) == Done(Meaning(Array(items)), rest)
    decreases items, 1
  {
    var texts := ItemTexts(items);
    var body := Join(texts, COMMA);
    if items == [] {
      ParseEmpty(rest);
      assert [LEFT_BRACKET] + body + [RIGHT_BRACKET] == [LEFT_BRACKET, RIGHT_BRACKET];
    } else {
      ItemsRoundTrip(items, rest);
      FirstUnit(items[0]);
      JoinStart(texts);
      ParseBracketed(body + ([RIGHT_BRACKET] + rest), MeaningOfItems(items), rest);
      assert [LEFT_BRACKET] + body + [RIGHT_BRACKET] + rest == [LEFT_BRACKET] + (body + ([RIGHT_BRACKET] + rest));
    }
  }

  lemma BracedOnto(body: Text, rest: Text)
    ensures [LEFT_BRACE] + body + [RIGHT_BRACE] + rest == [LEFT_BRACE] + (body + ([RIGHT_BRACE] + rest))
  {
  }

  lemma SortedKeys(members: seq<Member>)
    ensures |Sort(Keys(members))| == |members|
    ensures forall k :: k in Sort(Keys(members)) <==> k in Keys(members)
  {
    var keys := Sort(Keys(members));
    SameMultisetSameElements(keys, Keys(members));
    assert |keys| == |multiset(keys)| == |multiset(Keys(members))|;
  }

  lemma MeaningByKeys(members: seq<Member>, keys: seq<Text>)
    requires forall k :: k in keys <==> k in Keys(members)
    ensures Meaning(Object(members)) == JObject(map k | k in keys :: Meaning(Lookup(members, k)))
  {
  }

  lemma {:induction false} ObjectRoundTrip(members: seq<Member>, rest: Text)
    requires WellFormed(Object(members))
    ensures ParseValue(CanonicalJson(Object(members)) + rest) == Done(Meaning(Object(members)), rest)
    decreases members, |members| + 1
  {
    var keys := Sort(Keys(members));
    SortedKeys(members);
    MeaningByKeys(members, keys);
    var texts := EntryTexts(keys, members);
    var body := Join(texts, COMMA);
    BracedOnto(body, rest);
    if keys == [] {
      ParseEmpty(rest);
      assert Meaning(Object(members)) == JObject(map[]);
      assert [LEFT_BRACE] + body + [RIGHT_BRACE] == [LEFT_BRACE, RIGHT_BRACE];
    } else {
      EntriesRoundTrip(keys, members, rest);
      FirstEntry(keys, members);
      JoinStart(texts);
      ParseBraced(body + ([RIGHT_BRACE] + rest), Meaning(Object(members)).members, rest);
    }
  }

  lemma FirstEntry(keys: seq<Text>, members: seq<Member>)
    requires keys != [] && forall k :: k in keys ==> k in Keys(members)
    ensures EntryTexts(keys, members)[0] != [] && EntryTexts(keys, members)[0][0] == QUOTE
  {
  }

  lemma JoinStart(parts: seq<Text>)
    requires parts != [] && parts[0] != []
    ensures Join(parts, COMMA) != [] && Join(parts, COMMA)[0] == parts[0][0]
  {
  }

  /** Peels the first of a joined list of texts off in front of a closing unit. */
  lemma JoinPeel(parts: seq<Text>, tail: Text)
    requires parts != []
    ensures Join(parts, COMMA) + tail
         == parts[0] + (if |parts| == 1 then tail else [COMMA] + (Join(parts[1..], COMMA) + tail))
  {
  }

  lemma {:induction false} ItemsRoundTrip(items: seq<JsValue>, rest: Text)
    requires items != [] && WellFormed(Array(items))
    ensures ParseItems(Join(ItemTexts(items), COMMA) + ([RIGHT_BRACKET] + rest)) == Done(MeaningOfItems(items), rest)
    decreases items, 0
  {
    var tail := [RIGHT_BRACKET] + rest;
    var texts := ItemTexts(items);
    JoinPeel(texts, tail);
    if |items| == 1 {
      RoundTrip(items[0], tail);
      ParseLastItem(texts[0], Meaning(items[0]), rest);
      assert MeaningOfItems(items) == [Meaning(items[0])];
    } else {
      ItemsRoundTrip(items[1..], rest);
      assert texts[1..] == ItemTexts(items[1..]);
      var more := Join(texts[1..], COMMA) + tail;
      RoundTrip(items[0], [COMMA] + more);
      ParseFirstItem(texts[0], Meaning(items[0]), more, MeaningOfItems(items[1..]), rest);
    }
  }

  lemma {:induction false} EntriesRoundTrip(keys: seq<Text>, members: seq<Member>, rest: Text)
    requires keys != [] && WellFormed(Object(members))
    requires forall k :: k in keys ==> k in Keys(members)
    ensures ParseMembers(Join(EntryTexts(keys, members), COMMA) + ([RIGHT_BRACE] + rest))
         == Done(map k | k in keys :: Meaning(Lookup(members, k)), rest)
    decreases members, |keys|
  {
    var tail := [RIGHT_BRACE] + rest;
    var texts := EntryTexts(keys, members);
    var key := keys[0];
    assert key in keys;
    var value := Lookup(members, key);
    LookupWellFormed(members, key);
    JoinPeel(texts, tail);
    if |keys| == 1 {
      RoundTrip(value, tail);
      ParseMember(key, CanonicalJson(value), Meaning(value), tail);
      assert tail[1..] == rest;
      SingleMember(keys, members);
    } else {
      assert texts[1..] == EntryTexts(keys[1..], members);
      EntriesRoundTrip(keys[1..], members, rest);
      var more := Join(texts[1..], COMMA) + tail;
      RoundTrip(value, [COMMA] + more);
      ParseMember(key, CanonicalJson(value), Meaning(value), [COMMA] + more);
      assert ([COMMA] + more)[1..] == more;
      FirstMember(keys, members);
    }
  }

  lemma SingleMember(keys: seq<Text>, members: seq<Member>)
    requires |keys| == 1 && keys[0] in Keys(members)
    ensures map[keys[0] := Meaning(Lookup(members, keys[0]))] == map k | k in keys :: Meaning(Lookup(members, k))
  {
  }

  lemma FirstMember(keys: seq<Text>, members: seq<Member>)
    requires keys != [] && forall k :: k in keys ==> k in Keys(members)
    ensures keys[0] in keys
    ensures (map k | k in keys[1..] :: Meaning(Lookup(members, k)))[keys[0] := Meaning(Lookup(members, keys[0]))]
         == map k | k in keys :: Meaning(Lookup(members, k))
  {
    assert keys == [keys[0]] + keys[1..];
  }

  // ---------- text and meaning determine each other ----------

  lemma {:induction false} SameMeaningSameText(v: JsValue, w: JsValue)
    requires WellFormed(v) && WellFormed(w) && Meaning(v) == Meaning(w)
    ensures CanonicalJson(v) == CanonicalJson(w)
    decreases v
  {
    match v
    case Array(items) =>
      assert w.Array?;
      SameItemsSameTexts(items, w.items);
    case Object(members) =>
      assert w.Object?;
      var keys, keys' := Sort(Keys(members)), Sort(Keys(w.members));
      SameMultisetSameElements(keys, Keys(members));
      SameMultisetSameElements(keys', Keys(w.members));
      forall k
        ensures k in keys <==> k in keys'
      {
        assert k in Keys(members) <==> k in Meaning(v).members;
        assert k in Keys(w.members) <==> k in Meaning(w).members;
      }
      SortSorted(Keys(members));
      SortSorted(Keys(w.members));
      SortedListsAgree(keys, keys');
      SameEntriesSameTexts(keys, members, w.members);
    case _ =>
  }

  lemma {:induction false} SameItemsSameTexts(items: seq<JsValue>, items': seq<JsValue>)
    requires WellFormed(Array(items)) && WellFormed(Array(items'))
    requires MeaningOfItems(items) == MeaningOfItems(items')
    ensures ItemTexts(items) == ItemTexts(items')
    decreases items
  {
    if items == [] {
    } else {
      var m, m' := MeaningOfItems(items), MeaningOfItems(items');
      assert m[0] == m'[0] && m[1..] == m'[1..];
      SameMeaningSameText(items[0], items'[0]);
      SameItemsSameTexts(items[1..], items'[1..]);
    }
  }

  lemma {:induction false} SameEntriesSameTexts(keys: seq<Text>, members: seq<Member>, members': seq<Member>)
    requires WellFormed(Object(members)) && WellFormed(Object(members'))
    requires forall k :: k in keys ==> k in Keys(members) && k in Keys(members')
    requires Meaning(Object(members)) == Meaning(Object(members'))
    ensures EntryTexts(keys, members) == EntryTexts(keys, members')
    decreases members, |keys|
  {
    if keys == [] {
    } else {
      var k := keys[0];
      assert k in keys;
      assert Meaning(Object(members)).members[k] == Meaning(Object(members')).members[k];
      LookupWellFormed(members, k);
      LookupWellFormed(members', k);
      SameMeaningSameText(Lookup(members, k), Lookup(members', k));
      SameEntriesSameTexts(keys[1..], members, members');
    }
  }

  /** Unique decodability: equal canonical text exactly when the values are equal up to key order. */
  lemma TextDeterminesMeaning(v: JsValue, w: JsValue)
    requires WellFormed(v) && WellFormed(w)
    ensures CanonicalJson(v) == CanonicalJson(w) <==> Meaning(v) == Meaning(w)
  {
    RoundTrip(v, []);
    RoundTrip(w, []);
    if Meaning(v) == Meaning(w) {
      SameMeaningSameText(v, w);
    }
  }

  /** Any reordering of an object's members prints the same text. */
  lemma KeyOrderIsIrrelevant(members: seq<Member>, members': seq<Member>)
    requires WellFormed(Object(members)) && WellFormed(Object(members'))
    requires multiset(members) == multiset(members')
    ensures CanonicalJson(Object(members)) == CanonicalJson(Object(members'))
  {
    forall k
      ensures k in Keys(members) <==> k in Keys(members')
      ensures k in Keys(members) ==> Lookup(members, k) == Lookup(members', k)
    {
      ReorderedLookup(members, members', k);
      ReorderedLookup(members', members, k);
    }
    SameMeaningSameText(Object(members), Object(members'));
  }

  lemma ReorderedLookup(members: seq<Member>, members': seq<Member>, key: Text)
    requires WellFormed(Object(members'))
    requires multiset(members) == multiset(members')
    ensures key in Keys(members) ==> key in Keys(members') && Lookup(members, key) == Lookup(members', key)
  {
    if key in Keys(members) {
      var m := Member(key, Lookup(members, key));
      assert m in multiset(members');
      var i :| 0 <= i < |members'| && members'[i] == m;
      assert Keys(members')[i] == key;
      var j :| 0 <= j < |members'| && members'[j] == Member(key, Lookup(members', key));
      assert i == j;
    }
  }
}
