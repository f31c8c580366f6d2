/** The canonical printer of audit details, and a parser that undoes it. */
module JsonPrinter {
  import opened CodeUnits
  import opened Hex
  import opened Sequences

  /** The values an audit detail can hold. A finite number is identified with the text that
      Number::toString gives it; NaN and the infinities are `NonFinite`. */
  datatype JsValue =
    | Null
    | Undefined
    | Bool(b: bool)
    | Number(text: Text)
    | NonFinite
    | String(chars: Text)
    | Array(items: seq<JsValue>)
    | Object(members: seq<Member>)

  datatype Member = Member(key: Text, value: JsValue)

  /** What a value means as JSON data: objects are maps, and null, undefined and non-finite numbers are one. */
  datatype Json =
    | JNull
    | JBool(b: bool)
    | JNumber(text: Text)
    | JString(chars: Text)
    | JArray(items: seq<Json>)
    | JObject(members: map<Text, Json>)

  predicate IsNumberUnit(c: CodeUnit) {
    IsDigit(c) || c == MINUS || c == 43 || c == 46 || c == 101
  }

  predicate IsNumberStart(c: CodeUnit) {
    IsDigit(c) || c == MINUS
  }

  predicate NumberText(t: Text) {
    && t != []
    && IsNumberStart(t[0])
    && forall i :: 0 <= i < |t| ==> IsNumberUnit(t[i])
  }

  function Keys(members: seq<Member>): (r: seq<Text>)
    ensures |r| == |members|
    ensures forall i :: 0 <= i < |r| ==> r[i] == members[i].key
  {
    if members == [] then [] else [members[0].key] + Keys(members[1..])
  }

  /** Number texts are numbers, and no object has the same key twice. */
  predicate WellFormed(v: JsValue) {
    match v
    case Number(text) => NumberText(text)
    case Array(items) => forall i :: 0 <= i < |items| ==> WellFormed(items[i])
    case Object(members) =>
      && (forall i, j :: 0 <= i < j < |members| ==> members[i].key != members[j].key)
      && forall i :: 0 <= i < |members| ==> WellFormed(members[i].value)
    case _ => true
  }

  function Lookup(members: seq<Member>, key: Text): (r: JsValue)
    requires key in Keys(members)
    ensures Member(key, r) in members
  {
    if members[0].key == key then
      assert members[0] == Member(key, members[0].value);
      members[0].value
    else
      Lookup(members[1..], key)
  }

  // ---------- the printer ----------

  const NULL_TEXT: Text := [110, 117, 108, 108]
  const TRUE_TEXT: Text := [116, 114, 117, 101]
  const FALSE_TEXT: Text := [102, 97, 108, 115, 101]

  function UnicodeEscape(c: CodeUnit): Text {
    [BACKSLASH, 117, HexUnit(c / 4096), HexUnit(c / 256 % 16), HexUnit(c / 16 % 16), HexUnit(c % 16)]
  }

  function EscapeUnit(c: CodeUnit): Text {
    if c == QUOTE then [BACKSLASH, QUOTE]
    else if c == BACKSLASH then [BACKSLASH, BACKSLASH]
    else if c == 8 then [BACKSLASH, 98]
    else if c == 9 then [BACKSLASH, 116]
    else if c == 10 then [BACKSLASH, 110]
    else if c == 12 then [BACKSLASH, 102]
    else if c == 13 then [BACKSLASH, 114]
    else if c < 32 || IsSurrogate(c) then UnicodeEscape(c)
    else [c]
  }

  /** JSON.stringify of a string without its quotes: a surrogate pair stays raw, a lone surrogate is escaped. */
  function Escape(s: Text): Text {
    if s == [] then []
    else if StartsWithPair(s) then s[..2] + Escape(s[2..])
    else EscapeUnit(s[0]) + Escape(s[1..])
  }

  function Quoted(s: Text): Text {
    [QUOTE] + Escape(s) + [QUOTE]
  }

  function CanonicalJson(v: JsValue): Text
    decreases v
  {
    match v
    case Null => NULL_TEXT
    case Undefined => NULL_TEXT
    case Bool(b) => if b then TRUE_TEXT else FALSE_TEXT
    case Number(text) => text
    case NonFinite => NULL_TEXT
    case String(chars) => Quoted(chars)
    case Array(items) => [LEFT_BRACKET] + Join(ItemTexts(items), COMMA) + [RIGHT_BRACKET]
    case Object(members) =>
      var keys := Sort(Keys(members));
      SameMultisetSameElements(keys, Keys(members));
      [LEFT_BRACE] + Join(EntryTexts(keys, members), COMMA) + [RIGHT_BRACE]
  }

  function ItemTexts(items: seq<JsValue>): (r: seq<Text>)
    ensures |r| == |items|
    decreases items
  {
    if items == [] then [] else [CanonicalJson(items[0])] + ItemTexts(items[1..])
  }

  function EntryTexts(keys: seq<Text>, members: seq<Member>): (r: seq<Text>)
    requires forall k :: k in keys ==> k in Keys(members)
    ensures |r| == |keys|
    decreases members, |keys|
  {
    if keys == [] then []
    else
      assert keys[0] in keys;
      [Quoted(keys[0]) + [COLON] + CanonicalJson(Lookup(members, keys[0]))] + EntryTexts(keys[1..], members)
  }

  // ---------- the meaning ----------

  function Meaning(v: JsValue): Json
    decreases v
  {
    match v
    case Null => JNull
    case Undefined => JNull
    case Bool(b) => JBool(b)
    case Number(text) => JNumber(text)
    case NonFinite => JNull
    case String(chars) => JString(chars)
    case Array(items) => JArray(MeaningOfItems(items))
    case Object(members) => JObject(map k | k in Keys(members) :: Meaning(Lookup(members, k)))
  }

  function MeaningOfItems(items: seq<JsValue>): (r: seq<Json>)
    ensures |r| == |items|
    decreases items
  {
    if items == [] then [] else [Meaning(items[0])] + MeaningOfItems(items[1..])
  }

  // ---------- the parser ----------

  datatype Parsed<T> = NoParse | Done(value: T, rest: Text)

  /** The unit that a two-character escape stands for, or -1. */
  function SimpleEscape(c: CodeUnit): (r: int)
    ensures -1 <= r < 0x1_0000
  {
    if c == QUOTE || c == BACKSLASH then c
    else if c == 98 then 8
    else if c == 116 then 9
    else if c == 110 then 10
    else if c == 102 then 12
    else if c == 114 then 13
    else -1
  }

  function Prepend(c: CodeUnit, r: Parsed<Text>): Parsed<Text> {
    match r
    case NoParse => NoParse
    case Done(value, rest) => Done([c] + value, rest)
  }

  /** Reads the body of a string literal up to and including its closing quote. */
  function ParseString(s: Text): (r: Parsed<Text>)
    ensures r.Done? ==> |r.rest| < |s|
  {
    if s == [] then NoParse
    else if s[0] == QUOTE then Done([], s[1..])
    else if s[0] != BACKSLASH then Prepend(s[0], ParseString(s[1..]))
    else if |s| < 2 then NoParse
    else if SimpleEscape(s[1]) >= 0 then Prepend(SimpleEscape(s[1]), ParseString(s[2..]))
    else if s[1] == 117 && |s| >= 6 && forall i :: 2 <= i < 6 ==> HexValue(s[i]) >= 0 then
      Prepend(HexValue(s[2]) * 4096 + HexValue(s[3]) * 256 + HexValue(s[4]) * 16 + HexValue(s[5]),
              ParseString(s[6..]))
    else NoParse
  }

  function NumberLength(s: Text): (n: nat)
    ensures n <= |s|
    ensures s != [] && IsNumberUnit(s[0]) ==> n > 0
  {
    if s == [] || !IsNumberUnit(s[0]) then 0 else 1 + NumberLength(s[1..])
  }

  function ParseValue(s: Text): (r: Parsed<Json>)
    ensures r.Done? ==> |r.rest| < |s|
    decreases |s|, 0
  {
    if s == [] then NoParse
    else if s[0] == LEFT_BRACKET then
      if |s| > 1 && s[1] == RIGHT_BRACKET then Done(JArray([]), s[2..])
      else
        match ParseItems(s[1..])
        case NoParse => NoParse
        case Done(items, rest) => Done(JArray(items), rest)
    else if s[0] == LEFT_BRACE then
      if |s| > 1 && s[1] == RIGHT_BRACE then Done(JObject(map[]), s[2..])
      else
        match ParseMembers(s[1..])
        case NoParse => NoParse
        case Done(members, rest) => Done(JObject(members), rest)
    else if s[0] == QUOTE then
      match ParseString(s[1..])
      case NoParse => NoParse
      case Done(chars, rest) => Done(JString(chars), rest)
    else if IsNumberStart(s[0]) then
      var n := NumberLength(s);
      Done(JNumber(s[..n]), s[n..])
    else if NULL_TEXT <= s then Done(JNull, s[4..])
    else if TRUE_TEXT <= s then Done(JBool(true), s[4..])
    else if FALSE_TEXT <= s then Done(JBool(false), s[5..])
    else NoParse
  }

  function ParseItems(s: Text): (r: Parsed<seq<Json>>)
    ensures r.Done? ==> |r.rest| < |s|
    decreases |s|, 1
  {
    match ParseValue(s)
    case NoParse => NoParse
    case Done(item, rest) =>
      if rest == [] then NoParse
      else if rest[0] == RIGHT_BRACKET then Done([item], rest[1..])
      else if rest[0] == COMMA then
        match ParseItems(rest[1..])
        case NoParse => NoParse
        case Done(items, rest') => Done([item] + items, rest')
      else NoParse
  }

  function ParseMembers(s: Text): (r: Parsed<map<Text, Json>>)
    ensures r.Done? ==> |r.rest| < |s|
    decreases |s|, 1
  {
    if s == [] || s[0] != QUOTE then NoParse
    else
      match ParseString(s[1..])
      case NoParse => NoParse
      case Done(key, afterKey) =>
        if afterKey == [] || afterKey[0] != COLON then NoParse
        else
          match ParseValue(afterKey[1..])
          case NoParse => NoParse
          case Done(value, rest) =>
            if rest == [] then NoParse
            else if rest[0] == RIGHT_BRACE then Done(map[key := value], rest[1..])
            else if rest[0] == COMMA then
              match ParseMembers(rest[1..])
              case NoParse => NoParse
              case Done(members, rest') => Done(members[key := value], rest')
            else NoParse
  }
}
