/** JavaScript strings: sequences of UTF-16 code units, and the order that `Array.prototype.sort` puts them in. */
module CodeUnits {
  import opened Sequences

  type CodeUnit = c: int | 0 <= c < 0x1_0000

  type Text = seq<CodeUnit>

  const QUOTE: CodeUnit := 34
  const COMMA: CodeUnit := 44
  const MINUS: CodeUnit := 45
  const COLON: CodeUnit := 58
  const LEFT_BRACKET: CodeUnit := 91
  const BACKSLASH: CodeUnit := 92
  const RIGHT_BRACKET: CodeUnit := 93
  const LEFT_BRACE: CodeUnit := 123
  const BAR: CodeUnit := 124
  const RIGHT_BRACE: CodeUnit := 125

  predicate IsDigit(c: CodeUnit) {
    48 <= c <= 57
  }

  predicate IsLead(c: CodeUnit) {
    0xD800 <= c < 0xDC00
  }

  predicate IsTrail(c: CodeUnit) {
    0xDC00 <= c < 0xE000
  }

  predicate IsSurrogate(c: CodeUnit) {
    IsLead(c) || IsTrail(c)
  }

  predicate StartsWithPair(s: Text) {
    |s| > 1 && IsLead(s[0]) && IsTrail(s[1])
  }

  function Join(parts: seq<Text>, separator: CodeUnit): Text {
    if parts == [] then []
    else if |parts| == 1 then parts[0]
    else parts[0] + [separator] + Join(parts[1..], separator)
  }

  /** Strict lexicographic order on code units, a proper prefix first. */
  predicate Precedes(a: Text, b: Text) {
    && b != []
    && (|| a == []
        || a[0] < b[0]
        || (a[0] == b[0] && Precedes(a[1..], b[1..])))
  }

  lemma {:induction false} PrecedesIrreflexive(a: Text)
    ensures !Precedes(a, a)
  {
    if a == [] {
    } else {
      PrecedesIrreflexive(a[1..]);
    }
  }

  lemma {:induction false} PrecedesTransitive(a: Text, b: Text, c: Text)
    requires Precedes(a, b) && Precedes(b, c)
    ensures Precedes(a, c)
  {
    if a != [] && a[0] == b[0] == c[0] {
      PrecedesTransitive(a[1..], b[1..], c[1..]);
    }
  }

  lemma {:induction false} PrecedesTotal(a: Text, b: Text)
    ensures a == b || Precedes(a, b) || Precedes(b, a)
  {
    if a != [] && b != [] && a[0] == b[0] {
      PrecedesTotal(a[1..], b[1..]);
      assert a[1..] == b[1..] ==> a == [a[0]] + a[1..] == [b[0]] + b[1..] == b;
    }
  }

  ghost predicate StrictlySorted(keys: seq<Text>) {
    forall i, j :: 0 <= i < j < |keys| ==> Precedes(keys[i], keys[j])
  }

  function Insert(key: Text, sorted: seq<Text>): (r: seq<Text>)
    ensures multiset(r) == multiset(sorted) + multiset{key}
  {
    if sorted == [] then [key]
    else if Precedes(key, sorted[0]) then [key] + sorted
    else
      assert sorted == [sorted[0]] + sorted[1..];
      [sorted[0]] + Insert(key, sorted[1..])
  }

  function Sort(keys: seq<Text>): (r: seq<Text>)
    ensures multiset(r) == multiset(keys)
  {
    if keys == [] then []
    else
      assert keys == [keys[0]] + keys[1..];
      Insert(keys[0], Sort(keys[1..]))
  }

  lemma {:induction false} InsertSorted(key: Text, sorted: seq<Text>)
    requires StrictlySorted(sorted) && key !in sorted
    ensures StrictlySorted(Insert(key, sorted))
  {
    if sorted == [] {
    } else {
      PrecedesTotal(key, sorted[0]);
      if Precedes(key, sorted[0]) {
        forall j | 0 < j < |sorted|
          ensures Precedes(key, sorted[j])
        {
          PrecedesTransitive(key, sorted[0], sorted[j]);
        }
      } else {
        InsertSorted(key, sorted[1..]);
        var rest := Insert(key, sorted[1..]);
        SameMultisetSameElements(rest, sorted[1..] + [key]);
        forall j | 0 <= j < |rest|
          ensures Precedes(sorted[0], rest[j])
        {
          assert rest[j] in sorted[1..] + [key];
        }
      }
    }
  }

  /** Distinct keys come out of the sort in strictly increasing code-unit order. */
  lemma {:induction false} SortSorted(keys: seq<Text>)
    requires Distinct(keys)
    ensures StrictlySorted(Sort(keys))
  {
    if keys == [] {
    } else {
      SortSorted(keys[1..]);
      SameMultisetSameElements(keys[1..], Sort(keys[1..]));
      InsertSorted(keys[0], Sort(keys[1..]));
    }
  }

  /** A strictly sorted list is determined by the set of its elements. */
  lemma {:induction false} SortedListsAgree(a: seq<Text>, b: seq<Text>)
    requires StrictlySorted(a) && StrictlySorted(b)
    requires forall x :: x in a <==> x in b
    ensures a == b
  {
    assert a != [] ==> a[0] in b;
    assert b != [] ==> b[0] in a;
    if a != [] {
      SameLeast(a, b);
      forall x
        ensures x in a[1..] <==> x in b[1..]
      {
        TailElements(a, x);
        TailElements(b, x);
      }
      SortedListsAgree(a[1..], b[1..]);
      assert a == [a[0]] + a[1..] && b == [b[0]] + b[1..];
    }
  }

  lemma SameLeast(a: seq<Text>, b: seq<Text>)
    requires StrictlySorted(a) && StrictlySorted(b) && a != [] && b != []
    requires a[0] in b && b[0] in a
    ensures a[0] == b[0]
  {
    if a[0] != b[0] {
      var i :| 0 <= i < |b| && b[i] == a[0];
      var j :| 0 <= j < |a| && a[j] == b[0];
      PrecedesTransitive(a[0], b[0], a[0]);
      PrecedesIrreflexive(a[0]);
    }
  }

  lemma TailElements(a: seq<Text>, x: Text)
    requires StrictlySorted(a) && a != []
    ensures x in a[1..] <==> x in a && x != a[0]
  {
    if x in a[1..] {
      var i :| 0 <= i < |a[1..]| && a[1..][i] == x;
      PrecedesIrreflexive(x);
      assert Precedes(a[0], a[i + 1]);
    }
  }
}
