/** UTF-8 (RFC 3629) between strings of UTF-16 code units and byte strings, with U+FFFD for what has no encoding. */
module Utf8 {
  import opened CodeUnits
  import opened Hex

  const REPLACEMENT: CodeUnit := 0xFFFD

  /** No lone surrogates. */
  predicate IsWellFormed(s: Text) {
    if s == [] then true
    else if StartsWithPair(s) then IsWellFormed(s[2..])
    else !IsSurrogate(s[0]) && IsWellFormed(s[1..])
  }

  /** Every lone surrogate replaced. */
  function Scrubbed(s: Text): Text {
    if s == [] then []
    else if StartsWithPair(s) then s[..2] + Scrubbed(s[2..])
    else [if IsSurrogate(s[0]) then REPLACEMENT else s[0]] + Scrubbed(s[1..])
  }

  function EncodePair(first: CodeUnit, second: CodeUnit): (b: seq<Byte>)
    requires IsLead(first) && IsTrail(second)
  {
    var point := 0x1_0000 + (first - 0xD800) * 0x400 + (second - 0xDC00);
    [0xF0 + point / 0x4_0000, 0x80 + point / 0x1000 % 64, 0x80 + point / 64 % 64, 0x80 + point % 64]
  }

  function EncodeUnit(c: CodeUnit): (b: seq<Byte>)
    requires !IsSurrogate(c)
  {
    if c < 0x80 then [c]
    else if c < 0x800 then [0xC0 + c / 64, 0x80 + c % 64]
    else [0xE0 + c / 0x1000, 0x80 + c / 64 % 64, 0x80 + c % 64]
  }

  function Encode(s: Text): seq<Byte> {
    if s == [] then []
    else if StartsWithPair(s) then EncodePair(s[0], s[1]) + Encode(s[2..])
    else EncodeUnit(if IsSurrogate(s[0]) then REPLACEMENT else s[0]) + Encode(s[1..])
  }

  // ---------- decoding ----------

  /** How many bytes must follow a leading byte of a longer sequence; 0 if nothing may start with it. */
  function Following(b: Byte): (n: nat)
    ensures n <= 3
  {
    if 0xC2 <= b <= 0xDF then 1
    else if 0xE0 <= b <= 0xEF then 2
    else if 0xF0 <= b <= 0xF4 then 3
    else 0
  }

  predicate IsContinuation(b: Byte) {
    0x80 <= b <= 0xBF
  }

  /** The second byte rules out overlong forms, surrogates and points past U+10FFFF. */
  predicate MayBeSecond(first: Byte, second: Byte) {
    && IsContinuation(second)
    && (first == 0xE0 ==> second >= 0xA0)
    && (first == 0xED ==> second <= 0x9F)
    && (first == 0xF0 ==> second >= 0x90)
    && (first == 0xF4 ==> second <= 0x8F)
  }

  /** How many of the bytes that must follow are there. */
  function Matched(b: seq<Byte>): (m: nat)
    requires b != []
    ensures m < |b| && m <= Following(b[0])
  {
    var n := Following(b[0]);
    if n == 0 || |b| < 2 || !MayBeSecond(b[0], b[1]) then 0
    else if n == 1 || |b| < 3 || !IsContinuation(b[2]) then 1
    else if n == 2 || |b| < 4 || !IsContinuation(b[3]) then 2
    else 3
  }

  function UnitsOf(point: nat): (s: Text)
    requires point < 0x11_0000
  {
    if point < 0x1_0000 then [point]
    else [0xD800 + (point - 0x1_0000) / 0x400, 0xDC00 + (point - 0x1_0000) % 0x400]
  }

  function PointOf2(a: int, b: int): int {
    (a - 0xC0) * 64 + (b - 0x80)
  }

  function PointOf3(a: int, b: int, c: int): int {
    (a - 0xE0) * 0x1000 + (b - 0x80) * 64 + (c - 0x80)
  }

  function PointOf4(a: int, b: int, c: int, d: int): int {
    (a - 0xF0) * 0x4_0000 + (b - 0x80) * 0x1000 + (c - 0x80) * 64 + (d - 0x80)
  }

  /** The character of a complete sequence: one scalar value. */
  function PointOf(b: seq<Byte>): (point: nat)
    requires b != [] && 0 < Following(b[0]) == Matched(b)
    ensures 0x80 <= point < 0x11_0000 && !(0xD800 <= point < 0xE000)
  {
    var n := Following(b[0]);
    if n == 1 then PointOf2(b[0], b[1])
    else if n == 2 then PointOf3(b[0], b[1], b[2])
    else PointOf4(b[0], b[1], b[2], b[3])
  }

  lemma UnitsAreWellFormed(point: nat, rest: Text)
    requires point < 0x11_0000 && !(0xD800 <= point < 0xE000) && IsWellFormed(rest)
    ensures IsWellFormed(UnitsOf(point) + rest)
  {
    assert (UnitsOf(point) + rest)[|UnitsOf(point)|..] == rest;
  }

  /** A sequence that breaks off is replaced as a whole; a byte that can start nothing, by itself. */
  function Decode(b: seq<Byte>): (s: Text)
    ensures IsWellFormed(s)
    decreases |b|
  {
    if b == [] then []
    else if b[0] < 0x80 then [b[0]] + Decode(b[1..])
    else if 0 < Following(b[0]) == Matched(b) then
      UnitsAreWellFormed(PointOf(b), Decode(b[1 + Matched(b)..]));
      UnitsOf(PointOf(b)) + Decode(b[1 + Matched(b)..])
    else [REPLACEMENT] + Decode(b[1 + Matched(b)..])
  }

  lemma Quotients(x: nat)
    ensures x / 0x1000 == x / 64 / 64 && x / 0x4_0000 == x / 0x1000 / 64
  {
  }

  lemma Recombined(x: nat, q1: nat, q2: nat, q3: nat)
    requires q1 == x / 64 && q2 == q1 / 64 && q3 == q2 / 64
    ensures x == q3 * 0x4_0000 + q2 % 64 * 0x1000 + q1 % 64 * 64 + x % 64
  {
  }

  lemma PairPoint(first: CodeUnit, second: CodeUnit)
    requires IsLead(first) && IsTrail(second)
    ensures var b := EncodePair(first, second);
            && Following(b[0]) == 3
            && MayBeSecond(b[0], b[1]) && IsContinuation(b[2]) && IsContinuation(b[3])
            && PointOf4(b[0], b[1], b[2], b[3]) == 0x1_0000 + (first - 0xD800) * 0x400 + (second - 0xDC00)
  {
    var x := 0x1_0000 + (first - 0xD800) * 0x400 + (second - 0xDC00);
    assert 0x1_0000 <= x < 0x11_0000;
    PlaneBytes(x);
    Quotients(x);
    Recombined(x, x / 64, x / 0x1000, x / 0x4_0000);
  }

  lemma PlaneBytes(x: nat)
    requires 0x1_0000 <= x < 0x11_0000
    ensures x / 0x4_0000 <= 4
    ensures x / 0x4_0000 == 0 ==> x / 0x1000 % 64 >= 0x10
    ensures x / 0x4_0000 == 4 ==> x / 0x1000 % 64 <= 0xF
  {
    assert x / 0x1000 == x / 0x4_0000 * 64 + x / 0x1000 % 64;
  }

  lemma UnitPoint(c: CodeUnit)
    requires !IsSurrogate(c) && c >= 0x80
    ensures var b := EncodeUnit(c);
            && Following(b[0]) == |b| - 1 > 0
            && MayBeSecond(b[0], b[1])
            && if |b| == 2 then PointOf2(b[0], b[1]) == c else IsContinuation(b[2]) && PointOf3(b[0], b[1], b[2]) == c
  {
  }

  lemma DecodePair(first: CodeUnit, second: CodeUnit, rest: seq<Byte>)
    requires IsLead(first) && IsTrail(second)
    ensures Decode(EncodePair(first, second) + rest) == [first, second] + Decode(rest)
  {
    PairPoint(first, second);
    var e := EncodePair(first, second);
    var b := e + rest;
    assert b[0] == e[0] && b[1] == e[1] && b[2] == e[2] && b[3] == e[3] && b[4..] == rest;
    assert PointOf(b) == 0x1_0000 + (first - 0xD800) * 0x400 + (second - 0xDC00);
    assert UnitsOf(PointOf(b)) == [first, second];
  }

  lemma DecodeUnit(c: CodeUnit, rest: seq<Byte>)
    requires !IsSurrogate(c)
    ensures Decode(EncodeUnit(c) + rest) == [c] + Decode(rest)
  {
    var e := EncodeUnit(c);
    var b := e + rest;
    assert b[|e|..] == rest;
    if c >= 0x80 {
      UnitPoint(c);
      assert b[..|e|] == e;
      assert forall i :: 0 <= i < |e| ==> b[i] == e[i];
      assert PointOf(b) == c;
    }
  }

  /** Decoding gives the text back, with its lone surrogates replaced. */
  lemma {:induction false} DecodeUndoesEncode(s: Text)
    ensures Decode(Encode(s)) == Scrubbed(s)
  {
    if s == [] {
    } else {
      if StartsWithPair(s) {
        DecodeUndoesEncode(s[2..]);
        DecodePair(s[0], s[1], Encode(s[2..]));
        assert s[..2] == [s[0], s[1]];
      } else {
        DecodeUndoesEncode(s[1..]);
        DecodeUnit(if IsSurrogate(s[0]) then REPLACEMENT else s[0], Encode(s[1..]));
      }
    }
  }

  lemma {:induction false} ScrubbedIsSame(s: Text)
    ensures Scrubbed(s) == s <==> IsWellFormed(s)
  {
    if s == [] {
    } else {
      if StartsWithPair(s) {
        ScrubbedIsSame(s[2..]);
        assert s == s[..2] + s[2..] && Scrubbed(s)[2..] == Scrubbed(s[2..]);
      } else {
        ScrubbedIsSame(s[1..]);
        assert s == [s[0]] + s[1..] && Scrubbed(s)[1..] == Scrubbed(s[1..]);
      }
    }
  }

  // ---------- scrubbing ----------

  lemma {:induction false} ScrubbedWellFormed(s: Text)
    ensures IsWellFormed(Scrubbed(s))
  {
    if s == [] {
    } else if StartsWithPair(s) {
      ScrubbedWellFormed(s[2..]);
      assert Scrubbed(s)[2..] == Scrubbed(s[2..]);
    } else {
      ScrubbedWellFormed(s[1..]);
      assert Scrubbed(s)[1..] == Scrubbed(s[1..]);
    }
  }

  /** A string and its scrubbed form have one encoding. */
  lemma {:induction false} EncodeScrubbed(s: Text)
    ensures Encode(Scrubbed(s)) == Encode(s)
  {
    if s == [] {
    } else if StartsWithPair(s) {
      EncodeScrubbed(s[2..]);
      assert Scrubbed(s)[2..] == Scrubbed(s[2..]);
    } else {
      EncodeScrubbed(s[1..]);
      assert Scrubbed(s)[1..] == Scrubbed(s[1..]);
    }
  }

  /** Two strings have one encoding exactly when they are the same once scrubbed. */
  lemma SameEncoding(a: Text, b: Text)
    ensures Encode(a) == Encode(b) <==> Scrubbed(a) == Scrubbed(b)
  {
    EncodeScrubbed(a);
    EncodeScrubbed(b);
    DecodeUndoesEncode(a);
    DecodeUndoesEncode(b);
  }

  /** Surrogates do not pair across another unit. */
  lemma {:induction false} ScrubbedAround(a: Text, c: CodeUnit, b: Text)
    requires !IsSurrogate(c)
    ensures Scrubbed(a + ([c] + b)) == Scrubbed(a) + ([c] + Scrubbed(b))
  {
    var t := a + ([c] + b);
    if a == [] {
      assert t == [c] + b && t[1..] == b;
    } else if StartsWithPair(a) {
      assert t[2..] == a[2..] + ([c] + b) && t[..2] == a[..2];
      ScrubbedAround(a[2..], c, b);
    } else {
      assert t[1..] == a[1..] + ([c] + b) && t[0] == a[0];
      assert |a| == 1 ==> t[1] == c;
      assert |a| > 1 ==> t[1] == a[1];
      ScrubbedAround(a[1..], c, b);
    }
  }

  lemma {:induction false} ScrubbedHasNoNew(s: Text, c: CodeUnit)
    requires c != REPLACEMENT && c !in s
    ensures c !in Scrubbed(s)
  {
    if s == [] {
    } else if StartsWithPair(s) {
      ScrubbedHasNoNew(s[2..], c);
    } else {
      ScrubbedHasNoNew(s[1..], c);
    }
  }
}
