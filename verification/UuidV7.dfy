/** The generator of time-sortable ids and the pipe that checks ids in paths (RFC 9562, sections 4 and 5.7). */
module UuidV7 {
  import opened CodeUnits
  import opened Hex
  import opened Wrappers

  const RANDOM_BYTES := 10
  const TIMESTAMP_DIGITS := 12
  const SEVEN: CodeUnit := 55

  // ---------- the pipe ----------

  datatype PipeError = ValidationFailed

  predicate IsDash(i: nat) {
    i == 8 || i == 13 || i == 18 || i == 23
  }

  /** What the pattern admits at each of the 36 places: dashes, the version, the variant, and digits of either case. */
  predicate Admitted(i: nat, c: CodeUnit) {
    if IsDash(i) then c == MINUS
    else if i == 14 then HexValue(c) == 4 || HexValue(c) == 7
    else if i == 19 then 8 <= HexValue(c) < 12
    else HexValue(c) >= 0
  }

  predicate IsUuidV4OrV7(value: Text) {
    |value| == 36 && forall i :: 0 <= i < 36 ==> Admitted(i, value[i])
  }

  /** `None` stands for a value that is not a string. */
  function Transform(value: Option<Text>): Result<Text, PipeError> {
    if value.None? || !IsUuidV4OrV7(value.value) then Err(ValidationFailed) else Ok(value.value)
  }

  // ---------- the generator ----------

  function TimestampHex(now: nat): (t: Text)
    ensures IsLowerHex(t)
  {
    PadStart(Digits(now), TIMESTAMP_DIGITS)
  }

  /** Timestamp and random bytes before the stamps; a time that needs a thirteenth digit spoils the layout. */
  function RawBytes(now: nat, random: seq<Byte>): seq<Byte> {
    DecodeHex(TimestampHex(now)) + random
  }

  /** Version 7 in the upper half of byte 6, variant 10 in the upper bits of byte 8. */
  function Stamped(raw: seq<Byte>): seq<Byte>
    requires |raw| >= 9
  {
    raw[6 := raw[6] % 16 + 0x70][8 := raw[8] % 64 + 0x80]
  }

  function Dashed(hex: Text): Text
    requires |hex| >= 32
  {
    hex[..8] + [MINUS] + hex[8..12] + [MINUS] + hex[12..16] + [MINUS] + hex[16..20] + [MINUS] + hex[20..32]
  }

  function IdOf(now: nat, random: seq<Byte>): Text
    requires |random| == RANDOM_BYTES
  {
    TimestampBytes(now);
    Dashed(EncodeHex(Stamped(RawBytes(now, random))))
  }

  /** The clock and the random source are parameters. Masking with 0x0f and 0x3f keeps the remainder by 16 and 64;
      what is then or-ed in has no bit in common with it. */
  method GenerateId(now: nat, random: seq<Byte>) returns (id: Text)
    requires |random| == RANDOM_BYTES
    ensures id == IdOf(now, random)
  {
    TimestampBytes(now);
    var raw := RawBytes(now, random);
    var rawBytes := new Byte[|raw|](i requires 0 <= i < |raw| => raw[i]);
    assert rawBytes[..] == raw;
    rawBytes[6] := rawBytes[6] % 16 + 0x70;
    rawBytes[8] := rawBytes[8] % 64 + 0x80;
    assert rawBytes[..] == Stamped(raw);
    id := Dashed(EncodeHex(rawBytes[..]));
  }

  lemma TimestampBytes(now: nat)
    ensures |DecodeHex(TimestampHex(now))| >= 6
  {
    PadStartValue(Digits(now), TIMESTAMP_DIGITS);
    DecodedLength(TimestampHex(now));
  }

  lemma {:induction false} DecodedLength(t: Text)
    requires IsLowerHex(t)
    ensures |DecodeHex(t)| == |t| / 2
  {
    if |t| >= 2 {
      DecodedLength(t[2..]);
    }
  }

  // ---------- ids are well formed ----------

  lemma {:induction false} EncodedAt(bytes: seq<Byte>, i: nat)
    requires i < |bytes|
    ensures EncodeHex(bytes)[2 * i] == HexUnit(bytes[i] / 16)
    ensures EncodeHex(bytes)[2 * i + 1] == HexUnit(bytes[i] % 16)
  {
    if i == 0 {
    } else {
      EncodedAt(bytes[1..], i - 1);
    }
  }

  /** The pipe accepts every generated id, whatever the time and the random bytes. */
  lemma GeneratedIdsAreAccepted(now: nat, random: seq<Byte>)
    requires |random| == RANDOM_BYTES
    ensures Transform(Some(IdOf(now, random))) == Ok(IdOf(now, random))
    ensures IdOf(now, random)[14] == SEVEN
  {
    TimestampBytes(now);
    var bytes := Stamped(RawBytes(now, random));
    var hex := EncodeHex(bytes);
    EncodedAt(bytes, 6);
    EncodedAt(bytes, 8);
    DashedIsUuid(hex);
  }

  lemma DashedIsUuid(hex: Text)
    requires |hex| >= 32 && IsLowerHex(hex)
    requires hex[12] == SEVEN && 8 <= HexValue(hex[16]) < 12
    ensures IsUuidV4OrV7(Dashed(hex)) && Dashed(hex)[14] == SEVEN
  {
    forall i | 0 <= i < 36
      ensures Admitted(i, Dashed(hex)[i])
    {
      DashedAt(hex, i);
    }
    DashedAt(hex, 14);
  }

  /** Where each digit of the buffer lands in the id. */
  lemma DashedAt(hex: Text, i: nat)
    requires |hex| >= 32 && i < 36
    ensures Dashed(hex)[i] ==
            if IsDash(i) then MINUS
            else if i < 8 then hex[i]
            else if i < 13 then hex[i - 1]
            else if i < 18 then hex[i - 2]
            else if i < 23 then hex[i - 3]
            else hex[i - 4]
  {
  }

  /** A hexadecimal digit of either case, told by its code unit. */
  predicate IsHexDigit(c: CodeUnit) {
    48 <= c <= 57 || 65 <= c <= 70 || 97 <= c <= 102
  }

  /** 4 or 7, and 8, 9, a, b, A or B. */
  predicate HasVersionAndVariant(hex: Text)
    requires |hex| == 32
  {
    hex[12] in {52, 55} && hex[16] in {56, 57, 65, 66, 97, 98}
  }

  /** The pipe returns its value unchanged exactly if that is 32 digits of either case, grouped 8-4-4-4-12 by dashes,
      with version 4 or 7 and the variant of RFC 9562; it refuses everything else. */
  lemma PipeAcceptsExactly(value: Option<Text>)
    ensures Transform(value).Ok?
       <==> && value.Some?
            && exists hex: Text :: && |hex| == 32 && (forall i :: 0 <= i < 32 ==> IsHexDigit(hex[i]))
                                   && HasVersionAndVariant(hex) && value.value == Dashed(hex)
    ensures Transform(value).Ok? ==> Some(Transform(value).value) == value
  {
    if Transform(value).Ok? {
      var hex := Undashed(value.value);
      DashedUndoesUndashed(value.value);
      DigitsOfUuid(value.value);
    } else if value.Some? {
      forall hex: Text | |hex| == 32 && (forall i :: 0 <= i < 32 ==> IsHexDigit(hex[i])) && HasVersionAndVariant(hex)
        ensures value.value != Dashed(hex)
      {
        DigitsMakeUuid(hex);
      }
    }
  }

  lemma DigitsMakeUuid(hex: Text)
    requires |hex| == 32 && (forall i :: 0 <= i < 32 ==> IsHexDigit(hex[i])) && HasVersionAndVariant(hex)
    ensures IsUuidV4OrV7(Dashed(hex))
  {
    forall i | 0 <= i < 36
      ensures Admitted(i, Dashed(hex)[i])
    {
      DashedAt(hex, i);
    }
  }

  lemma DigitsOfUuid(id: Text)
    requires IsUuidV4OrV7(id)
    ensures var hex := Undashed(id);
            |hex| == 32 && (forall i :: 0 <= i < 32 ==> IsHexDigit(hex[i])) && HasVersionAndVariant(hex)
  {
    var hex := Undashed(id);
    forall i | 0 <= i < 32
      ensures IsHexDigit(hex[i])
    {
      var j := if i < 8 then i else if i < 12 then i + 1 else if i < 16 then i + 2 else if i < 20 then i + 3 else i + 4;
      assert hex[i] == id[j] && Admitted(j, id[j]);
    }
    assert hex[12] == id[14] && Admitted(14, id[14]);
    assert hex[16] == id[19] && Admitted(19, id[19]);
  }

  lemma DashedUndoesUndashed(id: Text)
    requires IsUuidV4OrV7(id)
    ensures Dashed(Undashed(id)) == id
  {
    assert Admitted(8, id[8]) && Admitted(13, id[13]) && Admitted(18, id[18]) && Admitted(23, id[23]);
    assert id == id[..8] + [id[8]] + id[9..13] + [id[13]] + id[14..18] + [id[18]] + id[19..23] + [id[23]] + id[24..];
    var hex := Undashed(id);
    assert hex[..8] == id[..8] && hex[8..12] == id[9..13] && hex[12..16] == id[14..18] && hex[16..20] == id[19..23]
        && hex[20..32] == id[24..];
  }

  // ---------- ids read back ----------

  function Undashed(id: Text): Text
    requires |id| == 36
  {
    id[..8] + id[9..13] + id[14..18] + id[19..23] + id[24..]
  }

  /** The time an id carries, in milliseconds. */
  function TimeOf(id: Text): nat
    requires |id| == 36 && IsLowerHex(id[..8] + id[9..13])
  {
    Value(id[..8] + id[9..13])
  }

  lemma UndashedUndoesDashed(hex: Text)
    requires |hex| == 32
    ensures Undashed(Dashed(hex)) == hex
  {
    forall i | 0 <= i < 36
      ensures !IsDash(i) ==> Dashed(hex)[i] == hex[if i < 8 then i else if i < 13 then i - 1 else if i < 18 then i - 2 else if i < 23 then i - 3 else i - 4]
    {
      DashedAt(hex, i);
    }
  }

  lemma InRange(now: nat)
    requires now < Pow16(TIMESTAMP_DIGITS)
    ensures |TimestampHex(now)| == TIMESTAMP_DIGITS && Value(TimestampHex(now)) == now
    ensures EncodeHex(DecodeHex(TimestampHex(now))) == TimestampHex(now)
    ensures |DecodeHex(TimestampHex(now))| == 6
  {
    DigitsLength(now, TIMESTAMP_DIGITS);
    DigitsValue(now);
    PadStartValue(Digits(now), TIMESTAMP_DIGITS);
    EncodeUndoesDecode(TimestampHex(now));
  }

  lemma {:induction false} DecodePrefix(t: Text, k: nat)
    requires IsLowerHex(t) && 2 * k <= |t|
    ensures |DecodeHex(t)| >= k && DecodeHex(t)[..k] == DecodeHex(t[..2 * k])
  {
    if k == 0 {
    } else {
      DecodePrefix(t[2..], k - 1);
      assert t[..2 * k][2..] == t[2..][..2 * (k - 1)];
    }
  }

  lemma DashedStarts(start: Text, rest: Text)
    requires |start| == TIMESTAMP_DIGITS && |rest| >= 20
    ensures |Dashed(start + rest)| == 36
    ensures Dashed(start + rest)[..8] == start[..8]
    ensures Dashed(start + rest)[8] == MINUS
    ensures Dashed(start + rest)[9..13] == start[8..]
  {
  }

  /** The first twelve digits of an id are those of the timestamp, whatever the time. */
  lemma LeadingDigits(now: nat, random: seq<Byte>)
    requires |random| == RANDOM_BYTES
    ensures |TimestampHex(now)| >= TIMESTAMP_DIGITS
    ensures |IdOf(now, random)| == 36
    ensures IdOf(now, random)[..8] == TimestampHex(now)[..8]
    ensures IdOf(now, random)[8] == MINUS
    ensures IdOf(now, random)[9..13] == TimestampHex(now)[8..12]
  {
    PadStartValue(Digits(now), TIMESTAMP_DIGITS);
    var rest := LeadingBytes(now, random);
    DashedStarts(TimestampHex(now)[..12], rest);
  }

  lemma LeadingBytes(now: nat, random: seq<Byte>) returns (rest: Text)
    requires |random| == RANDOM_BYTES && |TimestampHex(now)| >= TIMESTAMP_DIGITS
    ensures |rest| >= 20 && IdOf(now, random) == Dashed(TimestampHex(now)[..12] + rest)
  {
    TimestampBytes(now);
    DecodePrefix(TimestampHex(now), 6);
    EncodeUndoesDecode(TimestampHex(now)[..12]);
    var bytes := Stamped(RawBytes(now, random));
    assert bytes[..6] == DecodeHex(TimestampHex(now)[..12]);
    assert bytes == bytes[..6] + bytes[6..];
    EncodeConcat(bytes[..6], bytes[6..]);
    rest := EncodeHex(bytes[6..]);
  }

  lemma LeadingText(now: nat, random: seq<Byte>)
    requires |random| == RANDOM_BYTES
    ensures var id := IdOf(now, random);
            && |id| == 36
            && |TimestampHex(now)| >= TIMESTAMP_DIGITS
            && id[..8] + id[9..13] == TimestampHex(now)[..12]
            && IsLowerHex(id[..8] + id[9..13])
  {
    LeadingDigits(now, random);
    assert TimestampHex(now)[..12] == TimestampHex(now)[..8] + TimestampHex(now)[8..12];
  }

  /** The time without the digits after the twelfth. */
  function CarriedTime(now: nat): nat {
    var digits := |Digits(now)|;
    if digits <= TIMESTAMP_DIGITS then now else now / Pow16(digits - TIMESTAMP_DIGITS)
  }

  /** What an id carries of any time, however large. */
  lemma TimeCarried(now: nat, random: seq<Byte>)
    requires |random| == RANDOM_BYTES
    ensures |IdOf(now, random)| == 36
    ensures var id := IdOf(now, random); IsLowerHex(id[..8] + id[9..13]) && TimeOf(id) == CarriedTime(now)
  {
    LeadingText(now, random);
    DigitsValue(now);
    PadStartValue(Digits(now), TIMESTAMP_DIGITS);
    var hex := TimestampHex(now);
    if |Digits(now)| <= TIMESTAMP_DIGITS {
      assert hex[..12] == hex;
    } else {
      assert hex == Digits(now);
      FrontValue(hex, TIMESTAMP_DIGITS);
    }
  }

  /** The time can be read back exactly from the ids of times that fit in 48 bits. */
  lemma TimeReadsBack(now: nat, random: seq<Byte>)
    requires |random| == RANDOM_BYTES
    ensures |IdOf(now, random)| == 36
    ensures var id := IdOf(now, random); IsLowerHex(id[..8] + id[9..13]) && (TimeOf(id) == now <==> now < Pow16(TIMESTAMP_DIGITS))
  {
    TimeCarried(now, random);
    LeadingText(now, random);
    ValueBelow(TimestampHex(now)[..12]);
    if now < Pow16(TIMESTAMP_DIGITS) {
      DigitsLength(now, TIMESTAMP_DIGITS);
    }
  }

  /** The number that the first digits of a text write is the quotient by the place of the last of them. */
  lemma FrontValue(t: Text, k: nat)
    requires IsLowerHex(t) && k <= |t|
    ensures Value(t[..k]) == Value(t) / Pow16(|t| - k)
  {
    ValueSplit(t, k);
    ValueBelow(t[k..]);
    Quotient(Value(t), Value(t[..k]), Pow16(|t| - k), Value(t[k..]));
  }

  lemma {:induction false} ValueSplit(t: Text, k: nat)
    requires IsLowerHex(t) && k <= |t|
    ensures Value(t) == Value(t[..k]) * Pow16(|t| - k) + Value(t[k..])
    decreases k
  {
    if k == 0 {
      assert t[0..] == t;
    } else {
      ValueSplit(t[1..], k - 1);
      assert t[..k][1..] == t[1..][..k - 1] && t[k..] == t[1..][k - 1..];
      PowersMultiply(k - 1, |t| - k);
      Distributed(HexValue(t[0]), Pow16(k - 1), Pow16(|t| - k), Value(t[1..][..k - 1]));
    }
  }

  lemma {:induction false} PowersMultiply(a: nat, b: nat)
    ensures Pow16(a + b) == Pow16(a) * Pow16(b)
  {
    if a == 0 {
    } else {
      PowersMultiply(a - 1, b);
      Associated(Pow16(a - 1), Pow16(b));
    }
  }

  lemma Associated(x: int, y: int)
    ensures 16 * (x * y) == (16 * x) * y
  {
  }

  lemma Distributed(d: int, x: int, y: int, v: int)
    ensures (d * x + v) * y == d * (x * y) + v * y
  {
  }

  lemma Quotient(n: nat, q: nat, d: nat, r: nat)
    requires d > 0 && r < d && n == q * d + r
    ensures n / d == q
  {
    var e := n / d - q;
    assert n == n / d * d + n % d;
    assert e * d == r - n % d by {
      assert (n / d - q) * d == n / d * d - q * d;
    }
    Small(e, d, r - n % d);
  }

  lemma Small(e: int, d: int, r: int)
    requires e * d == r && -d < r < d
    ensures e == 0
  {
    assert e >= 1 ==> e * d >= d;
    assert e <= -1 ==> e * d <= -d;
  }

  lemma RandomPart(now: nat, random: seq<Byte>)
    requires |random| == RANDOM_BYTES && |DecodeHex(TimestampHex(now))| == 6
    ensures Stamped(RawBytes(now, random))[6..] == random[0 := random[0] % 16 + 0x70][2 := random[2] % 64 + 0x80]
  {
  }

  /** The random bytes read back too, except for the six bits that the stamps overwrite. */
  lemma RandomReadsBack(now: nat, random: seq<Byte>)
    requires |random| == RANDOM_BYTES && now < Pow16(TIMESTAMP_DIGITS)
    ensures |IdOf(now, random)| == 36
    ensures var bytes := DecodeHex(Undashed(IdOf(now, random)));
            |bytes| == 16 && bytes[6..] == random[0 := random[0] % 16 + 0x70][2 := random[2] % 64 + 0x80]
  {
    InRange(now);
    RandomPart(now, random);
    var bytes := Stamped(RawBytes(now, random));
    UndashedUndoesDashed(EncodeHex(bytes));
    DecodeUndoesEncode(bytes);
  }

  // ---------- ids sort by time ----------

  lemma {:induction false} CommonPrefix(prefix: Text, a: Text, b: Text)
    ensures Precedes(prefix + a, prefix + b) <==> Precedes(a, b)
  {
    if prefix == [] {
      assert prefix + a == a && prefix + b == b;
    } else {
      assert (prefix + a)[1..] == prefix[1..] + a && (prefix + b)[1..] == prefix[1..] + b;
      CommonPrefix(prefix[1..], a, b);
    }
  }

  /** What follows does not matter once texts of one length differ. */
  lemma {:induction false} DecidedBefore(a: Text, b: Text, x: Text, y: Text)
    requires |a| == |b| && a != b
    ensures Precedes(a + x, b + y) <==> Precedes(a, b)
  {
    assert (a + x)[1..] == a[1..] + x && (b + y)[1..] == b[1..] + y;
    if a[0] == b[0] {
      assert a == [a[0]] + a[1..] && b == [b[0]] + b[1..];
      DecidedBefore(a[1..], b[1..], x, y);
    }
  }

  /** Two texts cut at one place compare like the texts with something common put in at the cut. */
  lemma CutDoesNotMatter(a: Text, b: Text, x: Text, y: Text)
    requires |a| == |b| == TIMESTAMP_DIGITS && a != b
    ensures Precedes(a[..8] + [MINUS] + a[8..] + x, b[..8] + [MINUS] + b[8..] + y) <==> Precedes(a, b)
  {
    assert a == a[..8] + a[8..] && b == b[..8] + b[8..];
    var a', b' := [MINUS] + a[8..] + x, [MINUS] + b[8..] + y;
    assert a[..8] + [MINUS] + a[8..] + x == a[..8] + a' && b[..8] + [MINUS] + b[8..] + y == b[..8] + b';
    if a[..8] != b[..8] {
      DecidedBefore(a[..8], b[..8], a', b');
      DecidedBefore(a[..8], b[..8], a[8..], b[8..]);
    } else {
      CommonPrefix(a[..8], a', b');
      CommonPrefix(a[..8], a[8..], b[8..]);
      assert a' == [MINUS] + (a[8..] + x) && b' == [MINUS] + (b[8..] + y);
      CommonPrefix([MINUS], a[8..] + x, b[8..] + y);
      DecidedBefore(a[8..], b[8..], x, y);
    }
  }

  /** Ids that carry different times sort by the times they carry. */
  lemma TextsSortByTime(id1: Text, id2: Text)
    requires |id1| == |id2| == 36 && id1[8] == id2[8] == MINUS
    requires IsLowerHex(id1[..8] + id1[9..13]) && IsLowerHex(id2[..8] + id2[9..13])
    requires TimeOf(id1) != TimeOf(id2)
    ensures Precedes(id1, id2) <==> TimeOf(id1) < TimeOf(id2)
  {
    var h1, h2 := id1[..8] + id1[9..13], id2[..8] + id2[9..13];
    assert id1 == h1[..8] + [MINUS] + h1[8..] + id1[13..];
    assert id2 == h2[..8] + [MINUS] + h2[8..] + id2[13..];
    OrderIsValueOrder(h1, h2);
    CutDoesNotMatter(h1, h2, id1[13..], id2[13..]);
  }

  /** Ids of any two times sort by what they carry of them, whatever their random bytes. */
  lemma IdsSortByCarriedTime(t1: nat, r1: seq<Byte>, t2: nat, r2: seq<Byte>)
    requires |r1| == |r2| == RANDOM_BYTES && CarriedTime(t1) != CarriedTime(t2)
    ensures Precedes(IdOf(t1, r1), IdOf(t2, r2)) <==> CarriedTime(t1) < CarriedTime(t2)
  {
    TimeCarried(t1, r1);
    TimeCarried(t2, r2);
    LeadingDigits(t1, r1);
    LeadingDigits(t2, r2);
    TextsSortByTime(IdOf(t1, r1), IdOf(t2, r2));
  }

  /** Ids made at different milliseconds of the 48-bit range sort by time, whatever their random bytes. */
  lemma IdsSortByTime(t1: nat, r1: seq<Byte>, t2: nat, r2: seq<Byte>)
    requires |r1| == |r2| == RANDOM_BYTES
    requires t1 < Pow16(TIMESTAMP_DIGITS) && t2 < Pow16(TIMESTAMP_DIGITS) && t1 != t2
    ensures Precedes(IdOf(t1, r1), IdOf(t2, r2)) <==> t1 < t2
  {
    DigitsLength(t1, TIMESTAMP_DIGITS);
    DigitsLength(t2, TIMESTAMP_DIGITS);
    IdsSortByCarriedTime(t1, r1, t2, r2);
  }

  /** Past the range the order is lost: a later id sorts before an earlier one exactly as what it carries does. */
  lemma OrderEndsWithTheRange(early: nat, r1: seq<Byte>, late: nat, r2: seq<Byte>)
    requires |r1| == |r2| == RANDOM_BYTES
    requires early < Pow16(TIMESTAMP_DIGITS) <= late && CarriedTime(late) != early
    ensures Precedes(IdOf(late, r2), IdOf(early, r1)) <==> CarriedTime(late) < early
  {
    DigitsLength(early, TIMESTAMP_DIGITS);
    IdsSortByCarriedTime(late, r2, early, r1);
  }
}
