/** Hexadecimal text: digits, numbers and byte strings. */
module Hex {
  import opened CodeUnits

  type Byte = b: int | 0 <= b < 256

  function HexUnit(d: nat): (c: CodeUnit)
    requires d < 16
  {
    if d < 10 then 48 + d else 87 + d
  }

  /** The value of a digit of either case, or -1. */
  function HexValue(c: CodeUnit): (d: int)
    ensures -1 <= d < 16
  {
    if 48 <= c <= 57 then c - 48
    else if 97 <= c <= 102 then c - 87
    else if 65 <= c <= 70 then c - 55
    else -1
  }

  lemma HexDigitRoundTrip(d: nat)
    requires d < 16
    ensures HexValue(HexUnit(d)) == d
  {
  }

  predicate IsLowerHex(t: Text) {
    forall i :: 0 <= i < |t| ==> HexValue(t[i]) >= 0 && t[i] == HexUnit(HexValue(t[i]))
  }

  // ---------- byte strings ----------

  /** Two lower-case digits a byte. */
  function EncodeHex(bytes: seq<Byte>): (t: Text)
    ensures |t| == 2 * |bytes|
    ensures IsLowerHex(t)
  {
    if bytes == [] then []
    else [HexUnit(bytes[0] / 16), HexUnit(bytes[0] % 16)] + EncodeHex(bytes[1..])
  }

  /** Reads pairs of digits; the first pair that is not one, or a digit left over, ends the reading. */
  function DecodeHex(t: Text): (bytes: seq<Byte>)
  {
    if |t| < 2 || HexValue(t[0]) < 0 || HexValue(t[1]) < 0 then []
    else [HexValue(t[0]) * 16 + HexValue(t[1])] + DecodeHex(t[2..])
  }

  lemma {:induction false} DecodeUndoesEncode(bytes: seq<Byte>)
    ensures DecodeHex(EncodeHex(bytes)) == bytes
  {
    if bytes == [] {
    } else {
      DecodeUndoesEncode(bytes[1..]);
      assert EncodeHex(bytes)[2..] == EncodeHex(bytes[1..]);
    }
  }

  lemma PairRoundTrip(high: nat, low: nat, rest: seq<Byte>)
    requires high < 16 && low < 16
    ensures EncodeHex([high * 16 + low] + rest) == [HexUnit(high), HexUnit(low)] + EncodeHex(rest)
  {
    assert ([high * 16 + low] + rest)[1..] == rest;
  }

  lemma LowerHexTail(t: Text)
    requires IsLowerHex(t) && |t| >= 2
    ensures IsLowerHex(t[2..])
    ensures t == [HexUnit(HexValue(t[0])), HexUnit(HexValue(t[1]))] + t[2..]
  {
  }

  /** On lower-case text of even length the reader loses nothing. */
  lemma {:induction false} EncodeUndoesDecode(t: Text)
    requires IsLowerHex(t) && |t| % 2 == 0
    ensures |DecodeHex(t)| == |t| / 2 && EncodeHex(DecodeHex(t)) == t
  {
    if t == [] {
    } else {
      LowerHexTail(t);
      EncodeUndoesDecode(t[2..]);
      PairRoundTrip(HexValue(t[0]), HexValue(t[1]), DecodeHex(t[2..]));
    }
  }

  lemma {:induction false} EncodeConcat(a: seq<Byte>, b: seq<Byte>)
    ensures EncodeHex(a + b) == EncodeHex(a) + EncodeHex(b)
  {
    if a == [] {
      assert a + b == b;
    } else {
      assert (a + b)[1..] == a[1..] + b;
      EncodeConcat(a[1..], b);
    }
  }

  lemma {:induction false} EncodeHasNoColon(bytes: seq<Byte>)
    ensures COLON !in EncodeHex(bytes)
  {
    if bytes == [] {
    } else {
      EncodeHasNoColon(bytes[1..]);
    }
  }

  // ---------- numbers ----------

  function Pow16(k: nat): (p: nat)
    ensures p > 0
  {
    if k == 0 then 1 else 16 * Pow16(k - 1)
  }

  /** The number that a text of digits writes in base 16. */
  function Value(t: Text): (n: nat)
    requires IsLowerHex(t)
  {
    if t == [] then 0 else HexValue(t[0]) * Pow16(|t| - 1) + Value(t[1..])
  }

  /** The digits of a number, none of them leading zeros except for zero itself. */
  function Digits(n: nat): (t: Text)
    ensures t != [] && IsLowerHex(t)
  {
    if n < 16 then [HexUnit(n)] else Digits(n / 16) + [HexUnit(n % 16)]
  }

  function PadStart(t: Text, width: nat): (r: Text)
    requires IsLowerHex(t)
    ensures IsLowerHex(r)
    decreases width
  {
    if |t| >= width then t else [48] + PadStart(t, width - 1)
  }

  lemma LeadingDigitDecides(c: nat, d: nat, p: nat, rest: nat)
    requires c < d && rest < p
    ensures c * p + rest < d * p
  {
    assert (c + 1) * p <= d * p;
  }

  lemma ShiftDigit(d: int, p: int)
    ensures d * (16 * p) == d * p * 16
  {
  }

  lemma {:induction false} ValueBelow(t: Text)
    requires IsLowerHex(t)
    ensures Value(t) < Pow16(|t|)
  {
    if t == [] {
    } else {
      ValueBelow(t[1..]);
      LeadingDigitDecides(HexValue(t[0]), 16, Pow16(|t| - 1), Value(t[1..]));
    }
  }

  lemma {:induction false} ValueSnoc(t: Text, c: CodeUnit)
    requires IsLowerHex(t + [c]) && IsLowerHex(t)
    ensures Value(t + [c]) == Value(t) * 16 + HexValue(c)
  {
    if t == [] {
      assert t + [c] == [c] && [c][1..] == [];
      assert Pow16(0) == 1;
    } else {
      assert (t + [c])[1..] == t[1..] + [c] && (t + [c])[0] == t[0];
      ValueSnoc(t[1..], c);
      ShiftDigit(HexValue(t[0]), Pow16(|t| - 1));
    }
  }

  lemma {:induction false} DigitsValue(n: nat)
    ensures Value(Digits(n)) == n
  {
    if n < 16 {
      assert Digits(n)[1..] == [];
      assert Pow16(0) == 1;
    } else {
      DigitsValue(n / 16);
      ValueSnoc(Digits(n / 16), HexUnit(n % 16));
    }
  }

  lemma {:induction false} DigitsLength(n: nat, k: nat)
    requires k > 0 && n < Pow16(k)
    ensures |Digits(n)| <= k
  {
    if n >= 16 {
      assert Pow16(0) == 1 && Pow16(1) == 16 * Pow16(0);
      DigitsLength(n / 16, k - 1);
    }
  }

  lemma {:induction false} PadStartValue(t: Text, width: nat)
    requires IsLowerHex(t)
    ensures |PadStart(t, width)| == if |t| >= width then |t| else width
    ensures Value(PadStart(t, width)) == Value(t)
    decreases width
  {
    if |t| < width {
      PadStartValue(t, width - 1);
      var r := PadStart(t, width);
      assert r[1..] == PadStart(t, width - 1);
      assert HexValue(r[0]) == 0;
    }
  }

  /** Between texts of one length, text order is number order. */
  lemma {:induction false} OrderIsValueOrder(a: Text, b: Text)
    requires IsLowerHex(a) && IsLowerHex(b) && |a| == |b|
    ensures Precedes(a, b) <==> Value(a) < Value(b)
  {
    if a == [] {
    } else {
      OrderIsValueOrder(a[1..], b[1..]);
      ValueBelow(a[1..]);
      ValueBelow(b[1..]);
      var p := Pow16(|a| - 1);
      var c, d := HexValue(a[0]), HexValue(b[0]);
      assert a[0] < b[0] <==> c < d;
      if c < d {
        LeadingDigitDecides(c, d, p, Value(a[1..]));
      } else if d < c {
        LeadingDigitDecides(d, c, p, Value(b[1..]));
      }
    }
  }
}
