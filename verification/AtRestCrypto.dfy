/** Field encryption at rest: the wire format `version:nonce:ciphertext:tag` and the rotation of keys. */
module AtRestCrypto {
  import opened CodeUnits
  import opened Hex
  import opened Wrappers
  import Utf8

  type Bytes = seq<Byte>

  const KEY_BYTES := 32
  const NONCE_BYTES := 12
  const TAG_BYTES := 16
  const WIRE_PART_COUNT := 4

  datatype Sealed = Sealed(ciphertext: Bytes, tag: Bytes)

  /** An authenticated cipher: `seal` and `open` take key, nonce, text and additional data; `open` also takes the tag. */
  datatype Cipher = Cipher(
    seal: (Bytes, Bytes, Bytes, Bytes) -> Sealed,
    open: (Bytes, Bytes, Sealed, Bytes) -> Option<Bytes>)

  /** Opening undoes sealing, and tags have their length. Nothing is asked about forged texts. */
  ghost predicate OpensWhatItSeals(c: Cipher) {
    forall key: Bytes, nonce: Bytes, plain: Bytes, aad: Bytes
      | |key| == KEY_BYTES && |nonce| == NONCE_BYTES ::
      && |c.seal(key, nonce, plain, aad).tag| == TAG_BYTES
      && c.open(key, nonce, c.seal(key, nonce, plain, aad), aad) == Some(plain)
  }

  datatype KeySet = KeySet(keys: map<Text, Bytes>, activeVersion: Text)

  datatype Error =
    | ActiveKeyNotLoaded
    | BadKeyLength
    | MalformedWireFormat
    | UnknownVersion
    | TagMismatch

  /** No additional data and the empty string are alike. */
  function AadBytes(aad: Option<Text>): Bytes {
    match aad
    case None => []
    case Some(text) => Utf8.Encode(text)
  }

  function EncryptAtRest(c: Cipher, ks: KeySet, plaintext: Text, aad: Option<Text>, nonce: Bytes): Result<Text, Error> {
    if ks.activeVersion !in ks.keys then Err(ActiveKeyNotLoaded)
    else if |ks.keys[ks.activeVersion]| != KEY_BYTES then Err(BadKeyLength)
    else
      var s := c.seal(ks.keys[ks.activeVersion], nonce, Utf8.Encode(plaintext), AadBytes(aad));
      Ok(Join([ks.activeVersion, EncodeHex(nonce), EncodeHex(s.ciphertext), EncodeHex(s.tag)], COLON))
  }

  function Split(t: Text, separator: CodeUnit): (parts: seq<Text>)
    ensures parts != []
  {
    if t == [] then [[]]
    else
      var rest := Split(t[1..], separator);
      if t[0] == separator then [[]] + rest
      else [[t[0]] + rest[0]] + rest[1..]
  }

  /** Every failure of the cipher, wrong lengths included, is reported as a tag mismatch. */
  function DecryptAtRest(c: Cipher, ks: KeySet, wire: Text, aad: Option<Text>): Result<Text, Error> {
    var parts := Split(wire, COLON);
    if |parts| != WIRE_PART_COUNT then Err(MalformedWireFormat)
    else if parts[0] !in ks.keys then Err(UnknownVersion)
    else
      match Opened(c, ks.keys[parts[0]], DecodeHex(parts[1]), DecodeHex(parts[2]), DecodeHex(parts[3]), AadBytes(aad))
      case Some(plain) => Ok(Utf8.Decode(plain))
      case None => Err(TagMismatch)
  }

  function Opened(c: Cipher, key: Bytes, nonce: Bytes, ciphertext: Bytes, tag: Bytes, aad: Bytes): Option<Bytes> {
    if |key| != KEY_BYTES || |nonce| != NONCE_BYTES || |tag| != TAG_BYTES then None
    else c.open(key, nonce, Sealed(ciphertext, tag), aad)
  }

  function RotateField(c: Cipher, ks: KeySet, wire: Text, aad: Option<Text>, nonce: Bytes): Result<Text, Error> {
    match DecryptAtRest(c, ks, wire, aad)
    case Ok(plaintext) => EncryptAtRest(c, ks, plaintext, aad, nonce)
    case Err(error) => Err(error)
  }

  // ---------- joining and splitting ----------

  /** A first part without the separator comes back whole. */
  lemma {:induction false} SplitFirst(part: Text, rest: Text, separator: CodeUnit)
    requires separator !in part
    ensures Split(part + [separator] + rest, separator) == [part] + Split(rest, separator)
  {
    var t := part + [separator] + rest;
    if part == [] {
      assert t[1..] == rest;
    } else {
      assert t[1..] == part[1..] + [separator] + rest && part == [part[0]] + part[1..];
      SplitFirst(part[1..], rest, separator);
    }
  }

  lemma {:induction false} SplitLast(part: Text, separator: CodeUnit)
    requires separator !in part
    ensures Split(part, separator) == [part]
  {
    if part == [] {
    } else {
      SplitLast(part[1..], separator);
      assert part == [part[0]] + part[1..];
    }
  }

  lemma {:induction false} SplitUndoesJoin(parts: seq<Text>, separator: CodeUnit)
    requires parts != [] && forall i :: 0 <= i < |parts| ==> separator !in parts[i]
    ensures Split(Join(parts, separator), separator) == parts
  {
    if |parts| == 1 {
      SplitLast(parts[0], separator);
    } else {
      SplitUndoesJoin(parts[1..], separator);
      SplitFirst(parts[0], Join(parts[1..], separator), separator);
    }
  }

  /** A separator inside the text in front makes one part more. */
  lemma {:induction false} SplitCount(front: Text, rest: Text, separator: CodeUnit)
    ensures |Split(front + rest, separator)| >= |Split(rest, separator)|
    ensures separator in front ==> |Split(front + rest, separator)| > |Split(rest, separator)|
  {
    if front == [] {
      assert front + rest == rest;
    } else {
      assert (front + rest)[1..] == front[1..] + rest;
      SplitCount(front[1..], rest, separator);
    }
  }

  lemma JoinMore(part: Text, parts: seq<Text>, separator: CodeUnit)
    requires parts != []
    ensures Join([part] + parts, separator) == part + ([separator] + Join(parts, separator))
  {
    assert ([part] + parts)[1..] == parts;
  }

  /** Joined after a first part that holds separators, parts are too many when split again. */
  lemma TooManyParts(part: Text, parts: seq<Text>, separator: CodeUnit)
    requires parts != [] && forall i :: 0 <= i < |parts| ==> separator !in parts[i]
    requires separator in part
    ensures |Split(Join([part] + parts, separator), separator)| > 1 + |parts|
  {
    var rest := [separator] + Join(parts, separator);
    JoinMore(part, parts, separator);
    SplitUndoesJoin(parts, separator);
    assert rest[1..] == Join(parts, separator);
    assert |Split(rest, separator)| == 1 + |parts|;
    SplitCount(part, rest, separator);
  }

  function Wire(version: Text, hexes: seq<Text>): Text {
    Join([version] + hexes, COLON)
  }

  /** The fields of an encryption, split again: exactly those fields, unless the version tag holds a colon. */
  lemma WireParts(version: Text, hexes: seq<Text>)
    requires hexes != [] && forall i :: 0 <= i < |hexes| ==> COLON !in hexes[i]
    ensures var parts := Split(Wire(version, hexes), COLON);
            if COLON in version then |parts| > 1 + |hexes| else parts == [version] + hexes
  {
    if COLON in version {
      TooManyParts(version, hexes, COLON);
    } else {
      SplitUndoesJoin([version] + hexes, COLON);
    }
  }

  function Hexes(nonce: Bytes, s: Sealed): seq<Text>
  {
    [EncodeHex(nonce), EncodeHex(s.ciphertext), EncodeHex(s.tag)]
  }

  lemma HexesHaveNoColon(nonce: Bytes, s: Sealed)
    ensures forall i :: 0 <= i < 3 ==> COLON !in Hexes(nonce, s)[i]
  {
    EncodeHasNoColon(nonce);
    EncodeHasNoColon(s.ciphertext);
    EncodeHasNoColon(s.tag);
  }

  // ---------- round trips ----------

  lemma EncryptedParts(c: Cipher, ks: KeySet, plaintext: Text, aad: Option<Text>, nonce: Bytes)
    requires EncryptAtRest(c, ks, plaintext, aad, nonce).Ok?
    ensures var parts := Split(EncryptAtRest(c, ks, plaintext, aad, nonce).value, COLON);
            var s := c.seal(ks.keys[ks.activeVersion], nonce, Utf8.Encode(plaintext), AadBytes(aad));
            if COLON in ks.activeVersion then |parts| > WIRE_PART_COUNT
            else parts == [ks.activeVersion] + Hexes(nonce, s)
  {
    var s := c.seal(ks.keys[ks.activeVersion], nonce, Utf8.Encode(plaintext), AadBytes(aad));
    HexesHaveNoColon(nonce, s);
    WireParts(ks.activeVersion, Hexes(nonce, s));
    assert [ks.activeVersion, EncodeHex(nonce), EncodeHex(s.ciphertext), EncodeHex(s.tag)]
        == [ks.activeVersion] + Hexes(nonce, s);
  }

  /** What decryption makes of a fresh encryption. */
  lemma DecryptOfEncrypt(c: Cipher, ks: KeySet, later: map<Text, Bytes>, plaintext: Text, aad: Option<Text>, nonce: Bytes)
    requires OpensWhatItSeals(c) && |nonce| == NONCE_BYTES
    requires EncryptAtRest(c, ks, plaintext, aad, nonce).Ok?
    requires ks.activeVersion in later && later[ks.activeVersion] == ks.keys[ks.activeVersion]
    ensures forall active :: DecryptAtRest(c, KeySet(later, active), EncryptAtRest(c, ks, plaintext, aad, nonce).value, aad)
                             == if COLON in ks.activeVersion then Err(MalformedWireFormat) else Ok(Utf8.Scrubbed(plaintext))
  {
    var key, plain := ks.keys[ks.activeVersion], Utf8.Encode(plaintext);
    var s := c.seal(key, nonce, plain, AadBytes(aad));
    EncryptedParts(c, ks, plaintext, aad, nonce);
    DecodeUndoesEncode(nonce);
    DecodeUndoesEncode(s.ciphertext);
    DecodeUndoesEncode(s.tag);
    assert Sealed(s.ciphertext, s.tag) == s;
    assert Opened(c, key, nonce, s.ciphertext, s.tag, AadBytes(aad)) == Some(plain);
    Utf8.DecodeUndoesEncode(plaintext);
  }

  /** Decryption gives the plaintext back exactly when it has no lone surrogate and the active version has no colon,
      whatever other keys have come and gone and whichever is active now. */
  lemma DecryptUndoesEncrypt(c: Cipher, ks: KeySet, now: KeySet, plaintext: Text, aad: Option<Text>, nonce: Bytes)
    requires OpensWhatItSeals(c) && |nonce| == NONCE_BYTES
    requires ks.activeVersion in ks.keys && |ks.keys[ks.activeVersion]| == KEY_BYTES
    requires ks.activeVersion in now.keys && now.keys[ks.activeVersion] == ks.keys[ks.activeVersion]
    ensures var wire := EncryptAtRest(c, ks, plaintext, aad, nonce);
            && wire.Ok?
            && (DecryptAtRest(c, now, wire.value, aad) == Ok(plaintext)
                <==> Utf8.IsWellFormed(plaintext) && COLON !in ks.activeVersion)
  {
    DecryptOfEncrypt(c, ks, now.keys, plaintext, aad, nonce);
    Utf8.ScrubbedIsSame(plaintext);
    assert now == KeySet(now.keys, now.activeVersion);
  }

  /** Rotating any field that can be read, wherever it came from, keeps what it says and leaves it readable with the
      active key alone. */
  lemma RotationKeepsPlaintext(c: Cipher, ks: KeySet, wire: Text, aad: Option<Text>, nonce: Bytes)
    requires OpensWhatItSeals(c) && |nonce| == NONCE_BYTES
    requires ks.activeVersion in ks.keys && |ks.keys[ks.activeVersion]| == KEY_BYTES && COLON !in ks.activeVersion
    ensures var rotated := RotateField(c, ks, wire, aad, nonce);
            && (rotated.Ok? <==> DecryptAtRest(c, ks, wire, aad).Ok?)
            && (rotated.Ok? ==>
                  var onlyActive := KeySet(map[ks.activeVersion := ks.keys[ks.activeVersion]], ks.activeVersion);
                  && Split(rotated.value, COLON)[0] == ks.activeVersion
                  && DecryptAtRest(c, onlyActive, rotated.value, aad) == DecryptAtRest(c, ks, wire, aad))
  {
    var read := DecryptAtRest(c, ks, wire, aad);
    if read.Ok? {
      ReadIsWellFormed(c, ks, wire, aad);
      Utf8.ScrubbedIsSame(read.value);
      var active := map[ks.activeVersion := ks.keys[ks.activeVersion]];
      DecryptOfEncrypt(c, ks, active, read.value, aad, nonce);
      EncryptedParts(c, ks, read.value, aad, nonce);
    }
  }

  lemma ReadIsWellFormed(c: Cipher, ks: KeySet, wire: Text, aad: Option<Text>)
    ensures var read := DecryptAtRest(c, ks, wire, aad); read.Ok? ==> Utf8.IsWellFormed(read.value)
  {
  }

  // ---------- verdicts ----------

  function Count(t: Text, c: CodeUnit): nat {
    if t == [] then 0 else (if t[0] == c then 1 else 0) + Count(t[1..], c)
  }

  lemma {:induction false} SplitLength(t: Text, separator: CodeUnit)
    ensures |Split(t, separator)| == Count(t, separator) + 1
  {
    if t == [] {
    } else {
      SplitLength(t[1..], separator);
    }
  }

  lemma EncryptVerdicts(c: Cipher, ks: KeySet, plaintext: Text, aad: Option<Text>, nonce: Bytes)
    ensures var r := EncryptAtRest(c, ks, plaintext, aad, nonce);
            && (r == Err(ActiveKeyNotLoaded) <==> ks.activeVersion !in ks.keys)
            && (r == Err(BadKeyLength) <==> ks.activeVersion in ks.keys && |ks.keys[ks.activeVersion]| != 32)
            && (r.Ok? <==> ks.activeVersion in ks.keys && |ks.keys[ks.activeVersion]| == 32)
  {
  }

  /** Only three colons make a wire text, whatever stands between them. */
  lemma MalformedExactly(c: Cipher, ks: KeySet, wire: Text, aad: Option<Text>)
    ensures DecryptAtRest(c, ks, wire, aad) == Err(MalformedWireFormat) <==> Count(wire, COLON) != 3
  {
    SplitLength(wire, COLON);
  }

  /** How the fields of a wire text are read: the key by its version, nonce, ciphertext and tag as bytes, and the same
      additional data; any failure past the version is a tag mismatch, wrong lengths included. */
  lemma WireIsRead(c: Cipher, ks: KeySet, version: Text, nonce: Text, ciphertext: Text, tag: Text, aad: Option<Text>)
    requires COLON !in version && COLON !in nonce && COLON !in ciphertext && COLON !in tag
    ensures DecryptAtRest(c, ks, Join([version, nonce, ciphertext, tag], COLON), aad)
         == if version !in ks.keys then Err(UnknownVersion)
            else if |ks.keys[version]| != 32 || |DecodeHex(nonce)| != 12 || |DecodeHex(tag)| != 16 then Err(TagMismatch)
            else
              match c.open(ks.keys[version], DecodeHex(nonce), Sealed(DecodeHex(ciphertext), DecodeHex(tag)), AadBytes(aad))
              case Some(plain) => Ok(Utf8.Decode(plain))
              case None => Err(TagMismatch)
  {
    SplitUndoesJoin([version, nonce, ciphertext, tag], COLON);
  }

  // ---------- additional data ----------

  function TextOf(aad: Option<Text>): Text {
    if aad.None? then [] else aad.value
  }

  /** Additional data reach the cipher as they are: two differ there exactly if they differ as scrubbed texts, where
      none and the empty string count as one. */
  lemma AadBytesExactly(a: Option<Text>, b: Option<Text>)
    ensures AadBytes(a) == AadBytes(b) <==> Utf8.Scrubbed(TextOf(a)) == Utf8.Scrubbed(TextOf(b))
  {
    Utf8.SameEncoding(TextOf(a), TextOf(b));
    assert AadBytes(a) == Utf8.Encode(TextOf(a)) && AadBytes(b) == Utf8.Encode(TextOf(b));
  }

  /** A cipher that does what additional data are for. */
  ghost predicate BindsAad(c: Cipher) {
    forall key: Bytes, nonce: Bytes, plain: Bytes, aad: Bytes, other: Bytes
      | |key| == KEY_BYTES && |nonce| == NONCE_BYTES && aad != other ::
      c.open(key, nonce, c.seal(key, nonce, plain, aad), other) == None
  }

  /** With such a cipher a field can be read with exactly the additional data that it was written with. */
  lemma AadIsBound(c: Cipher, ks: KeySet, plaintext: Text, aad: Option<Text>, other: Option<Text>, nonce: Bytes)
    requires OpensWhatItSeals(c) && BindsAad(c) && |nonce| == NONCE_BYTES && COLON !in ks.activeVersion
    requires EncryptAtRest(c, ks, plaintext, aad, nonce).Ok?
    ensures var read := DecryptAtRest(c, ks, EncryptAtRest(c, ks, plaintext, aad, nonce).value, other);
            && (read.Ok? <==> Utf8.Scrubbed(TextOf(aad)) == Utf8.Scrubbed(TextOf(other)))
            && (read.Err? ==> read == Err(TagMismatch))
  {
    var s := c.seal(ks.keys[ks.activeVersion], nonce, Utf8.Encode(plaintext), AadBytes(aad));
    HexesHaveNoColon(nonce, s);
    assert Hexes(nonce, s)[0] == EncodeHex(nonce) && Hexes(nonce, s)[1] == EncodeHex(s.ciphertext)
        && Hexes(nonce, s)[2] == EncodeHex(s.tag);
    WireIsRead(c, ks, ks.activeVersion, EncodeHex(nonce), EncodeHex(s.ciphertext), EncodeHex(s.tag), other);
    DecodeUndoesEncode(nonce);
    DecodeUndoesEncode(s.ciphertext);
    DecodeUndoesEncode(s.tag);
    assert Sealed(s.ciphertext, s.tag) == s;
    AadBytesExactly(aad, other);
  }
}
