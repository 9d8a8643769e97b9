/** Base 64 (section 4 of RFC 4648) on bytes, with the text as code units, and
    the string helpers of Utils.ts built on it. */
module Base64 {
  import opened JsStrings
  import opened Options
  import opened Utf8

  const PAD: CodeUnit := 0x3D

  type Sextet = x: int | 0 <= x < 64

  function ToUnit(v: Sextet): CodeUnit {
    if v < 26 then 0x41 + v
    else if v < 52 then 0x61 + (v - 26)
    else if v < 62 then 0x30 + (v - 52)
    else if v == 62 then 0x2B
    else 0x2F
  }

  function FromUnit(u: CodeUnit): Option<Sextet> {
    if 0x41 <= u <= 0x5A then Some(u - 0x41)
    else if 0x61 <= u <= 0x7A then Some(u - 0x61 + 26)
    else if 0x30 <= u <= 0x39 then Some(u - 0x30 + 52)
    else if u == 0x2B then Some(62)
    else if u == 0x2F then Some(63)
    else None
  }

  /** `fromByteArray` */
  function Encode(b: Bytes): JsString {
    if b == [] then []
    else if |b| == 1 then [ToUnit(b[0] / 4), ToUnit(b[0] % 4 * 16), PAD, PAD]
    else if |b| == 2 then [ToUnit(b[0] / 4), ToUnit(b[0] % 4 * 16 + b[1] / 16), ToUnit(b[1] % 16 * 4), PAD]
    else Block(b[0], b[1], b[2]) + Encode(b[3..])
  }

  function Block(x: Byte, y: Byte, z: Byte): JsString {
    [ToUnit(x / 4), ToUnit(x % 4 * 16 + y / 16), ToUnit(y % 16 * 4 + z / 64), ToUnit(z % 64)]
  }

  /** `toByteArray`; None where decoding fails. Padding may only end the text. */
  function Decode(t: JsString): Option<Bytes> {
    if t == [] then Some([])
    else if |t| < 4 then None
    else
      var v0, v1, v2, v3 := FromUnit(t[0]), FromUnit(t[1]), FromUnit(t[2]), FromUnit(t[3]);
      if v0.None? || v1.None? then None
      else
        var x := v0.value * 4 + v1.value / 16;
        if |t| == 4 && t[2] == PAD && t[3] == PAD then Some([x])
        else if v2.None? then None
        else
          var bytes := Join(v0.value, v1.value, v2.value, if v3.Some? then v3.value else 0);
          if |t| == 4 && t[3] == PAD then Some(bytes[..2])
          else if v3.None? then None
          else
            var rest := Decode(t[4..]);
            if rest.None? then None else Some(bytes + rest.value)
  }

  /** Four sextets as three bytes. */
  function Join(v0: Sextet, v1: Sextet, v2: Sextet, v3: Sextet): (r: Bytes)
    ensures |r| == 3
  {
    [v0 * 4 + v1 / 16, v1 % 16 * 16 + v2 / 4, v2 % 4 * 64 + v3]
  }

  lemma JoinSplit(x: Byte, y: Byte, z: Byte)
    ensures Join(x / 4, x % 4 * 16 + y / 16, y % 16 * 4 + z / 64, z % 64) == [x, y, z]
  {}

  lemma UnitRoundTrip(v: Sextet)
    ensures FromUnit(ToUnit(v)) == Some(v) && ToUnit(v) != PAD && ToUnit(v) != PERIOD && ToUnit(v) < 0x80
  {}

  lemma {:induction false} DecodeEncode(b: Bytes)
    ensures Decode(Encode(b)) == Some(b)
  {
    if |b| == 1 {
      DecodeOne(b[0]);
      assert b == [b[0]];
    } else if |b| == 2 {
      DecodeTwo(b[0], b[1]);
      assert b == [b[0], b[1]];
    } else if |b| >= 3 {
      DecodeEncode(b[3..]);
      DecodeBlock(b[0], b[1], b[2], Encode(b[3..]), b[3..]);
      assert b == [b[0], b[1], b[2]] + b[3..];
    }
  }

  lemma DecodeOne(x: Byte)
    ensures Decode(Encode([x])) == Some([x])
  {
    UnitRoundTrip(x / 4);
    UnitRoundTrip(x % 4 * 16);
  }

  lemma DecodeTwo(x: Byte, y: Byte)
    ensures Decode(Encode([x, y])) == Some([x, y])
  {
    UnitRoundTrip(x / 4);
    UnitRoundTrip(x % 4 * 16 + y / 16);
    UnitRoundTrip(y % 16 * 4);
    JoinSplit(x, y, 0);
    assert [x, y] == [x, y, 0][..2];
  }

  lemma DecodeBlock(x: Byte, y: Byte, z: Byte, rest: JsString, bytes: Bytes)
    requires Decode(rest) == Some(bytes)
    ensures Decode(Block(x, y, z) + rest) == Some([x, y, z] + bytes)
  {
    JoinSplit(x, y, z);
    DecodeFour(x / 4, x % 4 * 16 + y / 16, y % 16 * 4 + z / 64, z % 64, rest, bytes);
  }

  lemma DecodeFour(v0: Sextet, v1: Sextet, v2: Sextet, v3: Sextet, rest: JsString, bytes: Bytes)
    requires Decode(rest) == Some(bytes)
    ensures Decode([ToUnit(v0), ToUnit(v1), ToUnit(v2), ToUnit(v3)] + rest) == Some(Join(v0, v1, v2, v3) + bytes)
  {
    UnitRoundTrip(v0);
    UnitRoundTrip(v1);
    UnitRoundTrip(v2);
    UnitRoundTrip(v3);
    var t := [ToUnit(v0), ToUnit(v1), ToUnit(v2), ToUnit(v3)] + rest;
    assert t[4..] == rest;
  }

  predicate InAlphabet(u: CodeUnit) { FromUnit(u).Some? || u == PAD }

  /** The text uses only the alphabet and padding, so it is ASCII without a period. */
  lemma {:induction false} EncodeAlphabet(b: Bytes)
    ensures forall u | u in Encode(b) :: InAlphabet(u)
    ensures PERIOD !in Encode(b) && IsAscii(Encode(b))
    ensures Encode(b) == [] <==> b == []
  {
    if |b| >= 3 {
      EncodeAlphabet(b[3..]);
      assert forall u | u in Block(b[0], b[1], b[2]) :: InAlphabet(u);
    }
  }

  /** `toBase64String` */
  function ToBase64String(s: JsString): JsString { Encode(Utf8.Encode(s)) }

  /** `fromBase64String`; None where the source throws. */
  function FromBase64String(t: JsString): Option<JsString> {
    var bytes := Decode(t);
    if bytes.None? then None else Some(Utf8.Decode(bytes.value))
  }

  /** Text survives exactly when it is well formed and starts with no byte order mark. */
  lemma StringRoundTripExact(s: JsString)
    ensures FromBase64String(ToBase64String(s)) == Some(s) <==> WellFormed(s) && !StartsWithBom(s)
    ensures FromBase64String(ToBase64String(s)).Some?
    ensures PERIOD !in ToBase64String(s) && (ToBase64String(s) == [] <==> s == [])
  {
    DecodeEncode(Utf8.Encode(s));
    RoundTripExact(s);
    EncodeAlphabet(Utf8.Encode(s));
    EncodeEmpty(s);
  }
}
