/** The texts keys are made of, pinned to the standards: UTF-8 (section 3 of RFC
    3629), base 64 (section 4 of RFC 4648), and the layout of every key. */
module KeyTexts {
  import opened JsStrings
  import opened Options
  import opened Utf8
  import Base64
  import opened Authorization
  import opened Keys
  import Aws

  // ----- UTF-8 -----

  /** A following byte, and the six bits it carries. */
  predicate Follows(b: Byte) { 0x80 <= b <= 0xBF }
  function Bits(b: Byte): int { b % 64 }

  /** One byte up to U+007F, two up to U+07FF, three up to U+FFFF, four beyond:
      the first byte tells how many, and the bits put together are the scalar. */
  predicate IsUtf8Of(b: Bytes, c: Scalar) {
    if c <= 0x7F then b == [c]
    else if c <= 0x7FF then |b| == 2 && 0xC2 <= b[0] <= 0xDF && Follows(b[1]) && c == (b[0] % 32) * 64 + Bits(b[1])
    else if c <= 0xFFFF then
      && |b| == 3 && 0xE0 <= b[0] <= 0xEF && Follows(b[1]) && Follows(b[2])
      && c == (b[0] % 16) * 4096 + Bits(b[1]) * 64 + Bits(b[2])
    else
      && |b| == 4 && 0xF0 <= b[0] <= 0xF4 && Follows(b[1]) && Follows(b[2]) && Follows(b[3])
      && c == (b[0] % 8) * 262144 + Bits(b[1]) * 4096 + Bits(b[2]) * 64 + Bits(b[3])
  }

  lemma ScalarBytes(c: Scalar)
    ensures IsUtf8Of(EncodeScalar(c), c)
  {
    if c > 0xFFFF {
      FourBytes(c, c / 262144, c / 4096 % 64, c / 64 % 64, c % 64);
    } else if c > 0x7FF {
      ThreeBytes(c, c / 4096, c / 64 % 64, c % 64);
    } else if c > 0x7F {
      TwoBytes(c, c / 64, c % 64);
    }
  }

  lemma TwoBytes(c: Scalar, x: int, y: int)
    requires 0x7F < c <= 0x7FF && x == c / 64 && y == c % 64
    ensures 0xC2 <= 0xC0 + x <= 0xDF && (0xC0 + x) % 32 == x && (0x80 + y) % 64 == y && c == x * 64 + y
  {}

  lemma ThreeBytes(c: Scalar, x: int, y: int, z: int)
    requires 0x7FF < c <= 0xFFFF && x == c / 4096 && y == c / 64 % 64 && z == c % 64
    ensures 0 <= x < 16 && (0xE0 + x) % 16 == x && (0x80 + y) % 64 == y && (0x80 + z) % 64 == z && c == x * 4096 + y * 64 + z
  {
    ThreeParts(c);
  }

  lemma FourBytes(c: Scalar, w: int, x: int, y: int, z: int)
    requires 0xFFFF < c && w == c / 262144 && x == c / 4096 % 64 && y == c / 64 % 64 && z == c % 64
    ensures 0 <= w <= 4 && (0xF0 + w) % 8 == w && (0x80 + x) % 64 == x && (0x80 + y) % 64 == y && (0x80 + z) % 64 == z
    ensures c == w * 262144 + x * 4096 + y * 64 + z
  {
    FourParts(c);
  }

  lemma ThreeParts(c: int)
    requires 0 <= c
    ensures c == c / 4096 * 4096 + c / 64 % 64 * 64 + c % 64
  {
    assert c / 64 == c / 4096 * 64 + c / 64 % 64;
  }

  lemma FourParts(c: int)
    requires 0 <= c
    ensures c == c / 262144 * 262144 + c / 4096 % 64 * 4096 + c / 64 % 64 * 64 + c % 64
  {
    ThreeParts(c);
    assert c / 4096 == c / 262144 * 64 + c / 4096 % 64;
  }

  /** The decoder reads a character only where its UTF-8 stands: anything else
      - stray, missing or overlong bytes, surrogates - becomes U+FFFD. */
  lemma DecodedExact(b: Bytes)
    requires b != []
    ensures DecodeFirst(b).scalar == REPLACEMENT || b[..DecodeFirst(b).length] == EncodeScalar(DecodeFirst(b).scalar)
    ensures forall c | EncodeScalar(c) <= b :: DecodeFirst(b) == Utf8.Step(c, |EncodeScalar(c)|)
  {
    var step := DecodeFirst(b);
    if step.scalar != REPLACEMENT {
      if step.length == 2 { TwoBytesBack(step.scalar, b[0], b[1]); }
      if step.length == 3 { ThreeBytesBack(step.scalar, b[0], b[1], b[2]); }
      if step.length == 4 { FourBytesBack(step.scalar, b[0], b[1], b[2], b[3]); }
    }
    forall c | EncodeScalar(c) <= b ensures DecodeFirst(b) == Utf8.Step(c, |EncodeScalar(c)|) {
      assert b == EncodeScalar(c) + b[|EncodeScalar(c)|..];
      DecodeEncoded(c, b[|EncodeScalar(c)|..]);
    }
  }

  lemma TwoBytesBack(c: int, x: int, y: int)
    requires 0xC2 <= x <= 0xDF && 0x80 <= y <= 0xBF && c == (x - 0xC0) * 64 + (y - 0x80)
    ensures 0x80 <= c < 0x800 && 0xC0 + c / 64 == x && 0x80 + c % 64 == y
  {}

  lemma ThreeBytesBack(c: int, x: int, y: int, z: int)
    requires 0xE0 <= x <= 0xEF && 0x80 <= y <= 0xBF && 0x80 <= z <= 0xBF && (x == 0xE0 ==> y >= 0xA0)
    requires c == (x - 0xE0) * 4096 + (y - 0x80) * 64 + (z - 0x80)
    ensures 0x800 <= c < 0x1_0000 && 0xE0 + c / 4096 == x && 0x80 + c / 64 % 64 == y && 0x80 + c % 64 == z
  {
    assert c / 64 == (x - 0xE0) * 64 + (y - 0x80);
  }

  lemma FourBytesBack(c: int, w: int, x: int, y: int, z: int)
    requires 0xF0 <= w <= 0xF4 && 0x80 <= x <= 0xBF && 0x80 <= y <= 0xBF && 0x80 <= z <= 0xBF && (w == 0xF0 ==> x >= 0x90)
    requires c == (w - 0xF0) * 262144 + (x - 0x80) * 4096 + (y - 0x80) * 64 + (z - 0x80)
    ensures 0x1_0000 <= c && 0xF0 + c / 262144 == w && 0x80 + c / 4096 % 64 == x && 0x80 + c / 64 % 64 == y && 0x80 + c % 64 == z
  {
    assert c / 64 == (w - 0xF0) * 4096 + (x - 0x80) * 64 + (y - 0x80);
    assert c / 4096 == (w - 0xF0) * 64 + (x - 0x80);
  }

  // ----- base 64 -----

  const UPPER: string := "ABCDEFGHIJKLMNOPQRSTUVWXYZ"
  const LOWER: string := "abcdefghijklmnopqrstuvwxyz"
  const OTHERS: string := "0123456789+/"

  /** The alphabet: capital letters, small letters, digits, plus and slash. */
  lemma Alphabet(v: Base64.Sextet)
    ensures Base64.ToUnit(v) == (if v < 26 then UPPER[v] else if v < 52 then LOWER[v - 26] else OTHERS[v - 52]) as int
  {
    if v < 26 { UpperLetters(v); } else if v < 52 { LowerLetters(v - 26); } else { OtherSigns(v - 52); }
  }

  lemma UpperLetters(v: int)
    requires 0 <= v < 26
    ensures UPPER[v] as int == 0x41 + v
  {
    assert v == 0 || v == 1 || v == 2 || v == 3 || v == 4 || v == 5 || v == 6 || v == 7 || v == 8 || v == 9 || v == 10 || v == 11
        || v == 12 || v == 13 || v == 14 || v == 15 || v == 16 || v == 17 || v == 18 || v == 19 || v == 20 || v == 21 || v == 22
        || v == 23 || v == 24 || v == 25;
  }

  lemma LowerLetters(v: int)
    requires 0 <= v < 26
    ensures LOWER[v] as int == 0x61 + v
  {
    assert v == 0 || v == 1 || v == 2 || v == 3 || v == 4 || v == 5 || v == 6 || v == 7 || v == 8 || v == 9 || v == 10 || v == 11
        || v == 12 || v == 13 || v == 14 || v == 15 || v == 16 || v == 17 || v == 18 || v == 19 || v == 20 || v == 21 || v == 22
        || v == 23 || v == 24 || v == 25;
  }

  lemma OtherSigns(v: int)
    requires 0 <= v < 12
    ensures OTHERS[v] as int == if v < 10 then 0x30 + v else if v == 10 then 0x2B else 0x2F
  {
    assert v == 0 || v == 1 || v == 2 || v == 3 || v == 4 || v == 5 || v == 6 || v == 7 || v == 8 || v == 9 || v == 10 || v == 11;
  }

  /** Three bytes and their four characters are one number of 24 bits. */
  lemma BlockValue(x: Byte, y: Byte, z: Byte)
    ensures exists a: Base64.Sextet, b: Base64.Sextet, c: Base64.Sextet, d: Base64.Sextet ::
              && Base64.Block(x, y, z) == [Base64.ToUnit(a), Base64.ToUnit(b), Base64.ToUnit(c), Base64.ToUnit(d)]
              && x * 65536 + y * 256 + z == a * 262144 + b * 4096 + c * 64 + d
  {
    var a, b, c, d := x / 4, x % 4 * 16 + y / 16, y % 16 * 4 + z / 64, z % 64;
    BlockSum(x, y, z);
    assert Base64.Block(x, y, z) == [Base64.ToUnit(a), Base64.ToUnit(b), Base64.ToUnit(c), Base64.ToUnit(d)];
  }

  lemma BlockSum(x: Byte, y: Byte, z: Byte)
    ensures x * 65536 + y * 256 + z == (x / 4) * 262144 + (x % 4 * 16 + y / 16) * 4096 + (y % 16 * 4 + z / 64) * 64 + z % 64
  {
    assert x == x / 4 * 4 + x % 4 && y == y / 16 * 16 + y % 16 && z == z / 64 * 64 + z % 64;
  }

  // ----- the layout of keys -----

  lemma Words()
    ensures PolicyText(Subjectfull) == Text("subjectfull") && PolicyText(Subjectless) == Text("subjectless")
    ensures SESSION_PREFIX == Text("vSK1.") && OPEN_AI_PREFIX == Text("vAI1.")
    ensures RECORD_V1_PREFIX == Text("vRK1.") && RECORD_V2_PREFIX == Text("vRK2.")
  {}

  predicate OneField(s: JsString) { PERIOD !in s }

  lemma FieldsSplit(a: JsString, b: JsString, c: JsString)
    requires OneField(a) && OneField(b) && OneField(c)
    ensures Aws.Split(a + [PERIOD] + (b + [PERIOD] + c), PERIOD) == [a] + ([b] + [c])
  {
    Aws.SplitFirst(a, PERIOD, b + [PERIOD] + c);
    Aws.SplitFirst(b, PERIOD, c);
    Aws.SplitNone(c, PERIOD);
  }

  lemma TextIsField(s: JsString)
    ensures OneField(Base64.ToBase64String(s))
  {
    Base64.StringRoundTripExact(s);
  }

  lemma TwoMore(a: JsString, b: JsString, rest: JsString, fields: seq<JsString>)
    requires OneField(a) && OneField(b) && Aws.Split(rest, PERIOD) == fields
    ensures Aws.Split(a + [PERIOD] + (b + [PERIOD] + rest), PERIOD) == [a] + ([b] + fields)
  {
    Aws.SplitFirst(a, PERIOD, b + [PERIOD] + rest);
    Aws.SplitFirst(b, PERIOD, rest);
  }

  lemma Headed(prefix: JsString, head: JsString, rest: JsString)
    requires prefix == head + [PERIOD]
    ensures prefix + rest == head + [PERIOD] + rest
  {}

  /** Between the periods of a session key stand: its version, then in base 64
      the user, the session, the secret and the expiry in decimal. */
  lemma SessionKeyLayout(userId: JsString, sessionId: JsString, secret: JsString, expireTimeMs: nat)
    ensures Aws.Split(FormatV1SessionKey(userId, sessionId, secret, expireTimeMs), PERIOD)
         == [Text("vSK1")] + ([Base64.ToBase64String(userId)] + ([Base64.ToBase64String(sessionId)]
            + ([Base64.ToBase64String(secret)] + [Base64.ToBase64String(Digits(expireTimeMs))])))
  {
    TextIsField(userId);
    TextIsField(sessionId);
    TextIsField(secret);
    TextIsField(Digits(expireTimeMs));
    SessionVersion();
    Headed(SESSION_PREFIX, Text("vSK1"), SessionFields(userId, sessionId, secret, Digits(expireTimeMs)));
    var s, p, e := Base64.ToBase64String(sessionId), Base64.ToBase64String(secret), Base64.ToBase64String(Digits(expireTimeMs));
    FieldsSplit(s, p, e);
    TwoMore(Text("vSK1"), Base64.ToBase64String(userId), s + [PERIOD] + (p + [PERIOD] + e), [s] + ([p] + [e]));
  }

  lemma SessionVersion()
    ensures SESSION_PREFIX == Text("vSK1") + [PERIOD] && OneField(Text("vSK1"))
  {}

  lemma RecordVersions()
    ensures RECORD_V1_PREFIX == Text("vRK1") + [PERIOD] && OneField(Text("vRK1"))
    ensures RECORD_V2_PREFIX == Text("vRK2") + [PERIOD] && OneField(Text("vRK2"))
  {}

  /** And of a record key: its version, then in base 64 the record's name and the secret. */
  lemma RecordKeyV1Layout(name: JsString, secret: JsString)
    ensures Aws.Split(FormatV1RecordKey(name, secret), PERIOD)
         == [Text("vRK1")] + ([Base64.ToBase64String(name)] + [Base64.ToBase64String(secret)])
  {
    TextIsField(name);
    TextIsField(secret);
    RecordVersions();
    Headed(RECORD_V1_PREFIX, Text("vRK1"), Base64.ToBase64String(name) + [PERIOD] + Base64.ToBase64String(secret));
    FieldsSplit(Text("vRK1"), Base64.ToBase64String(name), Base64.ToBase64String(secret));
  }

  /** The newer version ends in the policy, as it is. */
  lemma RecordKeyV2Layout(name: JsString, secret: JsString, policy: JsString)
    requires OneField(policy)
    ensures Aws.Split(FormatV2RecordKey(name, secret, Some(policy)), PERIOD)
         == [Text("vRK2")] + ([Base64.ToBase64String(name)] + ([Base64.ToBase64String(secret)] + [policy]))
  {
    var n, p := Base64.ToBase64String(name), Base64.ToBase64String(secret);
    TextIsField(name);
    TextIsField(secret);
    RecordVersions();
    Headed(RECORD_V2_PREFIX, Text("vRK2"), n + [PERIOD] + (p + [PERIOD] + policy));
    Aws.SplitFirst(Text("vRK2"), PERIOD, n + [PERIOD] + (p + [PERIOD] + policy));
    FieldsSplit(n, p, policy);
  }
}
