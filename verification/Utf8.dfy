/** TextEncoder and TextDecoder: UTF-16 code units to UTF-8 bytes and back
    (WHATWG Encoding Standard), on every string and every byte sequence. */
module Utf8 {
  import opened JsStrings

  type Byte = x: int | 0 <= x < 256
  type Bytes = seq<Byte>

  const REPLACEMENT: int := 0xFFFD
  const BOM: CodeUnit := 0xFEFF

  predicate IsHigh(u: CodeUnit) { 0xD800 <= u < 0xDC00 }
  predicate IsLow(u: CodeUnit) { 0xDC00 <= u < 0xE000 }

  type Scalar = x: int | 0 <= x < 0xD800 || 0xE000 <= x < 0x11_0000

  /** No surrogate stands alone. */
  predicate WellFormed(s: JsString) {
    if s == [] then true
    else if IsHigh(s[0]) then |s| > 1 && IsLow(s[1]) && WellFormed(s[2..])
    else !IsLow(s[0]) && WellFormed(s[1..])
  }

  /** The code points of a string; a lone surrogate becomes the replacement character. */
  function Scalars(s: JsString): seq<Scalar> {
    if s == [] then []
    else if IsHigh(s[0]) && |s| > 1 && IsLow(s[1]) then
      [0x1_0000 + (s[0] - 0xD800) * 0x400 + (s[1] - 0xDC00)] + Scalars(s[2..])
    else if IsHigh(s[0]) || IsLow(s[0]) then [REPLACEMENT] + Scalars(s[1..])
    else [s[0]] + Scalars(s[1..])
  }

  function UnitsOf(c: Scalar): JsString {
    if c < 0x1_0000 then [c] else [0xD800 + (c - 0x1_0000) / 0x400, 0xDC00 + (c - 0x1_0000) % 0x400]
  }

  function FromScalars(cs: seq<Scalar>): JsString {
    if cs == [] then [] else UnitsOf(cs[0]) + FromScalars(cs[1..])
  }

  lemma {:induction false} FromScalarsWellFormed(cs: seq<Scalar>)
    ensures WellFormed(FromScalars(cs))
  {
    if cs != [] {
      FromScalarsWellFormed(cs[1..]);
      var rest := FromScalars(cs[1..]);
      var u := UnitsOf(cs[0]);
      assert (u + rest)[|u|..] == rest;
    }
  }

  lemma {:induction false} ScalarsRoundTrip(s: JsString)
    requires WellFormed(s)
    ensures FromScalars(Scalars(s)) == s
  {
    if s != [] {
      var cs := Scalars(s);
      if IsHigh(s[0]) {
        ScalarsRoundTrip(s[2..]);
        assert cs[1..] == Scalars(s[2..]);
        assert s == [s[0], s[1]] + s[2..];
      } else {
        ScalarsRoundTrip(s[1..]);
        assert cs[1..] == Scalars(s[1..]);
        assert s == [s[0]] + s[1..];
      }
    }
  }

  /** The string with U+FFFD for every lone surrogate. */
  function Mended(s: JsString): JsString {
    if s == [] then []
    else if IsHigh(s[0]) && |s| > 1 && IsLow(s[1]) then [s[0], s[1]] + Mended(s[2..])
    else if IsHigh(s[0]) || IsLow(s[0]) then [REPLACEMENT] + Mended(s[1..])
    else [s[0]] + Mended(s[1..])
  }

  /** Mending is going through code points, and mends nothing twice. */
  lemma {:induction false} MendedScalars(s: JsString)
    ensures FromScalars(Scalars(s)) == Mended(s)
    ensures Scalars(Mended(s)) == Scalars(s)
  {
    if s != [] {
      var cs, m := Scalars(s), Mended(s);
      if IsHigh(s[0]) && |s| > 1 && IsLow(s[1]) {
        MendedScalars(s[2..]);
        assert cs[1..] == Scalars(s[2..]);
        assert m[2..] == Mended(s[2..]);
      } else {
        MendedScalars(s[1..]);
        assert cs[1..] == Scalars(s[1..]);
        assert m[1..] == Mended(s[1..]);
      }
    }
  }

  function EncodeScalar(c: Scalar): (r: Bytes)
    ensures 1 <= |r| <= 4
  {
    if c < 0x80 then [c]
    else if c < 0x800 then [0xC0 + c / 64, 0x80 + c % 64]
    else if c < 0x1_0000 then [0xE0 + c / 4096, 0x80 + c / 64 % 64, 0x80 + c % 64]
    else [0xF0 + c / 262144, 0x80 + c / 4096 % 64, 0x80 + c / 64 % 64, 0x80 + c % 64]
  }

  function EncodeScalars(cs: seq<Scalar>): Bytes {
    if cs == [] then [] else EncodeScalar(cs[0]) + EncodeScalars(cs[1..])
  }

  /** `new TextEncoder().encode(s)` */
  function Encode(s: JsString): Bytes { EncodeScalars(Scalars(s)) }

  predicate Continues(b: Bytes, i: nat, lower: int, upper: int) {
    i < |b| && lower <= b[i] <= upper
  }

  function Low6(x: int): int { x - 0x80 }

  datatype Step = Step(scalar: Scalar, length: nat)

  /** One step of the UTF-8 decoder: a character, or a replacement for the
      longest malformed start. */
  function DecodeFirst(b: Bytes): (r: Step)
    requires b != []
    ensures 1 <= r.length <= |b|
  {
    var b0: int := b[0];
    if b0 < 0x80 then Step(b0, 1)
    else if 0xC2 <= b0 <= 0xDF then
      if Continues(b, 1, 0x80, 0xBF) then Step((b0 - 0xC0) * 64 + Low6(b[1]), 2) else Step(REPLACEMENT, 1)
    else if 0xE0 <= b0 <= 0xEF then
      if !Continues(b, 1, if b0 == 0xE0 then 0xA0 else 0x80, if b0 == 0xED then 0x9F else 0xBF) then Step(REPLACEMENT, 1)
      else if !Continues(b, 2, 0x80, 0xBF) then Step(REPLACEMENT, 2)
      else Step((b0 - 0xE0) * 4096 + Low6(b[1]) * 64 + Low6(b[2]), 3)
    else if 0xF0 <= b0 <= 0xF4 then
      if !Continues(b, 1, if b0 == 0xF0 then 0x90 else 0x80, if b0 == 0xF4 then 0x8F else 0xBF) then Step(REPLACEMENT, 1)
      else if !Continues(b, 2, 0x80, 0xBF) then Step(REPLACEMENT, 2)
      else if !Continues(b, 3, 0x80, 0xBF) then Step(REPLACEMENT, 3)
      else Step((b0 - 0xF0) * 262144 + Low6(b[1]) * 4096 + Low6(b[2]) * 64 + Low6(b[3]), 4)
    else Step(REPLACEMENT, 1)
  }

  function DecodeScalars(b: Bytes): seq<Scalar> {
    if b == [] then []
    else
      var step := DecodeFirst(b);
      [step.scalar] + DecodeScalars(b[step.length..])
  }

  /** `new TextDecoder().decode(b)`: a byte order mark at the start is dropped. */
  function Decode(b: Bytes): JsString {
    FromScalars(DecodeScalars(if |b| >= 3 && b[..3] == [0xEF, 0xBB, 0xBF] then b[3..] else b))
  }

  lemma DecodeEncoded(c: Scalar, rest: Bytes)
    ensures DecodeFirst(EncodeScalar(c) + rest) == Step(c, |EncodeScalar(c)|)
  {
    var b := EncodeScalar(c) + rest;
    if c < 0x80 {
      assert b[0] == c;
    } else if c < 0x800 {
      assert b[0] == 0xC0 + c / 64 && b[1] == 0x80 + c % 64;
    } else if c < 0x1_0000 {
      DecodeThree(c, b);
    } else {
      DecodeFour(c, b);
    }
  }

  lemma DecodeThree(c: Scalar, b: Bytes)
    requires 0x800 <= c < 0x1_0000 && |b| >= 3
    requires b[0] == 0xE0 + c / 4096 && b[1] == 0x80 + c / 64 % 64 && b[2] == 0x80 + c % 64
    ensures DecodeFirst(b) == Step(c, 3)
  {
    assert c / 64 == c / 4096 * 64 + c / 64 % 64;
  }

  lemma DecodeFour(c: Scalar, b: Bytes)
    requires 0x1_0000 <= c && |b| >= 4
    requires b[0] == 0xF0 + c / 262144 && b[1] == 0x80 + c / 4096 % 64 && b[2] == 0x80 + c / 64 % 64 && b[3] == 0x80 + c % 64
    ensures DecodeFirst(b) == Step(c, 4)
  {
    assert c / 64 == c / 4096 * 64 + c / 64 % 64;
    assert c / 4096 == c / 262144 * 64 + c / 4096 % 64;
  }

  lemma {:induction false} DecodeScalarsEncoded(cs: seq<Scalar>)
    ensures DecodeScalars(EncodeScalars(cs)) == cs
  {
    if cs != [] {
      var rest := EncodeScalars(cs[1..]);
      DecodeEncoded(cs[0], rest);
      assert (EncodeScalar(cs[0]) + rest)[|EncodeScalar(cs[0])|..] == rest;
      DecodeScalarsEncoded(cs[1..]);
    }
  }

  /** Only U+FEFF encodes to the bytes of the byte order mark. */
  lemma BomBytes(c: Scalar, rest: Bytes)
    ensures var b := EncodeScalar(c) + rest;
            |b| >= 3 && b[..3] == [0xEF, 0xBB, 0xBF] <==> c == BOM
  {
    var b := EncodeScalar(c) + rest;
    if |b| >= 3 && b[..3] == [0xEF, 0xBB, 0xBF] {
      assert b[..3][0] == b[0] && b[..3][1] == b[1] && b[..3][2] == b[2];
      DecodeEncoded(c, rest);
    }
    if c == BOM { assert b[..3] == EncodeScalar(c); }
  }

  predicate StartsWithBom(s: JsString) { s != [] && s[0] == BOM }

  lemma ScalarsStart(s: JsString)
    requires s != []
    ensures Scalars(s) != [] && (Scalars(s)[0] == BOM <==> s[0] == BOM)
  {}

  lemma DecodeEncode(s: JsString)
    ensures Decode(Encode(s)) == if StartsWithBom(s) then FromScalars(Scalars(s[1..])) else FromScalars(Scalars(s))
  {
    var cs := Scalars(s);
    DecodeScalarsEncoded(cs);
    if s != [] {
      ScalarsStart(s);
      var rest := EncodeScalars(cs[1..]);
      BomBytes(cs[0], rest);
      if s[0] == BOM {
        assert (EncodeScalar(cs[0]) + rest)[3..] == rest;
        DecodeScalarsEncoded(cs[1..]);
        assert cs[1..] == Scalars(s[1..]);
      }
    }
  }

  lemma {:induction false} FromScalarsLength(s: JsString)
    ensures |FromScalars(Scalars(s))| == |s|
  {
    if s != [] {
      var cs := Scalars(s);
      if IsHigh(s[0]) && |s| > 1 && IsLow(s[1]) {
        FromScalarsLength(s[2..]);
        assert cs[1..] == Scalars(s[2..]);
      } else {
        FromScalarsLength(s[1..]);
        assert cs[1..] == Scalars(s[1..]);
      }
    }
  }

  /** Decoding an encoded string gives it back exactly when it is well formed
      and does not start with a byte order mark. */
  lemma RoundTripExact(s: JsString)
    ensures Decode(Encode(s)) == s <==> WellFormed(s) && !StartsWithBom(s)
  {
    DecodeEncode(s);
    if StartsWithBom(s) {
      FromScalarsLength(s[1..]);
    } else {
      FromScalarsWellFormed(Scalars(s));
      if WellFormed(s) { ScalarsRoundTrip(s); }
    }
  }

  lemma EncodeEmpty(s: JsString)
    ensures Encode(s) == [] <==> s == []
  {
    if s != [] { assert Scalars(s) != []; }
  }

  predicate IsAscii(s: JsString) { forall u | u in s :: u < 0x80 }

  lemma {:induction false} AsciiWellFormed(s: JsString)
    requires IsAscii(s)
    ensures WellFormed(s) && !StartsWithBom(s)
  {
    if s != [] {
      assert s[0] in s;
      assert forall u | u in s[1..] :: u in s;
      AsciiWellFormed(s[1..]);
    }
  }
}
