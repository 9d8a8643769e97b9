/** AWS Signature Version 4 canonicalisation (Utils.ts). Unicode case mapping and
    trimming are parameters: nothing below depends on what they do. */
module Aws {
  import opened JsStrings
  import opened Options
  import opened Utf8
  import opened Sorting

  const PERCENT: CodeUnit := 0x25
  const AMPERSAND: CodeUnit := 0x26
  const SLASH: CodeUnit := 0x2F
  const SEMICOLON: CodeUnit := 0x3B
  const EQUALS: CodeUnit := 0x3D

  // ----- percent encoding -----

  /** Unreserved characters, section 2.3 of RFC 3986. */
  predicate Unreserved(ch: int) {
    || 0x41 <= ch <= 0x5A || 0x61 <= ch <= 0x7A || 0x30 <= ch <= 0x39
    || ch == 0x5F || ch == 0x2D || ch == 0x7E || ch == 0x2E
  }

  function HexDigit(v: int): Byte
    requires 0 <= v < 16
  {
    if v < 10 then 0x30 + v else 0x41 + (v - 10)
  }

  /** `encodeHexUtf8` */
  function EncodeHexUtf8(ch: Byte): Bytes {
    [0x25] + (if ch < 16 then [0x30, HexDigit(ch)] else [HexDigit(ch / 16), HexDigit(ch % 16)])
  }

  function EncodeByte(ch: Byte, encodeSlash: bool): Bytes {
    if Unreserved(ch) then [ch]
    else if ch == SLASH then (if encodeSlash then [0x25, 0x32, 0x46] else [ch])
    else EncodeHexUtf8(ch)
  }

  function EncodeBytes(bytes: Bytes, encodeSlash: bool): Bytes {
    if bytes == [] then [] else EncodeByte(bytes[0], encodeSlash) + EncodeBytes(bytes[1..], encodeSlash)
  }

  function UriEncode(input: JsString, encodeSlash: bool): JsString { EncodeBytes(Utf8.Encode(input), encodeSlash) }

  lemma {:induction false} EncodeBytesSnoc(bytes: Bytes, ch: Byte, encodeSlash: bool)
    ensures EncodeBytes(bytes + [ch], encodeSlash) == EncodeBytes(bytes, encodeSlash) + EncodeByte(ch, encodeSlash)
  {
    if bytes == [] {
      assert bytes + [ch] == [ch] && [ch][1..] == [];
    } else {
      assert (bytes + [ch])[1..] == bytes[1..] + [ch];
      EncodeBytesSnoc(bytes[1..], ch, encodeSlash);
      Associative(EncodeByte(bytes[0], encodeSlash), EncodeBytes(bytes[1..], encodeSlash), EncodeByte(ch, encodeSlash));
    }
  }

  /** What an encoded text is made of: unreserved characters, percent signs, and kept slashes. */
  predicate Plain(u: int) { Unreserved(u) || u == PERCENT || u == SLASH }

  lemma {:induction false} EncodedPlain(bytes: Bytes, encodeSlash: bool)
    ensures forall u | u in EncodeBytes(bytes, encodeSlash) :: Plain(u) && (encodeSlash ==> u != SLASH)
  {
    if bytes != [] {
      EncodedPlain(bytes[1..], encodeSlash);
      assert forall u | u in EncodeByte(bytes[0], encodeSlash) :: Plain(u) && (encodeSlash ==> u != SLASH);
    }
  }

  lemma {:induction false} DecodeAscii(b: Bytes)
    requires forall u | u in b :: u < 0x80
    ensures FromScalars(DecodeScalars(b)) == b
  {
    if b != [] {
      assert b[0] in b;
      assert forall u | u in b[1..] :: u in b;
      DecodeAscii(b[1..]);
    }
  }

  lemma EncodeNext(bytes: Bytes, i: nat, encodeSlash: bool)
    requires i < |bytes|
    ensures EncodeBytes(bytes[..i + 1], encodeSlash) == EncodeBytes(bytes[..i], encodeSlash) + EncodeByte(bytes[i], encodeSlash)
  {
    assert bytes[..i + 1] == bytes[..i] + [bytes[i]];
    EncodeBytesSnoc(bytes[..i], bytes[i], encodeSlash);
  }

  /** Encoded text is ASCII, so decoding the buffer changes nothing. */
  lemma AsciiDecodes(b: Bytes)
    requires forall u | u in b :: u < 0x80
    ensures Utf8.Decode(b) == b
  {
    DecodeAscii(b);
    if |b| >= 3 {
      assert b[0] in b;
      assert b[..3][0] == b[0];
    }
  }

  lemma EncodedAscii(bytes: Bytes, encodeSlash: bool)
    ensures forall u | u in EncodeBytes(bytes, encodeSlash) :: u < 0x80
  {
    EncodedPlain(bytes, encodeSlash);
    assert forall u | Plain(u) :: u < 0x80;
  }

  /** `canonicalUriEncode`: the bytes go into a buffer, which is decoded at the end. */
  method CanonicalUriEncode(input: JsString, encodeSlash: bool) returns (r: JsString)
    ensures r == UriEncode(input, encodeSlash)
  {
    var bytes := Utf8.Encode(input);
    var result: Bytes := [];
    for i := 0 to |bytes|
      invariant result == EncodeBytes(bytes[..i], encodeSlash)
    {
      var ch := bytes[i];
      EncodeNext(bytes, i, encodeSlash);
      var next: Bytes;
      if Unreserved(ch) {
        next := [ch];
      } else if ch == SLASH {
        if encodeSlash {
          next := [0x25, 0x32, 0x46];
        } else {
          next := [ch];
        }
      } else {
        next := EncodeHexUtf8(ch);
      }
      assert next == EncodeByte(ch, encodeSlash);
      result := result + next;
    }
    assert bytes[..|bytes|] == bytes;
    EncodedAscii(bytes, encodeSlash);
    AsciiDecodes(result);
    r := Utf8.Decode(result);
  }

  function HexValue(u: int): Option<nat> {
    if 0x30 <= u <= 0x39 then Some(u - 0x30)
    else if 0x41 <= u <= 0x46 then Some(u - 0x41 + 10)
    else if 0x61 <= u <= 0x66 then Some(u - 0x61 + 10)
    else None
  }

  /** Percent decoding, section 2.1 of RFC 3986. */
  function PercentDecode(s: JsString): Option<Bytes> {
    if s == [] then Some([])
    else if s[0] == PERCENT then
      if |s| < 3 || HexValue(s[1]).None? || HexValue(s[2]).None? then None
      else
        var rest := PercentDecode(s[3..]);
        if rest.None? then None else Some([HexValue(s[1]).value * 16 + HexValue(s[2]).value] + rest.value)
    else if s[0] >= 0x80 then None
    else
      var rest := PercentDecode(s[1..]);
      if rest.None? then None else Some([s[0]] + rest.value)
  }

  lemma DecodeByte(ch: Byte, encodeSlash: bool, rest: JsString, bytes: Bytes)
    requires PercentDecode(rest) == Some(bytes)
    ensures PercentDecode(EncodeByte(ch, encodeSlash) + rest) == Some([ch] + bytes)
  {
    var e := EncodeByte(ch, encodeSlash);
    assert (e + rest)[|e|..] == rest;
  }

  lemma {:induction false} DecodeEncodedBytes(bytes: Bytes, encodeSlash: bool)
    ensures PercentDecode(EncodeBytes(bytes, encodeSlash)) == Some(bytes)
  {
    if bytes != [] {
      DecodeEncodedBytes(bytes[1..], encodeSlash);
      DecodeByte(bytes[0], encodeSlash, EncodeBytes(bytes[1..], encodeSlash), bytes[1..]);
      assert bytes == [bytes[0]] + bytes[1..];
    }
  }

  /** Percent decoding gives back the UTF-8 bytes of every string. */
  lemma UriRoundTrip(input: JsString, encodeSlash: bool)
    ensures PercentDecode(UriEncode(input, encodeSlash)) == Some(Utf8.Encode(input))
  {
    DecodeEncodedBytes(Utf8.Encode(input), encodeSlash);
  }

  /** Two strings are encoded alike exactly when they are equal up to lone
      surrogates, each of which counts as U+FFFD. */
  lemma UriEncodeExact(a: JsString, b: JsString, encodeSlash: bool)
    ensures UriEncode(a, encodeSlash) == UriEncode(b, encodeSlash) <==> Mended(a) == Mended(b)
  {
    UriRoundTrip(a, encodeSlash);
    UriRoundTrip(b, encodeSlash);
    DecodeScalarsEncoded(Scalars(a));
    DecodeScalarsEncoded(Scalars(b));
    MendedScalars(a);
    MendedScalars(b);
  }

  /** So different well-formed strings have different encodings. */
  lemma UriEncodeInjective(a: JsString, b: JsString, encodeSlash: bool)
    requires WellFormed(a) && WellFormed(b) && UriEncode(a, encodeSlash) == UriEncode(b, encodeSlash)
    ensures a == b
  {
    UriEncodeExact(a, b, encodeSlash);
    MendedScalars(a);
    MendedScalars(b);
    ScalarsRoundTrip(a);
    ScalarsRoundTrip(b);
  }

  const LONE_SURROGATE: JsString := [0xD800]
  const REPLACEMENT_TEXT: JsString := [0xFFFD]

  /** A lone surrogate and the replacement character are encoded alike. */
  lemma UriEncodeCollides(encodeSlash: bool)
    ensures LONE_SURROGATE != REPLACEMENT_TEXT
    ensures UriEncode(LONE_SURROGATE, encodeSlash) == UriEncode(REPLACEMENT_TEXT, encodeSlash)
  {
    assert LONE_SURROGATE[0] != REPLACEMENT_TEXT[0];
    assert LONE_SURROGATE[1..] == [] && REPLACEMENT_TEXT[1..] == [];
    assert Scalars(LONE_SURROGATE) == Scalars(REPLACEMENT_TEXT);
  }

  // ----- the canonical request -----

  /** A query parameter or a header; a request's are listed in insertion order. */
  datatype Field = Field(name: JsString, value: JsString)

  datatype CanonicalRequest = CanonicalRequest(httpMethod: JsString, path: JsString, headers: seq<Field>,
                                               queryString: seq<Field>, payloadSha256Hex: JsString)

  /** `toLowerCase` and `trim` */
  datatype TextOps = TextOps(lower: JsString -> JsString, trim: JsString -> JsString)

  function EncodedName(): Field -> JsString { (f: Field) => UriEncode(f.name, true) }
  function LowerName(t: TextOps): Field -> JsString { (f: Field) => t.lower(f.name) }

  function QueryField(f: Field): JsString { UriEncode(f.name, true) + [EQUALS] + UriEncode(f.value, true) }

  function Join(xs: seq<JsString>, separator: JsString): JsString {
    if xs == [] then [] else if |xs| == 1 then xs[0] else xs[0] + separator + Join(xs[1..], separator)
  }

  function QueryFields(fields: seq<Field>): seq<JsString> {
    if fields == [] then [] else [QueryField(fields[0])] + QueryFields(fields[1..])
  }

  function QueryLine(query: seq<Field>): JsString {
    Join(QueryFields(SortBy(query, EncodedName())), [AMPERSAND])
  }

  function HeaderLines(t: TextOps, headers: seq<Field>): JsString {
    if headers == [] then []
    else t.lower(headers[0].name) + [COLON] + t.trim(headers[0].value) + [LF] + HeaderLines(t, headers[1..])
  }

  function SortedHeaders(t: TextOps, headers: seq<Field>): seq<Field> { SortBy(headers, LowerName(t)) }

  function SignedHeaders(t: TextOps, headers: seq<Field>): JsString {
    Join(Mapped(SortedHeaders(t, headers), LowerName(t)), [SEMICOLON])
  }

  function Canonical(t: TextOps, r: CanonicalRequest): JsString {
    r.httpMethod + [LF] + UriEncode(r.path, false) + [LF] + QueryLine(r.queryString) + [LF]
    + HeaderLines(t, SortedHeaders(t, r.headers)) + [LF] + SignedHeaders(t, r.headers) + [LF] + t.lower(r.payloadSha256Hex)
  }

  /** The query loop: every field, with an ampersand after all but the last. */
  method AppendQuery(str: JsString, sorted: seq<Field>) returns (r: JsString)
    ensures r == str + Join(QueryFields(sorted), [AMPERSAND])
  {
    r := str;
    var i := 0;
    while i < |sorted|
      invariant 0 <= i <= |sorted|
      invariant str + Join(QueryFields(sorted), [AMPERSAND]) == r + Join(QueryFields(sorted[i..]), [AMPERSAND])
    {
      var name := CanonicalUriEncode(sorted[i].name, true);
      var value := CanonicalUriEncode(sorted[i].value, true);
      QueryTurn(r, sorted, i);
      r := r + (name + [EQUALS] + value);
      if i < |sorted| - 1 {
        r := r + [AMPERSAND];
      }
      i := i + 1;
    }
    assert r + [] == r;
  }

  lemma QueryTurn(done: JsString, sorted: seq<Field>, i: nat)
    requires i < |sorted|
    ensures done + Join(QueryFields(sorted[i..]), [AMPERSAND])
         == (if i < |sorted| - 1 then done + QueryField(sorted[i]) + [AMPERSAND] else done + QueryField(sorted[i]))
            + Join(QueryFields(sorted[i + 1..]), [AMPERSAND])
  {
    var rest := QueryFields(sorted[i + 1..]);
    assert sorted[i..][1..] == sorted[i + 1..];
    assert QueryFields(sorted[i..]) == [QueryField(sorted[i])] + rest;
    QueryFieldsLength(sorted[i + 1..]);
    JoinTurn(done, QueryField(sorted[i]), rest, [AMPERSAND]);
  }

  lemma JoinTurn(done: JsString, first: JsString, rest: seq<JsString>, separator: JsString)
    ensures done + Join([first] + rest, separator)
         == (if rest != [] then done + first + separator else done + first) + Join(rest, separator)
  {
    var all := [first] + rest;
    assert all[1..] == rest;
    if rest == [] {
      assert done + first + [] == done + first;
    } else {
      Associative(done + first, separator, Join(rest, separator));
      assert done + (first + separator + Join(rest, separator)) == (done + first) + (separator + Join(rest, separator));
    }
  }

  lemma {:induction false} QueryFieldsLength(fields: seq<Field>)
    ensures |QueryFields(fields)| == |fields|
  {
    if fields != [] { QueryFieldsLength(fields[1..]); }
  }

  /** The header loop. */
  method AppendHeaders(t: TextOps, str: JsString, sorted: seq<Field>) returns (r: JsString)
    ensures r == str + HeaderLines(t, sorted)
  {
    r := str;
    for i := 0 to |sorted|
      invariant str + HeaderLines(t, sorted) == r + HeaderLines(t, sorted[i..])
    {
      assert sorted[i..][1..] == sorted[i + 1..];
      var line := t.lower(sorted[i].name) + [COLON] + t.trim(sorted[i].value) + [LF];
      Associative(r, line, HeaderLines(t, sorted[i + 1..]));
      r := r + line;
    }
    assert r + [] == r;
  }

  /** `createCanonicalRequest` */
  method CreateCanonicalRequest(t: TextOps, request: CanonicalRequest) returns (str: JsString)
    ensures str == Canonical(t, request)
  {
    var path := CanonicalUriEncode(request.path, false);
    str := request.httpMethod + [LF];
    str := str + path;
    str := str + [LF];
    str := AppendQuery(str, SortBy(request.queryString, EncodedName()));
    str := str + [LF];
    var headerNames := SortBy(request.headers, LowerName(t));
    str := AppendHeaders(t, str, headerNames);
    str := str + [LF];
    str := str + Join(Mapped(headerNames, LowerName(t)), [SEMICOLON]);
    str := str + [LF];
    str := str + t.lower(request.payloadSha256Hex);
  }

  /** The `SignedHeaders` list that `signRequest` computes for itself. */
  function SignRequestHeaders(t: TextOps, headers: seq<Field>): JsString {
    Join(Sort(Mapped(headers, LowerName(t))), [SEMICOLON])
  }

  /** It is the signed-headers line of the canonical request. */
  lemma SignedHeadersAgree(t: TextOps, headers: seq<Field>)
    ensures SignRequestHeaders(t, headers) == SignedHeaders(t, headers)
  {
    KeysOfSortBy(headers, LowerName(t));
  }

  lemma FirstLineUnique(a: JsString, ra: JsString, b: JsString, rb: JsString)
    requires LF !in a && LF !in b && a + [LF] + ra == b + [LF] + rb
    ensures a == b
  {
    UnitAfter(a, LF, ra);
    UnitAfter(b, LF, rb);
  }

  // ----- reading the query line back -----

  /** Splits at every occurrence of a unit. */
  function Split(s: JsString, u: CodeUnit): seq<JsString> {
    var i := IndexOfUnit(s, u);
    if i == -1 then [s] else [s[..i]] + Split(s[i + 1..], u)
  }

  datatype BytePair = BytePair(name: Bytes, value: Bytes)

  function ParseField(s: JsString): Option<BytePair> {
    var i := IndexOfUnit(s, EQUALS);
    if i == -1 then None
    else
      var name, value := PercentDecode(s[..i]), PercentDecode(s[i + 1..]);
      if name.None? || value.None? then None else Some(BytePair(name.value, value.value))
  }

  function ParseFields(fields: seq<JsString>): Option<seq<BytePair>> {
    if fields == [] then Some([])
    else
      var first, rest := ParseField(fields[0]), ParseFields(fields[1..]);
      if first.None? || rest.None? then None else Some([first.value] + rest.value)
  }

  /** Reads a query line as the percent-encoded pairs it lists. */
  function ParseQuery(line: JsString): Option<seq<BytePair>> {
    if line == [] then Some([]) else ParseFields(Split(line, AMPERSAND))
  }

  function PairOf(): Field -> BytePair { (f: Field) => BytePair(Utf8.Encode(f.name), Utf8.Encode(f.value)) }

  lemma SideFree(s: JsString)
    ensures AMPERSAND !in UriEncode(s, true) && EQUALS !in UriEncode(s, true)
  {
    EncodedPlain(Utf8.Encode(s), true);
    assert !Plain(AMPERSAND) && !Plain(EQUALS);
  }

  lemma FieldSplits(f: Field)
    ensures AMPERSAND !in QueryField(f) && QueryField(f) != []
    ensures ParseField(QueryField(f)) == Some(BytePair(Utf8.Encode(f.name), Utf8.Encode(f.value)))
  {
    var name, value := UriEncode(f.name, true), UriEncode(f.value, true);
    SideFree(f.name);
    SideFree(f.value);
    UnitAfter(name, EQUALS, value);
    UriRoundTrip(f.name, true);
    UriRoundTrip(f.value, true);
  }

  lemma UnitAfter(head: JsString, u: CodeUnit, tail: JsString)
    requires u !in head
    ensures var s := head + [u] + tail;
            IndexOfUnit(s, u) == |head| && s[..|head|] == head && s[|head| + 1..] == tail
  {
    var s := head + [u] + tail;
    assert s[|head|..|head| + 1] == [u];
    IndexOfIsFirst(s, [u], 0, |head|);
    assert forall k | 0 <= k < |head| :: s[k] == head[k];
  }

  lemma SplitFirst(head: JsString, u: CodeUnit, tail: JsString)
    requires u !in head
    ensures Split(head + [u] + tail, u) == [head] + Split(tail, u)
  {
    UnitAfter(head, u, tail);
  }

  lemma SplitNone(s: JsString, u: CodeUnit)
    requires u !in s
    ensures Split(s, u) == [s]
  {
    assert IndexOfUnit(s, u) != -1 ==> u in s;
  }

  lemma {:induction false} SplitJoin(xs: seq<JsString>, u: CodeUnit)
    requires xs != [] && forall x | x in xs :: u !in x
    ensures Split(Join(xs, [u]), u) == xs
  {
    assert xs[0] in xs;
    if |xs| == 1 {
      SplitNone(xs[0], u);
    } else {
      assert forall x | x in xs[1..] :: x in xs;
      SplitJoin(xs[1..], u);
      SplitFirst(xs[0], u, Join(xs[1..], [u]));
    }
  }

  lemma {:induction false} FieldsParse(fields: seq<Field>)
    ensures ParseFields(QueryFields(fields)) == Some(Mapped(fields, PairOf()))
    ensures forall x | x in QueryFields(fields) :: AMPERSAND !in x
  {
    if fields != [] {
      FieldSplits(fields[0]);
      FieldsParse(fields[1..]);
      assert QueryFields(fields)[1..] == QueryFields(fields[1..]);
    }
  }

  /** The query line reads back as exactly the sorted parameters. */
  lemma QueryLineRoundTrip(query: seq<Field>)
    ensures ParseQuery(QueryLine(query)) == Some(Mapped(SortBy(query, EncodedName()), PairOf()))
    ensures Sorted(SortBy(query, EncodedName()), EncodedName()) && multiset(SortBy(query, EncodedName())) == multiset(query)
  {
    var sorted := SortBy(query, EncodedName());
    SortBySorts(query, EncodedName());
    FieldsParse(sorted);
    if sorted != [] {
      FieldSplits(sorted[0]);
      QueryFieldsLength(sorted);
      SplitJoin(QueryFields(sorted), AMPERSAND);
      assert QueryLine(query) != [];
    }
  }
}
