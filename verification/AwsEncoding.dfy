/** What percent encoding keeps and what it writes for the rest, and the lines
    of a canonical request. */
module AwsEncoding {
  import opened JsStrings
  import opened Utf8
  import opened Sorting
  import opened Aws

  // ----- ASCII text in UTF-8 -----

  lemma {:induction false} AsciiEncodesAsItself(s: JsString)
    requires IsAscii(s)
    ensures Utf8.Encode(s) == s
  {
    if s != [] {
      assert s[0] in s;
      assert forall u | u in s[1..] :: u in s;
      AsciiEncodesAsItself(s[1..]);
      assert Scalars(s)[1..] == Scalars(s[1..]);
      assert s == [s[0]] + s[1..];
    }
  }

  // ----- what stays as it is -----

  /** Letters, digits, hyphen, period, underscore and tilde (section 2.3 of RFC 3986). */
  predicate Kept(u: int) {
    || 'A' as int <= u <= 'Z' as int || 'a' as int <= u <= 'z' as int || '0' as int <= u <= '9' as int
    || u == '-' as int || u == '.' as int || u == '_' as int || u == '~' as int
  }

  predicate Untouched(s: JsString, encodeSlash: bool) {
    forall u | u in s :: Kept(u) || (!encodeSlash && u == '/' as int)
  }

  lemma {:induction false} UntouchedBytes(b: Bytes, encodeSlash: bool)
    requires Untouched(b, encodeSlash)
    ensures EncodeBytes(b, encodeSlash) == b
  {
    if b != [] {
      assert b[0] in b;
      assert forall u | u in b[1..] :: u in b;
      UntouchedBytes(b[1..], encodeSlash);
      assert b == [b[0]] + b[1..];
    }
  }

  /** Text of unreserved characters - and of slashes, where they are kept - is encoded as itself. */
  lemma UnreservedKept(s: JsString, encodeSlash: bool)
    requires Untouched(s, encodeSlash)
    ensures UriEncode(s, encodeSlash) == s
  {
    forall u | u in s ensures u < 0x80 {
      assert Kept(u) || u == '/' as int;
    }
    AsciiEncodesAsItself(s);
    UntouchedBytes(s, encodeSlash);
  }

  // ----- what the rest becomes -----

  const UPPER_HEX: string := "0123456789ABCDEF"

  /** A percent sign and the two upper-case hexadecimal digits of the byte. */
  function PercentEncoded(b: Byte): JsString { ['%' as int, UPPER_HEX[b / 16] as int, UPPER_HEX[b % 16] as int] }

  lemma HexDigitUpper(v: int)
    requires 0 <= v < 16
    ensures HexDigit(v) == UPPER_HEX[v] as int
  {
    assert v == 0 || v == 1 || v == 2 || v == 3 || v == 4 || v == 5 || v == 6 || v == 7 || v == 8 || v == 9 || v == 10
        || v == 11 || v == 12 || v == 13 || v == 14 || v == 15;
  }

  /** Every byte: kept, or written in hexadecimal. */
  lemma ByteEncodedExact(b: Byte, encodeSlash: bool)
    ensures EncodeByte(b, encodeSlash)
         == if Kept(b) || (!encodeSlash && b == '/' as int) then [b] else PercentEncoded(b)
  {
    HexDigitUpper(b / 16);
    HexDigitUpper(b % 16);
  }

  /** One after the other. */
  function PercentEncodedAll(bytes: Bytes, encodeSlash: bool): JsString {
    if bytes == [] then []
    else
      var b := bytes[|bytes| - 1];
      PercentEncodedAll(bytes[..|bytes| - 1], encodeSlash)
      + if Kept(b) || (!encodeSlash && b == '/' as int) then [b] else PercentEncoded(b)
  }

  lemma {:induction false} BytesEncodedExact(bytes: Bytes, encodeSlash: bool)
    ensures EncodeBytes(bytes, encodeSlash) == PercentEncodedAll(bytes, encodeSlash)
  {
    if bytes != [] {
      var n := |bytes| - 1;
      BytesEncodedExact(bytes[..n], encodeSlash);
      EncodeNext(bytes, n, encodeSlash);
      assert bytes[..n + 1] == bytes;
      ByteEncodedExact(bytes[n], encodeSlash);
    }
  }

  /** A string is encoded byte by byte of its UTF-8 form: the unreserved are kept,
      slashes where asked, and every other byte is written as percent and two digits. */
  lemma EncodedExact(s: JsString, encodeSlash: bool)
    ensures UriEncode(s, encodeSlash) == PercentEncodedAll(Utf8.Encode(s), encodeSlash)
  {
    BytesEncodedExact(Utf8.Encode(s), encodeSlash);
  }

  /** A slash is kept in paths, and is %2F elsewhere. */
  lemma SlashEncoded()
    ensures UriEncode(Text("/"), false) == Text("/")
    ensures UriEncode(Text("/"), true) == Text("%2F")
  {
    AsciiEncodesAsItself(Text("/"));
    EncodeBytesSnoc([], SLASH, false);
    EncodeBytesSnoc([], SLASH, true);
    assert Text("/") == [] + [SLASH];
    assert Text("%2F") == [0x25, 0x32, 0x46];
  }

  // ----- the lines of a canonical request -----

  /** What an encoded path never contains, and what a query line never contains. */
  predicate Foreign(u: CodeUnit) { u == LF || u == SLASH }

  lemma FreeOfLines(s: JsString)
    ensures LF !in UriEncode(s, false)
  {
    EncodedPlain(Utf8.Encode(s), false);
    assert !Plain(LF);
  }

  lemma {:induction false} JoinFree(xs: seq<JsString>, separator: JsString, u: CodeUnit)
    requires u !in separator && forall x | x in xs :: u !in x
    ensures u !in Join(xs, separator)
  {
    if |xs| > 1 {
      assert forall x | x in xs[1..] :: x in xs;
      JoinFree(xs[1..], separator, u);
    }
    if xs != [] { assert xs[0] in xs; }
  }

  lemma {:induction false} QueryFieldsFree(fields: seq<Field>, u: CodeUnit)
    requires Foreign(u)
    ensures forall x | x in QueryFields(fields) :: u !in x
  {
    if fields != [] {
      QueryFieldsFree(fields[1..], u);
      EncodedPlain(Utf8.Encode(fields[0].name), true);
      EncodedPlain(Utf8.Encode(fields[0].value), true);
      assert !Plain(LF);
    }
  }

  /** No slash stands in a query line: names and values are encoded whole. */
  lemma QueryLineFree(query: seq<Field>, u: CodeUnit)
    requires Foreign(u)
    ensures u !in QueryLine(query)
  {
    QueryFieldsFree(SortBy(query, EncodedName()), u);
    JoinFree(QueryFields(SortBy(query, EncodedName())), [AMPERSAND], u);
  }

  /** The name and value of one header, as they are signed. */
  function HeaderLine(t: TextOps, f: Field): JsString { t.lower(f.name) + Text(":") + t.trim(f.value) }

  function AllHeaderLines(t: TextOps, headers: seq<Field>): seq<JsString> {
    if headers == [] then [] else [HeaderLine(t, headers[0])] + AllHeaderLines(t, headers[1..])
  }

  /** Nothing that is signed brings a line feed of its own. */
  predicate OneLine(t: TextOps, r: CanonicalRequest) {
    && LF !in r.httpMethod && LF !in t.lower(r.payloadSha256Hex)
    && forall f | f in r.headers :: LF !in t.lower(f.name) && LF !in t.trim(f.value)
  }

  predicate HeadersFree(t: TextOps, headers: seq<Field>) {
    forall f | f in headers :: LF !in t.lower(f.name) && LF !in t.trim(f.value)
  }

  lemma HeaderLinesCons(t: TextOps, headers: seq<Field>, rest: JsString)
    requires headers != []
    ensures HeaderLines(t, headers) + rest == HeaderLine(t, headers[0]) + [LF] + (HeaderLines(t, headers[1..]) + rest)
  {
    Separators();
    Associative(HeaderLine(t, headers[0]) + [LF], HeaderLines(t, headers[1..]), rest);
  }

  lemma {:induction false} HeadersSplit(t: TextOps, headers: seq<Field>, rest: JsString, lines: seq<JsString>)
    requires HeadersFree(t, headers) && Split(rest, LF) == lines
    ensures Split(HeaderLines(t, headers) + rest, LF) == AllHeaderLines(t, headers) + lines
  {
    if headers == [] {
      assert [] + rest == rest;
    } else {
      assert headers[0] in headers;
      HeadersSplit(t, headers[1..], rest, lines);
      HeaderLinesCons(t, headers, rest);
      Separators();
      SplitFirst(HeaderLine(t, headers[0]), LF, HeaderLines(t, headers[1..]) + rest);
      Associative([HeaderLine(t, headers[0])], AllHeaderLines(t, headers[1..]), lines);
    }
  }

  lemma SignedFree(t: TextOps, headers: seq<Field>)
    requires HeadersFree(t, headers)
    ensures LF !in Join(Mapped(headers, LowerName(t)), [SEMICOLON])
  {
    var names := Mapped(headers, LowerName(t));
    forall x | x in names ensures LF !in x {
      MappedMember(headers, LowerName(t), x);
    }
    JoinFree(names, [SEMICOLON], LF);
  }

  /** The lines a canonical request must have: the method, the encoded path, the
      query, one for every header in the order of the lower-case names, an empty
      one, the names of the signed headers, and the hash of the payload. */
  function ExpectedLines(t: TextOps, r: CanonicalRequest): seq<JsString> {
    var sorted := SortBy(r.headers, LowerName(t));
    [r.httpMethod] + ([UriEncode(r.path, false)] + ([QueryLine(r.queryString)]
     + (AllHeaderLines(t, sorted) + ([[]] + ([Join(Mapped(sorted, LowerName(t)), Text(";"))]
        + [t.lower(r.payloadSha256Hex)])))))
  }

  lemma CanonicalLines(t: TextOps, r: CanonicalRequest)
    requires OneLine(t, r)
    ensures Split(Canonical(t, r), LF) == ExpectedLines(t, r)
  {
    var sorted := SortBy(r.headers, LowerName(t));
    SortBySorts(r.headers, LowerName(t));
    forall f | f in sorted ensures f in r.headers { assert f in multiset(sorted); }
    var path, query := UriEncode(r.path, false), QueryLine(r.queryString);
    var signed, payload := Join(Mapped(sorted, LowerName(t)), [SEMICOLON]), t.lower(r.payloadSha256Hex);
    FreeOfLines(r.path);
    QueryLineFree(r.queryString, LF);
    SignedFree(t, sorted);
    TailSplit(t, sorted, signed, payload);
    var tail := HeaderLines(t, sorted) + ([LF] + (signed + [LF] + payload));
    HeadSplit(r.httpMethod, path, query, tail);
    CanonicalParts(t, r, path, query, signed, payload);
    Separators();
  }

  lemma Separators()
    ensures Text(":") == [COLON] && Text(";") == [SEMICOLON] && Text("&") == [AMPERSAND] && Text("=") == [EQUALS]
    ensures LF == '\n' as int
  {}

  lemma CanonicalParts(t: TextOps, r: CanonicalRequest, path: JsString, query: JsString, signed: JsString, payload: JsString)
    requires path == UriEncode(r.path, false) && query == QueryLine(r.queryString)
    requires signed == SignedHeaders(t, r.headers) && payload == t.lower(r.payloadSha256Hex)
    ensures Canonical(t, r)
         == r.httpMethod + [LF] + (path + [LF] + (query + [LF]
            + (HeaderLines(t, SortedHeaders(t, r.headers)) + ([LF] + (signed + [LF] + payload)))))
  {
    Flat(r.httpMethod, path, query, HeaderLines(t, SortedHeaders(t, r.headers)), signed, payload);
  }

  lemma Flat(a: JsString, b: JsString, c: JsString, d: JsString, e: JsString, f: JsString)
    ensures a + [LF] + b + [LF] + c + [LF] + d + [LF] + e + [LF] + f
         == a + [LF] + (b + [LF] + (c + [LF] + (d + ([LF] + (e + [LF] + f)))))
  {}

  lemma EndSplit(signed: JsString, payload: JsString)
    requires LF !in signed && LF !in payload
    ensures Split([LF] + (signed + [LF] + payload), LF) == [[]] + ([signed] + [payload])
  {
    assert [LF] + (signed + [LF] + payload) == [] + [LF] + (signed + [LF] + payload);
    SplitFirst([], LF, signed + [LF] + payload);
    SplitFirst(signed, LF, payload);
    SplitNone(payload, LF);
  }

  lemma TailSplit(t: TextOps, sorted: seq<Field>, signed: JsString, payload: JsString)
    requires HeadersFree(t, sorted) && LF !in signed && LF !in payload
    ensures Split(HeaderLines(t, sorted) + ([LF] + (signed + [LF] + payload)), LF)
         == AllHeaderLines(t, sorted) + ([[]] + ([signed] + [payload]))
  {
    EndSplit(signed, payload);
    HeadersSplit(t, sorted, [LF] + (signed + [LF] + payload), [[]] + ([signed] + [payload]));
  }

  lemma HeadSplit(a: JsString, b: JsString, c: JsString, tail: JsString)
    requires LF !in a && LF !in b && LF !in c
    ensures Split(a + [LF] + (b + [LF] + (c + [LF] + tail)), LF) == [a] + ([b] + ([c] + Split(tail, LF)))
  {
    SplitFirst(a, LF, b + [LF] + (c + [LF] + tail));
    SplitFirst(b, LF, c + [LF] + tail);
    SplitFirst(c, LF, tail);
  }

  /** A parameter as it is signed: both its sides encoded whole. */
  function Parameter(f: Field): JsString { UriEncode(f.name, true) + Text("=") + UriEncode(f.value, true) }

  /** Between the ampersands of a query line stand exactly the parameters, in the order of their encoded names. */
  lemma QueryLineFields(query: seq<Field>)
    requires query != []
    ensures Split(QueryLine(query), '&' as int)
         == Mapped(SortBy(query, EncodedName()), (f: Field) => Parameter(f))
  {
    var sorted := SortBy(query, EncodedName());
    SortBySorts(query, EncodedName());
    assert sorted != [] by { assert query[0] in multiset(sorted); }
    ParametersMapped(sorted);
    FieldsParse(sorted);
    SplitJoin(QueryFields(sorted), AMPERSAND);
  }

  lemma {:induction false} ParametersMapped(fields: seq<Field>)
    ensures QueryFields(fields) == Mapped(fields, (f: Field) => Parameter(f))
  {
    if fields != [] {
      Separators();
      ParametersMapped(fields[1..]);
    }
  }

  /** So a path of unreserved characters and slashes is signed as it is. */
  lemma PathLine(t: TextOps, r: CanonicalRequest)
    requires OneLine(t, r) && Untouched(r.path, false)
    ensures |Split(Canonical(t, r), LF)| > 1 && Split(Canonical(t, r), LF)[1] == r.path
  {
    CanonicalLines(t, r);
    UnreservedKept(r.path, false);
  }
}
