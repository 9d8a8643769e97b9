/** When the canonical request does not depend on the order in which parameters
    and headers were given. */
module AwsOrder {
  import opened JsStrings
  import opened Options
  import opened Utf8
  import opened Sorting
  import opened Aws

  /** The same request with parameters and headers in another order. */
  ghost predicate Reordering(a: CanonicalRequest, b: CanonicalRequest) {
    && a.httpMethod == b.httpMethod && a.path == b.path && a.payloadSha256Hex == b.payloadSha256Hex
    && multiset(a.headers) == multiset(b.headers) && multiset(a.queryString) == multiset(b.queryString)
  }

  /** What a header contributes to its line, and a parameter to its. */
  function HeaderOf(t: TextOps): Field -> Field { (f: Field) => Field(t.lower(f.name), t.trim(f.value)) }
  function ParameterOf(): Field -> Field { (f: Field) => Field(UriEncode(f.name, true), UriEncode(f.value, true)) }
  function NameOf(): Field -> JsString { (f: Field) => f.name }

  /** Headers with the same lower-cased name have the same trimmed value. */
  predicate HeadersAgree(t: TextOps, headers: seq<Field>) {
    forall f, g | f in headers && g in headers && t.lower(f.name) == t.lower(g.name) :: t.trim(f.value) == t.trim(g.value)
  }

  /** Parameters whose names are encoded alike have values that are encoded alike. */
  predicate ParametersAgree(query: seq<Field>) {
    forall f, g | f in query && g in query && UriEncode(f.name, true) == UriEncode(g.name, true) ::
      UriEncode(f.value, true) == UriEncode(g.value, true)
  }

  // ----- agreement makes the order irrelevant -----

  lemma {:induction false} SameHeaderLines(t: TextOps, a: seq<Field>, b: seq<Field>)
    requires Mapped(a, HeaderOf(t)) == Mapped(b, HeaderOf(t))
    ensures HeaderLines(t, a) == HeaderLines(t, b) && Mapped(a, LowerName(t)) == Mapped(b, LowerName(t))
  {
    if a != [] && b != [] {
      var x, y := Mapped(a, HeaderOf(t)), Mapped(b, HeaderOf(t));
      assert x[0] == y[0] && x[1..] == y[1..];
      assert x[1..] == Mapped(a[1..], HeaderOf(t)) && y[1..] == Mapped(b[1..], HeaderOf(t));
      SameHeaderLines(t, a[1..], b[1..]);
    }
  }

  lemma {:induction false} SameQueryFields(a: seq<Field>, b: seq<Field>)
    requires Mapped(a, ParameterOf()) == Mapped(b, ParameterOf())
    ensures QueryFields(a) == QueryFields(b)
  {
    if a != [] && b != [] {
      var x, y := Mapped(a, ParameterOf()), Mapped(b, ParameterOf());
      assert x[0] == y[0] && x[1..] == y[1..];
      assert x[1..] == Mapped(a[1..], ParameterOf()) && y[1..] == Mapped(b[1..], ParameterOf());
      SameQueryFields(a[1..], b[1..]);
    }
  }

  lemma HeaderOrderIrrelevant(t: TextOps, a: seq<Field>, b: seq<Field>)
    requires multiset(a) == multiset(b) && HeadersAgree(t, a)
    ensures HeaderLines(t, SortedHeaders(t, a)) == HeaderLines(t, SortedHeaders(t, b))
            && SignedHeaders(t, a) == SignedHeaders(t, b)
  {
    SortedImages(a, b, LowerName(t), HeaderOf(t), NameOf());
    SameHeaderLines(t, SortedHeaders(t, a), SortedHeaders(t, b));
  }

  lemma ParameterOrderIrrelevant(a: seq<Field>, b: seq<Field>)
    requires multiset(a) == multiset(b) && ParametersAgree(a)
    ensures QueryLine(a) == QueryLine(b)
  {
    SortedImages(a, b, EncodedName(), ParameterOf(), NameOf());
    SameQueryFields(SortBy(a, EncodedName()), SortBy(b, EncodedName()));
  }

  /** The canonical request does not depend on the order of parameters and
      headers when those that share a sort key print alike. */
  lemma InsertionOrderIrrelevant(t: TextOps, a: CanonicalRequest, b: CanonicalRequest)
    requires Reordering(a, b) && HeadersAgree(t, a.headers) && ParametersAgree(a.queryString)
    ensures Canonical(t, a) == Canonical(t, b)
  {
    HeaderOrderIrrelevant(t, a.headers, b.headers);
    ParameterOrderIrrelevant(a.queryString, b.queryString);
  }

  /** Distinct well-formed parameter names are enough for parameters. */
  lemma DistinctNamesSuffice(query: seq<Field>)
    requires forall f | f in query :: WellFormed(f.name)
    requires forall f, g | f in query && g in query && f.name == g.name :: f.value == g.value
    ensures ParametersAgree(query)
  {
    forall f, g | f in query && g in query && UriEncode(f.name, true) == UriEncode(g.name, true)
      ensures UriEncode(f.value, true) == UriEncode(g.value, true)
    {
      UriEncodeInjective(f.name, g.name, true);
    }
  }

  // ----- disagreement makes it matter -----

  /** Two headers with one lower-cased name keep the order they came in, line by line. */
  lemma {:induction false} SwappedHeaderLines(t: TextOps, f: Field, g: Field, rest: seq<Field>)
    requires t.lower(f.name) == t.lower(g.name) && t.trim(f.value) != t.trim(g.value)
    requires LF !in t.trim(f.value) && LF !in t.trim(g.value)
    ensures HeaderLines(t, Insert(f, Insert(g, rest, LowerName(t)), LowerName(t)))
         != HeaderLines(t, Insert(g, Insert(f, rest, LowerName(t)), LowerName(t)))
  {
    var key := LowerName(t);
    var a, b := Insert(f, Insert(g, rest, key), key), Insert(g, Insert(f, rest, key), key);
    LexTotal(key(f), key(f));
    if rest == [] || LexLe(key(f), key(rest[0])) {
      assert a == [f] + ([g] + rest) && b == [g] + ([f] + rest);
      FirstHeaderLine(t, a);
      FirstHeaderLine(t, b);
      var head := t.lower(f.name) + [COLON];
      if HeaderLines(t, a) == HeaderLines(t, b) {
        Cancel(head, t.trim(f.value) + [LF] + HeaderLines(t, a[1..]), t.trim(g.value) + [LF] + HeaderLines(t, b[1..]), []);
        FirstLineUnique(t.trim(f.value), HeaderLines(t, a[1..]), t.trim(g.value), HeaderLines(t, b[1..]));
      }
    } else {
      SwappedHeaderLines(t, f, g, rest[1..]);
      assert a[1..] == Insert(f, Insert(g, rest[1..], key), key);
      assert b[1..] == Insert(g, Insert(f, rest[1..], key), key);
      FirstHeaderLine(t, a);
      FirstHeaderLine(t, b);
      var head := t.lower(rest[0].name) + [COLON] + t.trim(rest[0].value) + [LF];
      if HeaderLines(t, a) == HeaderLines(t, b) {
        Cancel(head, HeaderLines(t, a[1..]), HeaderLines(t, b[1..]), []);
      }
    }
  }

  lemma FirstHeaderLine(t: TextOps, headers: seq<Field>)
    requires headers != []
    ensures var f, rest := headers[0], HeaderLines(t, headers[1..]);
            && HeaderLines(t, headers) == (t.lower(f.name) + [COLON]) + (t.trim(f.value) + [LF] + rest) + []
            && HeaderLines(t, headers) == (t.lower(f.name) + [COLON] + t.trim(f.value) + [LF]) + rest + []
  {}

  lemma Cancel(head: JsString, a: JsString, b: JsString, tail: JsString)
    requires head + a + tail == head + b + tail
    ensures a == b
  {
    var s := head + a + tail;
    assert |a| == |b|;
    assert s[|head|..|head| + |a|] == a && s[|head|..|head| + |b|] == b;
  }

  /** The part of the canonical request before the query line, and after it. */
  function BeforeQuery(r: CanonicalRequest): JsString { r.httpMethod + [LF] + UriEncode(r.path, false) + [LF] }
  function AfterHeaders(t: TextOps, r: CanonicalRequest): JsString {
    [LF] + SignedHeaders(t, r.headers) + [LF] + t.lower(r.payloadSha256Hex)
  }

  lemma CanonicalParts(t: TextOps, r: CanonicalRequest)
    ensures var lines := HeaderLines(t, SortedHeaders(t, r.headers));
            && Canonical(t, r) == (BeforeQuery(r) + QueryLine(r.queryString) + [LF]) + lines + AfterHeaders(t, r)
            && Canonical(t, r) == BeforeQuery(r) + QueryLine(r.queryString) + ([LF] + lines + AfterHeaders(t, r))
  {
    var lines := HeaderLines(t, SortedHeaders(t, r.headers));
    var last := SignedHeaders(t, r.headers) + [LF] + t.lower(r.payloadSha256Hex);
    var first := BeforeQuery(r) + QueryLine(r.queryString);
    assert AfterHeaders(t, r) == [LF] + last;
    assert Canonical(t, r) == first + [LF] + lines + ([LF] + last);
    assert first + [LF] + lines + ([LF] + last) == first + ([LF] + lines + ([LF] + last));
  }

  /** Two headers that share a name but not a value make the order matter: with
      them first among the headers, exchanging them changes the canonical request. */
  lemma SharedNameOrderMatters(t: TextOps, r: CanonicalRequest, f: Field, g: Field, rest: seq<Field>)
    requires t.lower(f.name) == t.lower(g.name) && t.trim(f.value) != t.trim(g.value)
    requires LF !in t.trim(f.value) && LF !in t.trim(g.value)
    ensures Canonical(t, r.(headers := [f] + ([g] + rest))) != Canonical(t, r.(headers := [g] + ([f] + rest)))
  {
    var x, y := r.(headers := [f] + ([g] + rest)), r.(headers := [g] + ([f] + rest));
    SortedPair(f, g, rest, LowerName(t));
    SortedPair(g, f, rest, LowerName(t));
    SwappedHeaderLines(t, f, g, SortBy(rest, LowerName(t)));
    SignedHeadersAgree(t, x.headers);
    SignedHeadersAgree(t, y.headers);
    MappedPair(f, g, rest, LowerName(t));
    MappedPair(g, f, rest, LowerName(t));
    CanonicalParts(t, x);
    CanonicalParts(t, y);
    if Canonical(t, x) == Canonical(t, y) {
      Cancel(BeforeQuery(r) + QueryLine(r.queryString) + [LF], HeaderLines(t, SortedHeaders(t, x.headers)),
             HeaderLines(t, SortedHeaders(t, y.headers)), AfterHeaders(t, x));
    }
  }

  lemma SortedPair(f: Field, g: Field, rest: seq<Field>, key: Field -> JsString)
    ensures SortBy([f] + ([g] + rest), key) == Insert(f, Insert(g, SortBy(rest, key), key), key)
  {
    assert ([f] + ([g] + rest))[1..] == [g] + rest && ([g] + rest)[1..] == rest;
  }

  lemma MappedPair(f: Field, g: Field, rest: seq<Field>, key: Field -> JsString)
    ensures Mapped([f] + ([g] + rest), key) == [key(f)] + ([key(g)] + Mapped(rest, key))
  {
    assert ([f] + ([g] + rest))[1..] == [g] + rest && ([g] + rest)[1..] == rest;
  }

  /** The same for parameters whose names are encoded alike and values are not. */
  lemma SharedParameterOrderMatters(t: TextOps, r: CanonicalRequest, f: Field, g: Field, rest: seq<Field>)
    requires UriEncode(f.name, true) == UriEncode(g.name, true) && UriEncode(f.value, true) != UriEncode(g.value, true)
    ensures Canonical(t, r.(queryString := [f] + ([g] + rest))) != Canonical(t, r.(queryString := [g] + ([f] + rest)))
  {
    var x, y := r.(queryString := [f] + ([g] + rest)), r.(queryString := [g] + ([f] + rest));
    SortedPair(f, g, rest, EncodedName());
    SortedPair(g, f, rest, EncodedName());
    InsertedTwice(f, g, SortBy(rest, EncodedName()), EncodedName(), PairOf());
    QueryLineRoundTrip(x.queryString);
    QueryLineRoundTrip(y.queryString);
    CanonicalParts(t, x);
    CanonicalParts(t, y);
    if Canonical(t, x) == Canonical(t, y) {
      Cancel(BeforeQuery(r), QueryLine(x.queryString), QueryLine(y.queryString),
             [LF] + HeaderLines(t, SortedHeaders(t, r.headers)) + AfterHeaders(t, r));
    }
  }

  // ----- exactly -----

  ghost predicate OrderIndependent(t: TextOps, r: CanonicalRequest) {
    forall other | Reordering(r, other) :: Canonical(t, other) == Canonical(t, r)
  }

  lemma NotIndependent(t: TextOps, r: CanonicalRequest, x: CanonicalRequest, y: CanonicalRequest)
    requires Reordering(r, x) && Reordering(r, y) && Canonical(t, x) != Canonical(t, y)
    ensures !OrderIndependent(t, r)
  {}

  lemma DisagreeingHeaders(t: TextOps, r: CanonicalRequest)
    requires !HeadersAgree(t, r.headers) && forall f | f in r.headers :: LF !in t.trim(f.value)
    ensures !OrderIndependent(t, r)
  {
    var f, g :| f in r.headers && g in r.headers && t.lower(f.name) == t.lower(g.name) && t.trim(f.value) != t.trim(g.value);
    var rest := PulledToFront(r.headers, f, g);
    SharedNameOrderMatters(t, r, f, g, rest);
    NotIndependent(t, r, r.(headers := [f] + ([g] + rest)), r.(headers := [g] + ([f] + rest)));
  }

  lemma DisagreeingParameters(t: TextOps, r: CanonicalRequest)
    requires !ParametersAgree(r.queryString)
    ensures !OrderIndependent(t, r)
  {
    var f, g :| f in r.queryString && g in r.queryString && UriEncode(f.name, true) == UriEncode(g.name, true)
                && UriEncode(f.value, true) != UriEncode(g.value, true);
    var rest := PulledToFront(r.queryString, f, g);
    SharedParameterOrderMatters(t, r, f, g, rest);
    NotIndependent(t, r, r.(queryString := [f] + ([g] + rest)), r.(queryString := [g] + ([f] + rest)));
  }

  /** With trimmed values free of line feeds, the canonical request is the same
      for every order of parameters and headers exactly when headers with the
      same lower-cased name have the same trimmed value, and parameters whose
      names are encoded alike have values that are. */
  lemma OrderExact(t: TextOps, r: CanonicalRequest)
    requires forall f | f in r.headers :: LF !in t.trim(f.value)
    ensures OrderIndependent(t, r) <==> HeadersAgree(t, r.headers) && ParametersAgree(r.queryString)
  {
    if !HeadersAgree(t, r.headers) {
      DisagreeingHeaders(t, r);
    } else if !ParametersAgree(r.queryString) {
      DisagreeingParameters(t, r);
    } else {
      forall other | Reordering(r, other) ensures Canonical(t, other) == Canonical(t, r) {
        InsertionOrderIrrelevant(t, r, other);
      }
    }
  }
}
