/** JavaScript strings: sequences of UTF-16 code units, with the few built-in
    operations the modelled sources call. */
module JsStrings {
  type CodeUnit = x: int | 0 <= x < 0x1_0000
  type JsString = seq<CodeUnit>

  const LF: CodeUnit := 0x0A
  const CR: CodeUnit := 0x0D
  const PERIOD: CodeUnit := 0x2E
  const COLON: CodeUnit := 0x3A

  /** A source literal. Every literal used here is ASCII. */
  function Text(s: string): (r: JsString)
    ensures |r| == |s|
  {
    seq(|s|, i requires 0 <= i < |s| => if s[i] as int < 0x1_0000 then s[i] as int else 0xFFFD)
  }

  predicate MatchesAt(s: JsString, pattern: JsString, i: int) {
    0 <= i && i + |pattern| <= |s| && s[i..i + |pattern|] == pattern
  }

  predicate StartsWith(s: JsString, prefix: JsString) {
    MatchesAt(s, prefix, 0)
  }

  /** `s.indexOf(pattern, from)`: the first match at or after `from`, or -1. */
  function IndexOf(s: JsString, pattern: JsString, from: nat): (r: int)
    ensures r == -1 || (from <= r && MatchesAt(s, pattern, r))
    decreases |s| - from
  {
    if from + |pattern| > |s| then -1
    else if MatchesAt(s, pattern, from) then from
    else IndexOf(s, pattern, from + 1)
  }

  /** No match lies between the starting point and the index found. */
  lemma {:induction false} IndexOfIsFirst(s: JsString, pattern: JsString, from: nat, k: nat)
    requires from <= k && MatchesAt(s, pattern, k)
    ensures 0 <= IndexOf(s, pattern, from) <= k
    decreases |s| - from
  {
    if !MatchesAt(s, pattern, from) { IndexOfIsFirst(s, pattern, from + 1, k); }
  }

  /** The index of the first occurrence of one code unit, or -1. */
  function IndexOfUnit(s: JsString, u: CodeUnit): (r: int)
    ensures r == -1 ==> u !in s
    ensures r != -1 ==> 0 <= r < |s| && s[r] == u && u !in s[..r]
  {
    IndexOfSingle(s, u, 0);
    IndexOf(s, [u], 0)
  }

  lemma IndexOfSingle(s: JsString, u: CodeUnit, from: nat)
    requires from <= |s|
    ensures var i := IndexOf(s, [u], from);
            if i == -1 then u !in s[from..] else from <= i < |s| && s[i] == u && u !in s[from..i]
  {
    var i := IndexOf(s, [u], from);
    assert i != -1 ==> s[i..i + 1][0] == u;
    forall k | from <= k < (if i == -1 then |s| else i) ensures s[k] != u {
      if s[k] == u {
        assert s[k..k + 1] == [u];
        IndexOfIsFirst(s, [u], from, k);
      }
    }
  }

  lemma Associative<T>(a: seq<T>, b: seq<T>, c: seq<T>)
    ensures (a + b) + c == a + (b + c)
  {}

  /** JavaScript's string order: lexicographic on code units. */
  predicate LexLe(a: JsString, b: JsString) {
    a == [] || (b != [] && (a[0] < b[0] || (a[0] == b[0] && LexLe(a[1..], b[1..]))))
  }

  lemma {:induction false} LexTotal(a: JsString, b: JsString)
    ensures LexLe(a, b) || LexLe(b, a)
  {
    if a != [] && b != [] && a[0] == b[0] { LexTotal(a[1..], b[1..]); }
  }

  lemma {:induction false} LexAntisymmetric(a: JsString, b: JsString)
    requires LexLe(a, b) && LexLe(b, a)
    ensures a == b
  {
    if a != [] && b != [] {
      LexAntisymmetric(a[1..], b[1..]);
      assert a == [a[0]] + a[1..] && b == [b[0]] + b[1..];
    }
  }

  lemma {:induction false} LexTransitive(a: JsString, b: JsString, c: JsString)
    requires LexLe(a, b) && LexLe(b, c)
    ensures LexLe(a, c)
  {
    if a != [] && a[0] == b[0] && b[0] == c[0] { LexTransitive(a[1..], b[1..], c[1..]); }
  }
}
