/** The two string-scanning loops of src/chalk/util.ts. */
module Chalk {
  import opened JsStrings

  /** The occurrences a left-to-right scan takes: none overlaps the next, and
      every match in `s` starts inside one of them, at or after its start. */
  ghost predicate LeftmostOccurrences(s: JsString, pattern: JsString, occ: seq<nat>) {
    && (forall o | o in occ :: MatchesAt(s, pattern, o))
    && Ordered(occ, |pattern|, 0)
    && (forall k {:trigger Covered(occ, |pattern|, k)} | MatchesAt(s, pattern, k) :: Covered(occ, |pattern|, k))
  }

  ghost predicate Covered(occ: seq<nat>, len: nat, k: int) {
    exists i | 0 <= i < |occ| :: occ[i] <= k < occ[i] + len
  }

  function Occurrences(s: JsString, pattern: JsString, from: nat): seq<nat>
    requires pattern != []
    decreases |s| - from
  {
    var i := IndexOf(s, pattern, from);
    if i == -1 then [] else [i] + Occurrences(s, pattern, i + |pattern|)
  }

  /** Consecutive stretches of length `len` lying in [from, to). */
  predicate Spaced(occ: seq<nat>, len: nat, from: nat, to: nat) {
    if occ == [] then from <= to
    else from <= occ[0] && Spaced(occ[1..], len, occ[0] + len, to)
  }

  lemma {:induction false} SpacedBounds(occ: seq<nat>, len: nat, from: nat, to: nat)
    requires Spaced(occ, len, from, to)
    ensures from <= to
  {
    if occ != [] { SpacedBounds(occ[1..], len, occ[0] + len, to); }
  }

  lemma SpacedCons(first: nat, rest: seq<nat>, len: nat, from: nat, to: nat)
    requires from <= first && Spaced(rest, len, first + len, to)
    ensures Spaced([first] + rest, len, from, to)
  {
    assert ([first] + rest)[1..] == rest;
  }

  /** `s` from position `from` on, with `insert` put after each listed occurrence. */
  function InsertAfter(s: JsString, len: nat, insert: JsString, from: nat, occ: seq<nat>): JsString
    requires Spaced(occ, len, from, |s|)
    decreases |occ|
  {
    SpacedBounds(occ, len, from, |s|);
    if occ == [] then s[from..]
    else
      var end := occ[0] + len;
      SpacedBounds(occ[1..], len, end, |s|);
      s[from..end] + insert + InsertAfter(s, len, insert, end, occ[1..])
  }

  lemma {:induction false} OccurrencesSpaced(s: JsString, pattern: JsString, from: nat)
    requires pattern != [] && from <= |s|
    ensures Spaced(Occurrences(s, pattern, from), |pattern|, from, |s|)
    decreases |s| - from
  {
    var i := IndexOf(s, pattern, from);
    if i != -1 {
      OccurrencesSpaced(s, pattern, i + |pattern|);
      SpacedCons(i, Occurrences(s, pattern, i + |pattern|), |pattern|, from, |s|);
    }
  }

  lemma {:induction false} OccurrencesOrdered(s: JsString, pattern: JsString, from: nat)
    requires pattern != []
    ensures Ordered(Occurrences(s, pattern, from), |pattern|, from)
    ensures forall o | o in Occurrences(s, pattern, from) :: MatchesAt(s, pattern, o)
    decreases |s| - from
  {
    var i := IndexOf(s, pattern, from);
    if i != -1 {
      OccurrencesOrdered(s, pattern, i + |pattern|);
    }
  }

  ghost predicate Ordered(occ: seq<nat>, len: nat, from: nat) {
    && (forall i | 0 <= i < |occ| :: from <= occ[i])
    && (forall i, j | 0 <= i < j < |occ| :: occ[i] + len <= occ[j])
  }

  lemma {:induction false} OccurrencesCover(s: JsString, pattern: JsString, from: nat, k: nat)
    requires pattern != [] && from <= k && MatchesAt(s, pattern, k)
    ensures Covered(Occurrences(s, pattern, from), |pattern|, k)
    decreases |s| - from
  {
    var i := IndexOf(s, pattern, from);
    var occ := Occurrences(s, pattern, from);
    IndexOfIsFirst(s, pattern, from, k);
    if k < i + |pattern| {
      assert occ[0] <= k < occ[0] + |pattern|;
    } else {
      var rest := Occurrences(s, pattern, i + |pattern|);
      OccurrencesCover(s, pattern, i + |pattern|, k);
      var j :| 0 <= j < |rest| && rest[j] <= k < rest[j] + |pattern|;
      assert occ[j + 1] == rest[j];
    }
  }

  /** The scan finds the leftmost non-overlapping occurrences, and no other list is that. */
  lemma OccurrencesAreLeftmost(s: JsString, pattern: JsString, occ: seq<nat>)
    requires pattern != []
    ensures LeftmostOccurrences(s, pattern, occ) <==> occ == Occurrences(s, pattern, 0)
  {
    OccurrencesOrdered(s, pattern, 0);
    forall k | MatchesAt(s, pattern, k) ensures Covered(Occurrences(s, pattern, 0), |pattern|, k) {
      OccurrencesCover(s, pattern, 0, k);
    }
    assert LeftmostOccurrences(s, pattern, Occurrences(s, pattern, 0));
    if LeftmostOccurrences(s, pattern, occ) {
      LeftmostUnique(s, pattern, occ, Occurrences(s, pattern, 0), 0);
    }
  }

  lemma {:induction false} LeftmostUnique(s: JsString, pattern: JsString, a: seq<nat>, b: seq<nat>, n: nat)
    requires pattern != [] && LeftmostOccurrences(s, pattern, a) && LeftmostOccurrences(s, pattern, b)
    requires n <= |a| && n <= |b| && (forall j | 0 <= j < n :: a[j] == b[j])
    ensures a == b
    decreases |a| - n
  {
    if n < |a| && n < |b| {
      assert Covered(b, |pattern|, a[n]) && Covered(a, |pattern|, b[n]);
      NextAgrees(s, pattern, a, b, n);
      NextAgrees(s, pattern, b, a, n);
      LeftmostUnique(s, pattern, a, b, n + 1);
    } else if n < |a| {
      NextAgrees(s, pattern, a, b, n);
    } else if n < |b| {
      NextAgrees(s, pattern, b, a, n);
    }
  }

  /** With equal prefixes, b's n-th entry exists and starts no later than a's. */
  lemma NextAgrees(s: JsString, pattern: JsString, a: seq<nat>, b: seq<nat>, n: nat)
    requires pattern != [] && LeftmostOccurrences(s, pattern, a) && LeftmostOccurrences(s, pattern, b)
    requires n < |a| && n <= |b| && (forall j | 0 <= j < n :: a[j] == b[j])
    ensures n < |b| && b[n] <= a[n]
  {
    assert Covered(b, |pattern|, a[n]);
    var i :| 0 <= i < |b| && b[i] <= a[n] < b[i] + |pattern|;
  }

  /** Conservation: only the insertions are new text, one per occurrence. */
  lemma {:induction false} InsertAfterLength(s: JsString, len: nat, insert: JsString, from: nat, occ: seq<nat>)
    requires Spaced(occ, len, from, |s|)
    ensures from <= |s|
    ensures |InsertAfter(s, len, insert, from, occ)| == |s| - from + |occ| * |insert|
    decreases |occ|
  {
    SpacedBounds(occ, len, from, |s|);
    if occ != [] {
      InsertAfterLength(s, len, insert, occ[0] + len, occ[1..]);
      MulSuccessor(|occ| - 1, |insert|);
      assert |s[from..occ[0] + len]| == occ[0] + len - from;
    }
  }

  lemma MulSuccessor(n: nat, m: nat)
    ensures (n + 1) * m == n * m + m
  {}

  lemma {:induction false} InsertAfterNothing(s: JsString, len: nat, from: nat, occ: seq<nat>)
    requires Spaced(occ, len, from, |s|)
    ensures from <= |s| && InsertAfter(s, len, [], from, occ) == s[from..]
    decreases |occ|
  {
    SpacedBounds(occ, len, from, |s|);
    if occ != [] {
      var end := occ[0] + len;
      InsertAfterNothing(s, len, end, occ[1..]);
      assert s[from..] == s[from..end] + s[end..];
    }
  }

  /** The loop has built `done` and still has to scan from `from`, where the next occurrence is `i`. */
  ghost predicate Underway(goal: JsString, s: JsString, pattern: JsString, insert: JsString, from: int, i: int, done: JsString)
    requires pattern != []
  {
    && 0 <= from <= |s| && i == IndexOf(s, pattern, from)
    && goal == done + Replaced(s, pattern, insert, from)
  }

  /** One turn of the loop moves one stretch from the rest to the result. */
  lemma ReplaceTurn(goal: JsString, s: JsString, pattern: JsString, insert: JsString, from: int, i: int, done: JsString)
    requires pattern != [] && Underway(goal, s, pattern, insert, from, i, done) && i != -1
    ensures 0 <= from <= i && i + |pattern| <= |s|
    ensures var end := i + |pattern|;
            Underway(goal, s, pattern, insert, end, IndexOf(s, pattern, end), done + (s[from..i] + pattern + insert))
  {
    ReplaceTail(s, pattern, insert, from, i);
    Associative(done, s[from..i] + pattern + insert, Replaced(s, pattern, insert, i + |pattern|));
  }

  lemma ReplaceDone(goal: JsString, s: JsString, pattern: JsString, insert: JsString, from: int, done: JsString)
    requires pattern != [] && Underway(goal, s, pattern, insert, from, -1, done)
    ensures 0 <= from <= |s| && goal == done + s[from..]
  {
    ReplacedUnmatched(s, pattern, insert, from);
  }

  lemma ReplaceStart(s: JsString, pattern: JsString, insert: JsString)
    requires pattern != []
    ensures Underway(Replaced(s, pattern, insert, 0), s, pattern, insert, 0, IndexOf(s, pattern, 0), [])
  {
    assert [] + Replaced(s, pattern, insert, 0) == Replaced(s, pattern, insert, 0);
  }

  lemma ReplaceTail(s: JsString, pattern: JsString, insert: JsString, from: nat, i: nat)
    requires pattern != [] && from <= |s| && i == IndexOf(s, pattern, from)
    ensures Replaced(s, pattern, insert, from)
         == s[from..i] + pattern + insert + Replaced(s, pattern, insert, i + |pattern|)
  {
    OccurrencesSpaced(s, pattern, from);
    var rest := Occurrences(s, pattern, i + |pattern|);
    assert Occurrences(s, pattern, from)[1..] == rest;
    SliceThroughMatch(s, pattern, from, i);
  }

  lemma SliceThroughMatch(s: JsString, pattern: JsString, from: nat, i: nat)
    requires from <= i && MatchesAt(s, pattern, i)
    ensures s[from..i + |pattern|] == s[from..i] + pattern
  {
    assert s[from..i + |pattern|] == s[from..i] + s[i..i + |pattern|];
  }

  /** `s` from `from` on with `insert` after every leftmost occurrence of `pattern`. */
  function Replaced(s: JsString, pattern: JsString, insert: JsString, from: nat): JsString
    requires pattern != [] && from <= |s|
  {
    OccurrencesSpaced(s, pattern, from);
    InsertAfter(s, |pattern|, insert, from, Occurrences(s, pattern, from))
  }

  lemma ReplacedUnmatched(s: JsString, pattern: JsString, insert: JsString, from: nat)
    requires pattern != [] && from <= |s| && IndexOf(s, pattern, from) == -1
    ensures Replaced(s, pattern, insert, from) == s[from..]
  {}

  /** The `do/while` loop, whose first turn the early return has secured. The
      source never returns on an empty pattern (see EmptyPatternStalls), so a
      caller owes a nonempty one. */
  method StringReplaceAll(s: JsString, substring: JsString, replacer: JsString) returns (r: JsString)
    requires substring != []
    ensures r == Replaced(s, substring, replacer, 0)
  {
    var index := IndexOf(s, substring, 0);
    if index == -1 {
      ReplacedUnmatched(s, substring, replacer, 0);
      return s;
    }
    var endIndex := 0;
    r := [];
    ghost var goal := Replaced(s, substring, replacer, 0);
    ReplaceStart(s, substring, replacer);
    while index != -1
      invariant Underway(goal, s, substring, replacer, endIndex, index, r)
      decreases |s| - endIndex
    {
      ReplaceTurn(goal, s, substring, replacer, endIndex, index, r);
      r := r + (s[endIndex..index] + substring + replacer);
      endIndex := index + |substring|;
      index := IndexOf(s, substring, endIndex);
    }
    ReplaceDone(goal, s, substring, replacer, endIndex, r);
    r := r + s[endIndex..];
  }

  /** On an empty pattern the search finds its own starting point again, so the
      loop's next (endIndex, index) equals its current one, for ever. */
  lemma EmptyPatternStalls(s: JsString, endIndex: nat)
    requires endIndex <= |s|
    ensures IndexOf(s, [], endIndex) == endIndex
    ensures var index := IndexOf(s, [], endIndex); IndexOf(s, [], index + 0) == index
  {
    assert s[endIndex..endIndex] == [];
  }

  /** Character by character: each terminator t (LF, or CR LF) becomes prefix + t + postfix. */
  function Encase(s: JsString, prefix: JsString, postfix: JsString): JsString {
    if s == [] then []
    else if s[0] == LF then prefix + [LF] + postfix + Encase(s[1..], prefix, postfix)
    else if s[0] == CR && |s| > 1 && s[1] == LF then prefix + [CR, LF] + postfix + Encase(s[2..], prefix, postfix)
    else [s[0]] + Encase(s[1..], prefix, postfix)
  }

  /** A wrapped terminator followed by `rest`. */
  function Wrapped(cr: bool, prefix: JsString, postfix: JsString, rest: JsString): JsString {
    prefix + (if cr then [CR, LF] else [LF]) + postfix + rest
  }

  predicate EndsInCR(s: JsString) {
    s != [] && s[|s| - 1] == CR
  }

  function WithoutCR(s: JsString): JsString {
    if EndsInCR(s) then s[..|s| - 1] else s
  }

  lemma {:induction false} EncaseUpTo(line: JsString, rest: JsString, prefix: JsString, postfix: JsString)
    requires LF !in line
    ensures Encase(line + [LF] + rest, prefix, postfix)
         == WithoutCR(line) + Wrapped(EndsInCR(line), prefix, postfix, Encase(rest, prefix, postfix))
  {
    var s := line + [LF] + rest;
    if line == [] {
      assert s[1..] == rest;
    } else if line == [CR] {
      assert s[2..] == rest;
    } else {
      assert s[1..] == line[1..] + [LF] + rest;
      EncaseUpTo(line[1..], rest, prefix, postfix);
      assert WithoutCR(line) == [line[0]] + WithoutCR(line[1..]);
      Associative([line[0]], WithoutCR(line[1..]),
                  Wrapped(EndsInCR(line), prefix, postfix, Encase(rest, prefix, postfix)));
    }
  }

  lemma {:induction false} EncaseUntouched(s: JsString, prefix: JsString, postfix: JsString)
    requires LF !in s
    ensures Encase(s, prefix, postfix) == s
  {
    if s != [] {
      EncaseUntouched(s[1..], prefix, postfix);
      assert s == [s[0]] + s[1..];
    }
  }

  lemma {:induction false} EncaseNothing(s: JsString)
    ensures Encase(s, [], []) == s
  {
    if s != [] {
      if s[0] == CR && |s| > 1 && s[1] == LF {
        EncaseNothing(s[2..]);
        assert s == [CR, LF] + s[2..];
      } else {
        EncaseNothing(s[1..]);
        assert s == [s[0]] + s[1..];
      }
    }
  }

  /** Empty wrappers give the input back; without a terminator nothing changes. */
  lemma EncaseIdentity(s: JsString, prefix: JsString, postfix: JsString)
    ensures LF !in s ==> Encase(s, prefix, postfix) == s
    ensures Encase(s, [], []) == s
  {
    if LF !in s { EncaseUntouched(s, prefix, postfix); }
    EncaseNothing(s);
  }

  /** The lines of `s`: its pieces between line feeds. */
  function Lines(s: JsString): (r: seq<JsString>)
    ensures r != []
  {
    if s == [] then [[]]
    else
      var rest := Lines(s[1..]);
      if s[0] == LF then [[]] + rest else [[s[0]] + rest[0]] + rest[1..]
  }

  /** One finished line: the closing prefix goes before its CR, if it has one. */
  function Close(line: JsString, prefix: JsString): JsString {
    WithoutCR(line) + prefix + (if EndsInCR(line) then [CR] else [])
  }

  lemma {:induction false} LinesAppend(a: JsString, s: JsString)
    requires LF !in a
    ensures Lines(a + s) == [a + Lines(s)[0]] + Lines(s)[1..]
  {
    if a == [] {
      assert a + s == s && a + Lines(s)[0] == Lines(s)[0];
    } else {
      assert (a + s)[1..] == a[1..] + s;
      LinesAppend(a[1..], s);
      assert a + Lines(s)[0] == [a[0]] + (a[1..] + Lines(s)[0]);
    }
  }

  lemma LinesSplit(a: JsString, s: JsString)
    requires LF !in a
    ensures Lines(a + [LF] + s) == [a] + Lines(s)
  {
    assert a + [LF] + s == a + ([LF] + s);
    assert ([LF] + s)[1..] == s;
    LinesAppend(a, [LF] + s);
    assert a + [] == a;
  }

  /** Every line but the last closed by `prefix`, every line but the first
      reopened by `postfix`. */
  function WrapLines(lines: seq<JsString>, prefix: JsString, postfix: JsString): (r: seq<JsString>)
    requires lines != []
    ensures |r| == |lines|
  {
    if |lines| == 1 then lines
    else
      var rest := WrapLines(lines[1..], prefix, postfix);
      [Close(lines[0], prefix), postfix + rest[0]] + rest[1..]
  }

  /** The lines put together again, every one but the last closed by `prefix`
      and its line feed followed by `postfix`. */
  function Rejoin(lines: seq<JsString>, prefix: JsString, postfix: JsString): JsString
    requires lines != []
  {
    if |lines| == 1 then lines[0]
    else Close(lines[0], prefix) + [LF] + (postfix + Rejoin(lines[1..], prefix, postfix))
  }

  /** Encasing is splitting into lines, closing and reopening each, and joining;
      with newline-free wrappers the result has exactly the lines so made. */
  lemma {:induction false} EncaseWrapsEachLine(s: JsString, prefix: JsString, postfix: JsString)
    ensures Encase(s, prefix, postfix) == Rejoin(Lines(s), prefix, postfix)
    ensures LF !in prefix && LF !in postfix ==>
              Lines(Encase(s, prefix, postfix)) == WrapLines(Lines(s), prefix, postfix)
    decreases |s|
  {
    var i := IndexOfUnit(s, LF);
    if i == -1 {
      EncaseIdentity(s, prefix, postfix);
      LinesAppend(s, []);
      assert s + [] == s;
    } else {
      var line, t := s[..i], s[i + 1..];
      assert s == line + [LF] + t;
      LinesSplit(line, t);
      EncaseWrapsEachLine(t, prefix, postfix);
      var e := Encase(t, prefix, postfix);
      EncaseFirstLine(line, t, prefix, postfix);
      assert Lines(s)[1..] == Lines(t);
      if LF !in prefix && LF !in postfix {
        LinesSplit(Close(line, prefix), postfix + e);
        LinesAppend(postfix, e);
      }
    }
  }

  /** Splitting into lines loses nothing, and no line contains a line feed. */
  lemma {:induction false} LinesComplete(s: JsString)
    ensures Rejoin(Lines(s), [], []) == s && forall line | line in Lines(s) :: LF !in line
  {
    EncaseWrapsEachLine(s, [], []);
    EncaseIdentity(s, [], []);
    LinesFree(s);
  }

  lemma {:induction false} LinesFree(s: JsString)
    ensures forall line | line in Lines(s) :: LF !in line
  {
    if s != [] { LinesFree(s[1..]); }
  }

  lemma EncaseFirstLine(line: JsString, rest: JsString, prefix: JsString, postfix: JsString)
    requires LF !in line
    ensures LF !in prefix ==> LF !in Close(line, prefix)
    ensures Encase(line + [LF] + rest, prefix, postfix)
         == Close(line, prefix) + [LF] + (postfix + Encase(rest, prefix, postfix))
  {
    EncaseUpTo(line, rest, prefix, postfix);
    CloseFlat(WithoutCR(line), EndsInCR(line), prefix, postfix, Encase(rest, prefix, postfix));
  }

  lemma CloseFlat(body: JsString, cr: bool, prefix: JsString, postfix: JsString, e: JsString)
    ensures body + Wrapped(cr, prefix, postfix, e)
         == body + prefix + (if cr then [CR] else []) + [LF] + (postfix + e)
  {
  }

  /** One turn of the loop, for the stretch from `from` to the next LF at `i`. */
  lemma EncaseTurn(s: JsString, prefix: JsString, postfix: JsString, from: nat, i: nat, done: JsString)
    requires from <= i < |s| && s[i] == LF && LF !in s[from..i]
    requires from > 0 ==> s[from - 1] == LF
    ensures var cr := i > 0 && s[i - 1] == CR;
            var stop := if cr then i - 1 else i;
            && from <= stop
            && done + Encase(s[from..], prefix, postfix)
               == done + (s[from..stop] + prefix + (if cr then [CR, LF] else [LF]) + postfix)
                  + Encase(s[i + 1..], prefix, postfix)
  {
    var line, rest := s[from..i], s[i + 1..];
    assert s[from..] == line + [LF] + rest;
    EncaseUpTo(line, rest, prefix, postfix);
    var cr := i > 0 && s[i - 1] == CR;
    var e := Encase(rest, prefix, postfix);
    if i > from { assert line[|line| - 1] == s[i - 1] && line[..|line| - 1] == s[from..i - 1]; }
    WrappedFlat(WithoutCR(line), cr, prefix, postfix, e);
    Associative(done, WithoutCR(line) + prefix + (if cr then [CR, LF] else [LF]) + postfix, e);
  }

  lemma WrappedFlat(body: JsString, cr: bool, prefix: JsString, postfix: JsString, rest: JsString)
    ensures body + Wrapped(cr, prefix, postfix, rest)
         == (body + prefix + (if cr then [CR, LF] else [LF]) + postfix) + rest
  {
  }

  /** The `do/while` loop. The one call site passes the index of the first LF,
      so the first turn is always taken. */
  method StringEncaseCRLFWithFirstIndex(s: JsString, prefix: JsString, postfix: JsString, firstIndex: nat)
    returns (r: JsString)
    requires firstIndex < |s| && firstIndex == IndexOf(s, [LF], 0)
    ensures r == Encase(s, prefix, postfix)
  {
    var index: int := firstIndex;
    var endIndex := 0;
    r := [];
    ghost var goal := Encase(s, prefix, postfix);
    assert s[0..] == s && [] + goal == goal;
    while index != -1
      invariant 0 <= endIndex <= |s|
      invariant index == IndexOf(s, [LF], endIndex)
      invariant endIndex > 0 ==> s[endIndex - 1] == LF
      invariant goal == r + Encase(s[endIndex..], prefix, postfix)
      decreases |s| - endIndex
    {
      IndexOfSingle(s, LF, endIndex);
      var gotCR := index > 0 && s[index - 1] == CR;
      var stop := if gotCR then index - 1 else index;
      EncaseTurn(s, prefix, postfix, endIndex, index, r);
      r := r + (s[endIndex..stop] + prefix + (if gotCR then [CR, LF] else [LF]) + postfix);
      endIndex := index + 1;
      index := IndexOf(s, [LF], endIndex);
    }
    IndexOfSingle(s, LF, endIndex);
    EncaseUntouched(s[endIndex..], prefix, postfix);
    r := r + s[endIndex..];
  }
}
