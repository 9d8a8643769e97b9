/** Stable sorting by a string key (`sortBy`, `sort`), and why its result is unique. */
module Sorting {
  import opened JsStrings
  import opened Sequences

  function Insert<T>(x: T, xs: seq<T>, key: T -> JsString): seq<T> {
    if xs == [] || LexLe(key(x), key(xs[0])) then [x] + xs
    else [xs[0]] + Insert(x, xs[1..], key)
  }

  /** lodash `sortBy(xs, key)`: elements with equal keys keep their order. */
  function SortBy<T>(xs: seq<T>, key: T -> JsString): seq<T> {
    if xs == [] then [] else Insert(xs[0], SortBy(xs[1..], key), key)
  }

  function Itself(): JsString -> JsString { (s: JsString) => s }

  /** `xs.sort()` on strings */
  function Sort(xs: seq<JsString>): seq<JsString> { SortBy(xs, Itself()) }

  ghost predicate Sorted<T>(xs: seq<T>, key: T -> JsString) {
    xs != [] ==> (forall y | y in xs[1..] :: LexLe(key(xs[0]), key(y))) && Sorted(xs[1..], key)
  }

  lemma {:induction false} InsertSorted<T>(x: T, xs: seq<T>, key: T -> JsString)
    requires Sorted(xs, key)
    ensures multiset(Insert(x, xs, key)) == multiset{x} + multiset(xs)
    ensures Sorted(Insert(x, xs, key), key)
  {
    var r := Insert(x, xs, key);
    if xs == [] || LexLe(key(x), key(xs[0])) {
      assert r[1..] == xs;
      forall y | y in xs ensures LexLe(key(x), key(y)) {
        if y != xs[0] { LexTransitive(key(x), key(xs[0]), key(y)); }
      }
    } else {
      InsertSorted(x, xs[1..], key);
      var rest := Insert(x, xs[1..], key);
      assert r[1..] == rest;
      assert xs == [xs[0]] + xs[1..];
      LexTotal(key(x), key(xs[0]));
      forall y | y in rest ensures LexLe(key(xs[0]), key(y)) {
        assert y in multiset(rest);
      }
    }
  }

  lemma {:induction false} SortBySorts<T>(xs: seq<T>, key: T -> JsString)
    ensures multiset(SortBy(xs, key)) == multiset(xs)
    ensures Sorted(SortBy(xs, key), key)
  {
    if xs != [] {
      SortBySorts(xs[1..], key);
      InsertSorted(xs[0], SortBy(xs[1..], key), key);
      assert xs == [xs[0]] + xs[1..];
    }
  }

  function HasKey<T>(key: T -> JsString, k: JsString): T -> bool { (x: T) => key(x) == k }

  lemma {:induction false} InsertStable<T>(x: T, xs: seq<T>, key: T -> JsString, k: JsString)
    ensures Filter(Insert(x, xs, key), HasKey(key, k)) == (if key(x) == k then [x] else []) + Filter(xs, HasKey(key, k))
  {
    if xs == [] || LexLe(key(x), key(xs[0])) {
      CountCons(x, xs, HasKey(key, k));
    } else {
      LexTotal(key(x), key(x));
      InsertStable(x, xs[1..], key, k);
      CountCons(xs[0], Insert(x, xs[1..], key), HasKey(key, k));
    }
  }

  /** Elements with equal keys keep the order they came in. */
  lemma {:induction false} SortStable<T>(xs: seq<T>, key: T -> JsString, k: JsString)
    ensures Filter(SortBy(xs, key), HasKey(key, k)) == Filter(xs, HasKey(key, k))
  {
    if xs != [] {
      SortStable(xs[1..], key, k);
      InsertStable(xs[0], SortBy(xs[1..], key), key, k);
    }
  }

  /** No two different elements share a key. */
  ghost predicate KeysIdentify<T>(xs: seq<T>, key: T -> JsString) {
    forall x, y | x in xs && y in xs && key(x) == key(y) :: x == y
  }

  lemma Cons<T>(x: T, xs: seq<T>)
    ensures multiset([x] + xs) == multiset(xs) + multiset{x}
  {}

  lemma RestsAgree<T>(a: seq<T>, b: seq<T>)
    requires a != [] && b != [] && a[0] == b[0] && multiset(a) == multiset(b)
    ensures multiset(a[1..]) == multiset(b[1..]) && a == [b[0]] + a[1..] && b == [b[0]] + b[1..]
  {
    assert a == [b[0]] + a[1..] && b == [b[0]] + b[1..];
    Cons(b[0], a[1..]);
    Cons(b[0], b[1..]);
    assert multiset(a[1..]) == multiset(a) - multiset{b[0]};
  }

  lemma {:induction false} SortedUnique<T>(a: seq<T>, b: seq<T>, key: T -> JsString)
    requires Sorted(a, key) && Sorted(b, key) && multiset(a) == multiset(b) && KeysIdentify(a, key)
    ensures a == b
  {
    if a == [] {
      assert |multiset(b)| == 0;
    } else {
      assert a[0] in multiset(b);
      assert b != [] && b[0] in multiset(a);
      FirstAgrees(a, b, key);
      RestsAgree(a, b);
      assert forall x | x in a[1..] :: x in a;
      SortedUnique(a[1..], b[1..], key);
    }
  }

  lemma FirstAgrees<T>(a: seq<T>, b: seq<T>, key: T -> JsString)
    requires a != [] && b != [] && Sorted(a, key) && Sorted(b, key) && KeysIdentify(a, key)
    requires a[0] in b && b[0] in a
    ensures a[0] == b[0]
  {
    if a[0] != b[0] {
      assert a[0] in b[1..] && b[0] in a[1..];
      LexAntisymmetric(key(a[0]), key(b[0]));
    }
  }

  /** Two lists of the same elements sort to the same list when keys identify elements. */
  lemma SortByIgnoresOrder<T>(a: seq<T>, b: seq<T>, key: T -> JsString)
    requires multiset(a) == multiset(b) && KeysIdentify(a, key)
    ensures SortBy(a, key) == SortBy(b, key)
  {
    SortBySorts(a, key);
    SortBySorts(b, key);
    var sa := SortBy(a, key);
    forall x | x in sa ensures x in a { assert x in multiset(sa); }
    SortedUnique(sa, SortBy(b, key), key);
  }

  function Mapped<S, T>(xs: seq<S>, f: S -> T): seq<T> {
    if xs == [] then [] else [f(xs[0])] + Mapped(xs[1..], f)
  }

  lemma {:induction false} KeysOfInsert<T>(x: T, xs: seq<T>, key: T -> JsString)
    ensures multiset(Mapped(Insert(x, xs, key), key)) == multiset{key(x)} + multiset(Mapped(xs, key))
  {
    if xs == [] || LexLe(key(x), key(xs[0])) {
      assert ([x] + xs)[1..] == xs;
    } else {
      KeysOfInsert(x, xs[1..], key);
      assert ([xs[0]] + Insert(x, xs[1..], key))[1..] == Insert(x, xs[1..], key);
    }
  }

  lemma {:induction false} KeysOfSorted<T>(xs: seq<T>, key: T -> JsString)
    ensures multiset(Mapped(SortBy(xs, key), key)) == multiset(Mapped(xs, key))
  {
    if xs != [] {
      KeysOfSorted(xs[1..], key);
      KeysOfInsert(xs[0], SortBy(xs[1..], key), key);
    }
  }

  lemma {:induction false} MappedMember<S, T>(xs: seq<S>, f: S -> T, y: T)
    ensures y in Mapped(xs, f) <==> exists x | x in xs :: f(x) == y
  {
    if xs != [] {
      MappedMember(xs[1..], f, y);
      assert forall x | x in xs :: x == xs[0] || x in xs[1..];
    }
  }

  lemma {:induction false} KeysSorted<T>(xs: seq<T>, key: T -> JsString)
    requires Sorted(xs, key)
    ensures Sorted(Mapped(xs, key), Itself())
  {
    if xs != [] {
      KeysSorted(xs[1..], key);
      var ks := Mapped(xs, key);
      assert ks[1..] == Mapped(xs[1..], key);
      forall k | k in ks[1..] ensures LexLe(ks[0], k) {
        MappedMember(xs[1..], key, k);
      }
    }
  }

  /** Sorting elements by key and then taking keys is sorting the keys. */
  lemma KeysOfSortBy<T>(xs: seq<T>, key: T -> JsString)
    ensures Mapped(SortBy(xs, key), key) == Sort(Mapped(xs, key))
  {
    SortBySorts(xs, key);
    KeysSorted(SortBy(xs, key), key);
    KeysOfSorted(xs, key);
    SortBySorts(Mapped(xs, key), Itself());
    SortedUnique(Mapped(SortBy(xs, key), key), Sort(Mapped(xs, key)), Itself());
  }

  // ----- lists that are equal after a mapping -----

  lemma {:induction false} MappedAppend<S, T>(a: seq<S>, b: seq<S>, f: S -> T)
    ensures Mapped(a + b, f) == Mapped(a, f) + Mapped(b, f)
  {
    if a == [] {
      assert a + b == b;
    } else {
      assert (a + b)[1..] == a[1..] + b;
      MappedAppend(a[1..], b, f);
    }
  }

  lemma WithoutOne<T>(xs: seq<T>, x: T) returns (before: seq<T>, after: seq<T>)
    requires x in xs
    ensures xs == before + ([x] + after) && multiset(before + after) == multiset(xs) - multiset{x}
  {
    var j :| 0 <= j < |xs| && xs[j] == x;
    before, after := xs[..j], xs[j + 1..];
    assert xs == before + ([x] + after);
  }

  lemma {:induction false} MappedMultiset<S, T>(a: seq<S>, b: seq<S>, f: S -> T)
    requires multiset(a) == multiset(b)
    ensures multiset(Mapped(a, f)) == multiset(Mapped(b, f))
  {
    if a == [] {
      assert |multiset(b)| == 0;
    } else {
      assert a[0] in multiset(b);
      var before, after := WithoutOne(b, a[0]);
      assert a == [a[0]] + a[1..];
      MappedMultiset(a[1..], before + after, f);
      MappedAppend(before, after, f);
      MappedAppend(before, [a[0]] + after, f);
      assert ([a[0]] + after)[1..] == after;
    }
  }

  /** Mapping commutes with sorting when it keeps the key. */
  lemma {:induction false} MappedInsert<S, T>(x: S, xs: seq<S>, key: S -> JsString, f: S -> T, newKey: T -> JsString)
    requires forall y :: newKey(f(y)) == key(y)
    ensures Mapped(Insert(x, xs, key), f) == Insert(f(x), Mapped(xs, f), newKey)
  {
    if xs == [] || LexLe(key(x), key(xs[0])) {
      assert ([x] + xs)[1..] == xs;
    } else {
      MappedInsert(x, xs[1..], key, f, newKey);
      assert ([xs[0]] + Insert(x, xs[1..], key))[1..] == Insert(x, xs[1..], key);
      assert Mapped(xs, f)[1..] == Mapped(xs[1..], f);
    }
  }

  lemma {:induction false} MappedSort<S, T>(xs: seq<S>, key: S -> JsString, f: S -> T, newKey: T -> JsString)
    requires forall y :: newKey(f(y)) == key(y)
    ensures Mapped(SortBy(xs, key), f) == SortBy(Mapped(xs, f), newKey)
  {
    if xs != [] {
      MappedSort(xs[1..], key, f, newKey);
      MappedInsert(xs[0], SortBy(xs[1..], key), key, f, newKey);
      assert Mapped(xs, f)[1..] == Mapped(xs[1..], f);
    }
  }

  /** Elements with equal keys have equal images. */
  ghost predicate ImagesAgree<S, T>(xs: seq<S>, key: S -> JsString, f: S -> T) {
    forall x, y | x in xs && y in xs && key(x) == key(y) :: f(x) == f(y)
  }

  /** Then the images of the sorted list do not depend on the order of the original. */
  lemma SortedImages<S, T>(a: seq<S>, b: seq<S>, key: S -> JsString, f: S -> T, newKey: T -> JsString)
    requires forall y :: newKey(f(y)) == key(y)
    requires multiset(a) == multiset(b) && ImagesAgree(a, key, f)
    ensures Mapped(SortBy(a, key), f) == Mapped(SortBy(b, key), f)
  {
    MappedSort(a, key, f, newKey);
    MappedSort(b, key, f, newKey);
    MappedMultiset(a, b, f);
    forall u, v | u in Mapped(a, f) && v in Mapped(a, f) && newKey(u) == newKey(v) ensures u == v {
      MappedMember(a, f, u);
      MappedMember(a, f, v);
    }
    SortByIgnoresOrder(Mapped(a, f), Mapped(b, f), newKey);
  }

  /** Otherwise it does: two elements with equal keys keep the order they came in. */
  lemma {:induction false} InsertedTwice<S, T>(x: S, y: S, xs: seq<S>, key: S -> JsString, f: S -> T)
    requires key(x) == key(y) && f(x) != f(y)
    ensures Mapped(Insert(x, Insert(y, xs, key), key), f) != Mapped(Insert(y, Insert(x, xs, key), key), f)
  {
    var a, b := Insert(x, Insert(y, xs, key), key), Insert(y, Insert(x, xs, key), key);
    LexTotal(key(x), key(x));
    if xs == [] || LexLe(key(x), key(xs[0])) {
      assert a == [x] + ([y] + xs) && b == [y] + ([x] + xs);
      assert Mapped(a, f)[0] == f(x) && Mapped(b, f)[0] == f(y);
    } else {
      InsertedTwice(x, y, xs[1..], key, f);
      assert a[1..] == Insert(x, Insert(y, xs[1..], key), key);
      assert b[1..] == Insert(y, Insert(x, xs[1..], key), key);
      assert Mapped(a, f)[1..] == Mapped(a[1..], f) && Mapped(b, f)[1..] == Mapped(b[1..], f);
    }
  }

  lemma OneToFront<T>(xs: seq<T>, x: T) returns (rest: seq<T>)
    requires x in xs
    ensures multiset([x] + rest) == multiset(xs) && forall y | y in xs && y != x :: y in rest
  {
    var before, after := WithoutOne(xs, x);
    rest := before + after;
    Cons(x, rest);
    forall y | y in xs && y != x ensures y in rest { assert y in multiset(rest); }
  }

  /** Two elements of a list, moved to its front in either order. */
  lemma PulledToFront<T>(xs: seq<T>, x: T, y: T) returns (rest: seq<T>)
    requires x in xs && y in xs && x != y
    ensures multiset([x] + ([y] + rest)) == multiset(xs) && multiset([y] + ([x] + rest)) == multiset(xs)
  {
    var others := OneToFront(xs, x);
    rest := OneToFront(others, y);
    Cons(x, others);
    Cons(x, [y] + rest);
    Cons(y, [x] + rest);
    Cons(y, rest);
    Cons(x, rest);
  }
}
