/** The list operations the sources use, with the facts about them that the
    proofs share. */
module Sequences {
  function Filter<T>(xs: seq<T>, p: T -> bool): seq<T> {
    if xs == [] then []
    else if p(xs[0]) then [xs[0]] + Filter(xs[1..], p)
    else Filter(xs[1..], p)
  }

  function Count<T>(xs: seq<T>, p: T -> bool): nat {
    if xs == [] then 0 else (if p(xs[0]) then 1 else 0) + Count(xs[1..], p)
  }

  /** `findIndex`: the first index satisfying p, or -1. */
  function FindIndex<T>(xs: seq<T>, p: T -> bool): (r: int)
    ensures -1 <= r < |xs|
    ensures r != -1 ==> p(xs[r])
  {
    if xs == [] then -1
    else if p(xs[0]) then 0
    else
      var r := FindIndex(xs[1..], p);
      if r == -1 then -1 else r + 1
  }

  lemma {:induction false} FindIndexIsFirst<T>(xs: seq<T>, p: T -> bool, k: nat)
    requires k < |xs| && p(xs[k])
    ensures 0 <= FindIndex(xs, p) <= k
  {
    if !p(xs[0]) { FindIndexIsFirst(xs[1..], p, k - 1); }
  }

  lemma {:induction false} FindIndexOnly<T>(xs: seq<T>, p: T -> bool, k: nat)
    requires k < |xs| && p(xs[k])
    requires forall i | 0 <= i < k :: !p(xs[i])
    ensures FindIndex(xs, p) == k
  {
    FindIndexIsFirst(xs, p, k);
  }

  lemma {:induction false} FoundAtEnd<T>(xs: seq<T>, x: T, p: T -> bool)
    requires FindIndex(xs, p) == -1 && p(x)
    ensures FindIndex(xs + [x], p) == |xs|
  {
    if xs == [] {
      assert xs + [x] == [x];
    } else {
      assert (xs + [x])[1..] == xs[1..] + [x];
      FoundAtEnd(xs[1..], x, p);
    }
  }

  lemma {:induction false} FindIndexNone<T>(xs: seq<T>, p: T -> bool)
    requires forall x | x in xs :: !p(x)
    ensures FindIndex(xs, p) == -1
  {
    if xs != [] {
      assert xs[0] in xs;
      FindIndexNone(xs[1..], p);
    }
  }

  function RemoveAt<T>(xs: seq<T>, i: nat): seq<T>
    requires i < |xs|
  {
    xs[..i] + xs[i + 1..]
  }

  /** Drops the first element satisfying p, if any: `findIndex` then `splice`. */
  function RemoveFirst<T>(xs: seq<T>, p: T -> bool): seq<T> {
    var i := FindIndex(xs, p);
    if i == -1 then xs else RemoveAt(xs, i)
  }

  lemma RemoveFirstStep<T>(xs: seq<T>, p: T -> bool)
    ensures xs != [] ==> RemoveFirst(xs, p) == if p(xs[0]) then xs[1..] else [xs[0]] + RemoveFirst(xs[1..], p)
  {
    if xs != [] && !p(xs[0]) {
      var r := FindIndex(xs[1..], p);
      if r != -1 {
        assert xs[..r + 1] == [xs[0]] + xs[1..][..r];
        assert xs[r + 2..] == xs[1..][r + 1..];
        assert RemoveAt(xs, r + 1) == [xs[0]] + RemoveAt(xs[1..], r);
      } else {
        assert xs == [xs[0]] + xs[1..];
      }
    }
  }

  lemma CountCons<T>(x: T, xs: seq<T>, p: T -> bool)
    ensures Count([x] + xs, p) == (if p(x) then 1 else 0) + Count(xs, p)
    ensures Filter([x] + xs, p) == (if p(x) then [x] else []) + Filter(xs, p)
  {
    assert ([x] + xs)[1..] == xs;
  }

  lemma {:induction false} CountSnoc<T>(xs: seq<T>, x: T, p: T -> bool)
    ensures Count(xs + [x], p) == Count(xs, p) + if p(x) then 1 else 0
  {
    if xs == [] {
      assert xs + [x] == [x] + [];
    } else {
      assert xs + [x] == [xs[0]] + (xs[1..] + [x]);
      CountCons(xs[0], xs[1..] + [x], p);
      CountSnoc(xs[1..], x, p);
    }
  }

  lemma {:induction false} FilterSnoc<T>(xs: seq<T>, x: T, p: T -> bool)
    ensures Filter(xs + [x], p) == Filter(xs, p) + if p(x) then [x] else []
  {
    if xs == [] {
      assert xs + [x] == [x];
      assert [x][1..] == [];
    } else {
      assert xs + [x] == [xs[0]] + (xs[1..] + [x]);
      CountCons(xs[0], xs[1..] + [x], p);
      FilterSnoc(xs[1..], x, p);
    }
  }

  /** Removing one element that satisfies p takes one off p's count. */
  lemma {:induction false} CountRemoveSame<T>(xs: seq<T>, p: T -> bool)
    ensures Count(RemoveFirst(xs, p), p) == if Count(xs, p) == 0 then 0 else Count(xs, p) - 1
  {
    RemoveFirstStep(xs, p);
    if xs != [] && !p(xs[0]) {
      CountRemoveSame(xs[1..], p);
      CountCons(xs[0], RemoveFirst(xs[1..], p), p);
    }
  }

  /** Removing an element that satisfies p leaves everything that cannot satisfy p alone. */
  lemma {:induction false} RemoveKeepsOthers<T>(xs: seq<T>, p: T -> bool, q: T -> bool)
    requires forall x | x in xs && p(x) :: !q(x)
    ensures Count(RemoveFirst(xs, p), q) == Count(xs, q)
    ensures Filter(RemoveFirst(xs, p), q) == Filter(xs, q)
  {
    RemoveFirstStep(xs, p);
    if xs != [] && !p(xs[0]) {
      RemoveKeepsOthers(xs[1..], p, q);
      CountCons(xs[0], RemoveFirst(xs[1..], p), q);
    }
  }

  lemma {:induction false} CountPositive<T>(xs: seq<T>, p: T -> bool)
    ensures Count(xs, p) > 0 <==> exists x | x in xs :: p(x)
  {
    if xs != [] {
      CountPositive(xs[1..], p);
      assert forall x | x in xs :: x == xs[0] || x in xs[1..];
    }
  }

  lemma {:induction false} FilterAll<T>(xs: seq<T>, p: T -> bool)
    requires forall x | x in xs :: p(x)
    ensures Filter(xs, p) == xs
  {
    if xs != [] { FilterAll(xs[1..], p); }
  }

  lemma {:induction false} FilterMember<T>(xs: seq<T>, p: T -> bool, x: T)
    ensures x in Filter(xs, p) <==> x in xs && p(x)
  {
    if xs != [] {
      FilterMember(xs[1..], p, x);
      assert x in xs <==> x == xs[0] || x in xs[1..];
    }
  }

  lemma {:induction false} FilterSame<T>(xs: seq<T>, p: T -> bool, q: T -> bool)
    requires forall x | x in xs :: p(x) == q(x)
    ensures Filter(xs, p) == Filter(xs, q)
  {
    if xs != [] { FilterSame(xs[1..], p, q); }
  }

  function Both<T>(p: T -> bool, q: T -> bool): T -> bool { (x: T) => p(x) && q(x) }

  lemma {:induction false} FilterFilter<T>(xs: seq<T>, p: T -> bool, q: T -> bool)
    ensures Filter(Filter(xs, p), q) == Filter(xs, Both(p, q))
  {
    if xs != [] {
      FilterFilter(xs[1..], p, q);
      CountCons(xs[0], Filter(xs[1..], p), q);
    }
  }

  /** A filter that keeps everything satisfying q keeps q's count. */
  lemma {:induction false} CountFilter<T>(xs: seq<T>, p: T -> bool, q: T -> bool)
    requires forall x | x in xs && q(x) :: p(x)
    ensures Count(Filter(xs, p), q) == Count(xs, q)
  {
    if xs != [] {
      CountFilter(xs[1..], p, q);
      CountCons(xs[0], Filter(xs[1..], p), q);
    }
  }

  // ----- lists identified by a key -----

  ghost predicate KeysDistinct<T, K>(xs: seq<T>, key: T -> K) {
    forall i, j | 0 <= i < j < |xs| :: key(xs[i]) != key(xs[j])
  }

  lemma AppendDistinct<T, K>(xs: seq<T>, x: T, key: T -> K)
    requires KeysDistinct(xs, key) && forall y | y in xs :: key(y) != key(x)
    ensures KeysDistinct(xs + [x], key)
  {
    forall i, j | 0 <= i < j < |xs| + 1 ensures key((xs + [x])[i]) != key((xs + [x])[j]) {
      assert xs[i] in xs;
    }
  }

  lemma UpdateDistinct<T, K>(xs: seq<T>, i: nat, x: T, key: T -> K)
    requires KeysDistinct(xs, key) && i < |xs| && key(x) == key(xs[i])
    ensures KeysDistinct(xs[i := x], key)
  {}

  /** Replacing one element changes a count by what that element contributes. */
  lemma {:induction false} CountUpdate<T>(xs: seq<T>, i: nat, x: T, p: T -> bool)
    requires i < |xs|
    ensures Count(xs[i := x], p) + (if p(xs[i]) then 1 else 0) == Count(xs, p) + if p(x) then 1 else 0
  {
    if i == 0 {
      assert xs[0 := x][1..] == xs[1..];
    } else {
      assert xs[i := x][1..] == xs[1..][i - 1 := x];
      CountUpdate(xs[1..], i - 1, x, p);
    }
  }

  lemma {:induction false} CountImplied<T>(xs: seq<T>, p: T -> bool, q: T -> bool)
    requires forall x | x in xs && p(x) :: q(x)
    ensures Count(xs, p) <= Count(xs, q)
  {
    if xs != [] {
      assert xs[0] in xs;
      CountImplied(xs[1..], p, q);
    }
  }
}
