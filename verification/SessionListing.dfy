/** Listing sessions: what a listed revocation time means, and when walking the
    pages returns everything. */
module SessionListing {
  import opened JsStrings
  import opened Options
  import opened Sequences
  import opened AuthStore
  import opened AuthSteps
  import opened AuthChanges
  import opened AuthInvariants

  // ----- what is listed -----

  ghost predicate Descending(xs: seq<Session>) {
    xs != [] ==> (forall y | y in xs[1..] :: y.expireTimeMs <= xs[0].expireTimeMs) && Descending(xs[1..])
  }

  lemma {:induction false} InsertedMembers(s: Session, xs: seq<Session>)
    ensures multiset(InsertNewest(s, xs)) == multiset{s} + multiset(xs)
  {
    if xs != [] && s.expireTimeMs < xs[0].expireTimeMs {
      InsertedMembers(s, xs[1..]);
      assert xs == [xs[0]] + xs[1..];
    }
  }

  lemma {:induction false} InsertedDescending(s: Session, xs: seq<Session>)
    requires Descending(xs)
    ensures Descending(InsertNewest(s, xs))
  {
    var r := InsertNewest(s, xs);
    if xs == [] || xs[0].expireTimeMs <= s.expireTimeMs {
      assert r[1..] == xs;
    } else {
      InsertedDescending(s, xs[1..]);
      InsertedMembers(s, xs[1..]);
      assert r[1..] == InsertNewest(s, xs[1..]);
      forall y | y in r[1..] ensures y.expireTimeMs <= xs[0].expireTimeMs { assert y in multiset(r[1..]); }
    }
  }

  /** Sorting keeps exactly the sessions there were, newest expiry first. */
  lemma {:induction false} SortedNewestFirst(xs: seq<Session>)
    ensures multiset(SortNewestFirst(xs)) == multiset(xs) && Descending(SortNewestFirst(xs))
  {
    if xs != [] {
      SortedNewestFirst(xs[1..]);
      InsertedMembers(xs[0], SortNewestFirst(xs[1..]));
      InsertedDescending(xs[0], SortNewestFirst(xs[1..]));
      assert xs == [xs[0]] + xs[1..];
    }
  }

  function Expiring(t: int): Session -> bool { (s: Session) => s.expireTimeMs == t }

  lemma {:induction false} InsertedStable(s: Session, xs: seq<Session>, t: int)
    ensures Filter(InsertNewest(s, xs), Expiring(t)) == (if s.expireTimeMs == t then [s] else []) + Filter(xs, Expiring(t))
  {
    if xs == [] || xs[0].expireTimeMs <= s.expireTimeMs {
      CountCons(s, xs, Expiring(t));
    } else {
      InsertedStable(s, xs[1..], t);
      CountCons(xs[0], InsertNewest(s, xs[1..]), Expiring(t));
    }
  }

  /** Sessions that expire together are listed in the order they were stored. */
  lemma {:induction false} SortedStable(xs: seq<Session>, t: int)
    ensures Filter(SortNewestFirst(xs), Expiring(t)) == Filter(xs, Expiring(t))
  {
    if xs != [] {
      SortedStable(xs[1..], t);
      InsertedStable(xs[0], SortNewestFirst(xs[1..]), t);
    }
  }

  function Ordered(st: AuthState, userId: JsString): seq<Session> { SortNewestFirst(Filter(st.sessions, OfUser(userId))) }

  /** Every listed session is a stored session of the user. */
  lemma ListedAreStored(st: AuthState, userId: JsString, expireTimeMs: Option<int>, s: Session)
    requires s in st.ListSessions(userId, expireTimeMs)
    ensures s in st.sessions && s.userId == userId
  {
    var ordered := Ordered(st, userId);
    assert s in After(ordered, expireTimeMs);
    if Truthy(expireTimeMs) { FilterMember(ordered, ExpiresBefore(expireTimeMs.value), s); }
    SortedNewestFirst(Filter(st.sessions, OfUser(userId)));
    assert s in multiset(ordered);
    FilterMember(st.sessions, OfUser(userId), s);
  }

  /** A listed revocation time is there exactly when the session would be refused
      for revocation, now or once its expiry no longer hides it; it is the earliest
      revocation that applies, and it is not in the future. */
  lemma ListedTellsVerdict(st: AuthState, now: nat, access: Access, s: Session)
    requires Inv(st, now) && s in st.sessions && s.userId == access.userId
    requires st.FindUser(access.userId).Some?
    requires access.allSessionsRevokedTimeMs == st.FindUser(access.userId).value.allSessionRevokeTimeMs
    ensures var t := Listed(access, s).revokeTimeMs;
            && (SessionVerdict(st, now, s) == Refused(InvalidKey) <==> t.Some? && (now < s.expireTimeMs || s.revokeTimeMs.Some?))
            && (t.Some? ==> t.value <= now)
            && (s.revokeTimeMs.Some? ==> t.Some? && t.value <= s.revokeTimeMs.value)
            && (t.Some? ==> t == s.revokeTimeMs || (t == access.allSessionsRevokedTimeMs && t.value >= s.grantedTimeMs))
  {
    assert SessionOk(s, now);
    var user := st.FindUser(access.userId).value;
    assert user in st.users && UserOk(user, now);
  }

  lemma AccessShowsUser(st: AuthState, now: nat, userId: JsString, key: JsString)
    requires AccessAs(st, now, userId, key).Granted?
    ensures var access := AccessAs(st, now, userId, key).value;
            && access.userId == userId && st.FindUser(userId).Some?
            && access.allSessionsRevokedTimeMs == st.FindUser(userId).value.allSessionRevokeTimeMs
  {
    GrantedByVerdict(st, now, key);
  }

  lemma ListSessionsMeans(st: AuthState, now: nat, userId: JsString, expireTimeMs: Option<int>, key: JsString)
    requires ListSessions(st, now, userId, expireTimeMs, key).Granted?
    ensures AccessAs(st, now, userId, key).Granted?
    ensures ListSessions(st, now, userId, expireTimeMs, key).value
         == ListedAll(AccessAs(st, now, userId, key).value, st.ListSessions(userId, expireTimeMs))
  {}

  /** The same, for what `listSessions` returns in any reachable state. */
  lemma ListedRevocationExact(st: AuthState, now: nat, userId: JsString, expireTimeMs: Option<int>, key: JsString, i: nat)
    requires Inv(st, now) && ListSessions(st, now, userId, expireTimeMs, key).Granted?
    requires i < |ListSessions(st, now, userId, expireTimeMs, key).value|
    ensures i < |st.ListSessions(userId, expireTimeMs)|
    ensures var s := st.ListSessions(userId, expireTimeMs)[i];
            var listed := ListSessions(st, now, userId, expireTimeMs, key).value[i];
            && s in st.sessions && s.userId == userId && listed.sessionId == s.sessionId && listed.expireTimeMs == s.expireTimeMs
            && (SessionVerdict(st, now, s) == Refused(InvalidKey)
                <==> listed.revokeTimeMs.Some? && (now < s.expireTimeMs || s.revokeTimeMs.Some?))
  {
    ListSessionsMeans(st, now, userId, expireTimeMs, key);
    AccessShowsUser(st, now, userId, key);
    var s := st.ListSessions(userId, expireTimeMs)[i];
    ListedAreStored(st, userId, expireTimeMs, s);
    ListedTellsVerdict(st, now, AccessAs(st, now, userId, key).value, s);
  }

  /** Everything else about a listed session is as stored, and the one whose key asked is marked. */
  lemma ListedFields(st: AuthState, now: nat, userId: JsString, expireTimeMs: Option<int>, key: JsString, i: nat)
    requires ListSessions(st, now, userId, expireTimeMs, key).Granted?
    requires i < |ListSessions(st, now, userId, expireTimeMs, key).value|
    ensures i < |st.ListSessions(userId, expireTimeMs)|
    ensures ValidateSessionKey(st, now, key).Granted?
    ensures var s := st.ListSessions(userId, expireTimeMs)[i];
            var listed := ListSessions(st, now, userId, expireTimeMs, key).value[i];
            && listed.userId == s.userId && listed.sessionId == s.sessionId && listed.nextSessionId == s.nextSessionId
            && listed.grantedTimeMs == s.grantedTimeMs && listed.expireTimeMs == s.expireTimeMs && listed.ipAddress == s.ipAddress
            && (listed.currentSession <==> s.sessionId == ValidateSessionKey(st, now, key).value.sessionId)
  {
    ListSessionsMeans(st, now, userId, expireTimeMs, key);
  }

  // ----- walking the pages -----

  ghost predicate PositiveExpiries(st: AuthState) { forall s | s in st.sessions :: s.expireTimeMs > 0 }

  /** What a request for the page after `cursor` chooses from. */
  function Rest(st: AuthState, userId: JsString, cursor: Option<int>): seq<Session> {
    After(Ordered(st, userId), cursor)
  }

  function LastExpiry(page: seq<Session>): Option<int>
    requires page != []
  {
    Some(page[|page| - 1].expireTimeMs)
  }

  /** A page is the first ten of them, or all when there are fewer. */
  lemma PageExact(st: AuthState, userId: JsString, cursor: Option<int>)
    ensures var page, rest := st.ListSessions(userId, cursor), Rest(st, userId, cursor);
            |page| <= 10 && page <= rest && (|page| < 10 ==> page == rest)
  {}

  /** The next page is chosen from what this page left, minus anything that expires with its last session. */
  lemma RestAfter(st: AuthState, userId: JsString, cursor: Option<int>)
    requires PositiveExpiries(st) && Rest(st, userId, cursor) != []
    ensures var c := LastExpiry(FirstTen(Rest(st, userId, cursor)));
            Rest(st, userId, c) == Filter(Rest(st, userId, cursor), ExpiresBefore(c.value))
  {
    var rest := Rest(st, userId, cursor);
    var page := FirstTen(rest);
    var last := page[|page| - 1];
    assert last in rest;
    PositiveRest(st, userId, cursor, last);
    if Truthy(cursor) {
      var p, q := ExpiresBefore(cursor.value), ExpiresBefore(last.expireTimeMs);
      FilterFilter(Ordered(st, userId), p, q);
      FilterSame(Ordered(st, userId), Both(p, q), q);
    }
  }

  lemma PositiveRest(st: AuthState, userId: JsString, cursor: Option<int>, s: Session)
    requires PositiveExpiries(st) && s in Rest(st, userId, cursor)
    ensures s.expireTimeMs > 0 && (Truthy(cursor) ==> s.expireTimeMs < cursor.value)
  {
    var ordered := Ordered(st, userId);
    if Truthy(cursor) { FilterMember(ordered, ExpiresBefore(cursor.value), s); }
    SortedNewestFirst(Filter(st.sessions, OfUser(userId)));
    assert s in multiset(ordered);
    FilterMember(st.sessions, OfUser(userId), s);
  }

  lemma {:induction false} FilterShrinks<T>(xs: seq<T>, p: T -> bool)
    ensures |Filter(xs, p)| <= |xs| && ((exists x | x in xs :: !p(x)) ==> |Filter(xs, p)| < |xs|)
  {
    if xs != [] {
      FilterShrinks(xs[1..], p);
      assert forall x | x in xs :: x == xs[0] || x in xs[1..];
    }
  }

  lemma RestShrinks(st: AuthState, userId: JsString, cursor: Option<int>)
    requires PositiveExpiries(st) && Rest(st, userId, cursor) != []
    ensures |Rest(st, userId, LastExpiry(FirstTen(Rest(st, userId, cursor))))| < |Rest(st, userId, cursor)|
  {
    RestAfter(st, userId, cursor);
    var rest := Rest(st, userId, cursor);
    var page := FirstTen(rest);
    var last := page[|page| - 1];
    assert last in rest && !ExpiresBefore(last.expireTimeMs)(last);
    FilterShrinks(rest, ExpiresBefore(last.expireTimeMs));
  }

  /** All pages, each asked for with the last expiry of the one before, until one is empty. */
  function Walk(st: AuthState, userId: JsString, cursor: Option<int>): seq<Session>
    requires PositiveExpiries(st)
    decreases |Rest(st, userId, cursor)|
  {
    var page := st.ListSessions(userId, cursor);
    if page == [] then []
    else
      RestShrinks(st, userId, cursor);
      page + Walk(st, userId, LastExpiry(page))
  }

  /** Some page ends between two sessions that expire together. */
  predicate SplitsTie(ordered: seq<Session>) {
    |ordered| > PAGE_SIZE
    && (ordered[PAGE_SIZE - 1].expireTimeMs == ordered[PAGE_SIZE].expireTimeMs || SplitsTie(ordered[PAGE_SIZE..]))
  }

  lemma {:induction false} DescendingAt(xs: seq<Session>, i: nat, j: nat)
    requires Descending(xs) && i <= j < |xs|
    ensures xs[j].expireTimeMs <= xs[i].expireTimeMs
  {
    if i == 0 {
      if j > 0 { assert xs[j] in xs[1..]; }
    } else {
      DescendingAt(xs[1..], i - 1, j - 1);
    }
  }

  lemma {:induction false} DescendingSuffix(xs: seq<Session>, i: nat)
    requires Descending(xs) && i <= |xs|
    ensures Descending(xs[i..])
  {
    if i > 0 {
      DescendingSuffix(xs[1..], i - 1);
      assert xs[1..][i - 1..] == xs[i..];
    }
  }

  lemma {:induction false} DescendingFilter(xs: seq<Session>, p: Session -> bool)
    requires Descending(xs)
    ensures Descending(Filter(xs, p))
  {
    if xs != [] {
      DescendingFilter(xs[1..], p);
      var rest := Filter(xs[1..], p);
      assert ([xs[0]] + rest)[1..] == rest;
      forall y | y in rest ensures y in xs[1..] { FilterMember(xs[1..], p, y); }
    }
  }

  /** Filtering drops a prefix that fails the test. */
  lemma {:induction false} FilterSkips<T>(xs: seq<T>, i: nat, p: T -> bool)
    requires i <= |xs| && forall k | 0 <= k < i :: !p(xs[k])
    ensures Filter(xs, p) == Filter(xs[i..], p)
  {
    if i > 0 {
      FilterSkips(xs[1..], i - 1, p);
      assert xs[1..][i - 1..] == xs[i..];
    }
  }

  /** What is left after one page of a descending list. */
  lemma AfterPage(rest: seq<Session>)
    requires Descending(rest) && rest != []
    ensures var c := LastExpiry(FirstTen(rest)).value;
            && Filter(rest, ExpiresBefore(c)) == Filter(rest[|FirstTen(rest)|..], ExpiresBefore(c))
            && (|rest| > PAGE_SIZE && rest[PAGE_SIZE].expireTimeMs < c ==> Filter(rest, ExpiresBefore(c)) == rest[PAGE_SIZE..])
            && (|rest| > PAGE_SIZE && rest[PAGE_SIZE].expireTimeMs == c ==> |Filter(rest, ExpiresBefore(c))| < |rest| - PAGE_SIZE)
  {
    var n := |FirstTen(rest)|;
    var c := rest[n - 1].expireTimeMs;
    forall k | 0 <= k < n ensures !ExpiresBefore(c)(rest[k]) { DescendingAt(rest, k, n - 1); }
    FilterSkips(rest, n, ExpiresBefore(c));
    if |rest| > PAGE_SIZE {
      var left := rest[PAGE_SIZE..];
      assert left[0] == rest[PAGE_SIZE];
      if left[0].expireTimeMs < c {
        forall s | s in left ensures ExpiresBefore(c)(s) {
          var k :| 0 <= k < |left| && left[k] == s;
          DescendingAt(rest, PAGE_SIZE, PAGE_SIZE + k);
        }
        FilterAll(left, ExpiresBefore(c));
      } else {
        FilterShrinks(left, ExpiresBefore(c));
      }
    }
  }

  lemma {:induction false} WalkLength(st: AuthState, userId: JsString, cursor: Option<int>)
    requires PositiveExpiries(st) && Descending(Rest(st, userId, cursor))
    ensures |Walk(st, userId, cursor)| <= |Rest(st, userId, cursor)|
    decreases |Rest(st, userId, cursor)|
  {
    var rest := Rest(st, userId, cursor);
    if rest != [] {
      var c := LastExpiry(FirstTen(rest));
      RestAfter(st, userId, cursor);
      RestShrinks(st, userId, cursor);
      AfterPage(rest);
      FilterShrinks(rest[|FirstTen(rest)|..], ExpiresBefore(c.value));
      DescendingFilter(rest, ExpiresBefore(c.value));
      WalkLength(st, userId, c);
    }
  }

  /** A first page with more behind it is the whole exactly when what follows it is the rest. */
  lemma PageThen(rest: seq<Session>, walked: seq<Session>)
    requires |rest| > PAGE_SIZE
    ensures FirstTen(rest) + walked == rest <==> walked == rest[PAGE_SIZE..]
  {
    var page := FirstTen(rest);
    assert rest == page + rest[PAGE_SIZE..];
    assert (page + walked)[PAGE_SIZE..] == walked;
  }

  lemma {:induction false} WalkFrom(st: AuthState, userId: JsString, cursor: Option<int>)
    requires PositiveExpiries(st) && Descending(Rest(st, userId, cursor))
    ensures Walk(st, userId, cursor) == Rest(st, userId, cursor) <==> !SplitsTie(Rest(st, userId, cursor))
    decreases |Rest(st, userId, cursor)|
  {
    var rest := Rest(st, userId, cursor);
    if rest != [] {
      var page := FirstTen(rest);
      var c := LastExpiry(page);
      RestAfter(st, userId, cursor);
      RestShrinks(st, userId, cursor);
      AfterPage(rest);
      DescendingFilter(rest, ExpiresBefore(c.value));
      var walked := Walk(st, userId, c);
      assert Walk(st, userId, cursor) == page + walked;
      if |rest| <= PAGE_SIZE {
        assert rest[|page|..] == [] && Rest(st, userId, c) == [];
        assert walked == [];
      } else {
        DescendingAt(rest, PAGE_SIZE - 1, PAGE_SIZE);
        PageThen(rest, walked);
        if rest[PAGE_SIZE].expireTimeMs < c.value {
          WalkFrom(st, userId, c);
        } else {
          WalkLength(st, userId, c);
        }
      }
    }
  }

  /** Walking the pages returns all of a user's sessions, each once, newest expiry
      first, exactly when no page boundary falls between two that expire together. */
  lemma WalkExact(st: AuthState, now: int, userId: JsString)
    requires Inv(st, now)
    ensures PositiveExpiries(st)
    ensures Walk(st, userId, None) == Ordered(st, userId) <==> !SplitsTie(Ordered(st, userId))
    ensures multiset(Ordered(st, userId)) == multiset(Filter(st.sessions, OfUser(userId))) && Descending(Ordered(st, userId))
  {
    forall s | s in st.sessions ensures s.expireTimeMs > 0 { assert SessionOk(s, now); }
    SortedNewestFirst(Filter(st.sessions, OfUser(userId)));
    WalkFrom(st, userId, None);
  }

  function Expiry(): Session -> int { (s: Session) => s.expireTimeMs }

  lemma {:induction false} InsertedDistinct(s: Session, xs: seq<Session>)
    requires KeysDistinct(xs, Expiry()) && forall y | y in xs :: y.expireTimeMs != s.expireTimeMs
    ensures KeysDistinct(InsertNewest(s, xs), Expiry())
  {
    if xs != [] && s.expireTimeMs < xs[0].expireTimeMs {
      var rest := InsertNewest(s, xs[1..]);
      assert forall i, j | 0 <= i < j < |xs| - 1 :: xs[1..][i] == xs[i + 1] && xs[1..][j] == xs[j + 1];
      InsertedDistinct(s, xs[1..]);
      InsertedMembers(s, xs[1..]);
      forall y | y in rest ensures y.expireTimeMs != xs[0].expireTimeMs {
        assert y in multiset(rest);
        if y != s {
          var k :| 0 <= k < |xs[1..]| && xs[1..][k] == y;
          assert Expiry()(xs[0]) != Expiry()(xs[k + 1]);
        }
      }
    }
  }

  lemma {:induction false} SortedDistinct(xs: seq<Session>)
    requires KeysDistinct(xs, Expiry())
    ensures KeysDistinct(SortNewestFirst(xs), Expiry())
  {
    if xs != [] {
      SortedDistinct(xs[1..]);
      SortedNewestFirst(xs[1..]);
      var rest := SortNewestFirst(xs[1..]);
      forall y | y in rest ensures y.expireTimeMs != xs[0].expireTimeMs {
        assert y in multiset(rest);
        var k :| 0 <= k < |xs[1..]| && xs[1..][k] == y;
        assert Expiry()(xs[0]) != Expiry()(xs[k + 1]);
      }
      InsertedDistinct(xs[0], rest);
    }
  }

  lemma {:induction false} DistinctSplitsNothing(xs: seq<Session>)
    requires KeysDistinct(xs, Expiry())
    ensures !SplitsTie(xs)
  {
    if |xs| > PAGE_SIZE {
      assert Expiry()(xs[PAGE_SIZE - 1]) != Expiry()(xs[PAGE_SIZE]);
      forall i, j | 0 <= i < j < |xs[PAGE_SIZE..]| ensures Expiry()(xs[PAGE_SIZE..][i]) != Expiry()(xs[PAGE_SIZE..][j]) {
        assert Expiry()(xs[PAGE_SIZE + i]) != Expiry()(xs[PAGE_SIZE + j]);
      }
      DistinctSplitsNothing(xs[PAGE_SIZE..]);
    }
  }

  /** Distinct expiry times are enough. */
  lemma DistinctExpiriesWalkAll(st: AuthState, now: int, userId: JsString)
    requires Inv(st, now) && KeysDistinct(Filter(st.sessions, OfUser(userId)), Expiry())
    ensures PositiveExpiries(st)
    ensures Walk(st, userId, None) == Ordered(st, userId)
    ensures multiset(Walk(st, userId, None)) == multiset(Filter(st.sessions, OfUser(userId)))
  {
    SortedDistinct(Filter(st.sessions, OfUser(userId)));
    DistinctSplitsNothing(Ordered(st, userId));
    WalkExact(st, now, userId);
  }
}
