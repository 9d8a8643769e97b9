/** Sessions form chains: each starts at one completed login, and only the last
    session of a chain can still be accepted. */
module SessionChains {
  import opened JsStrings
  import opened Sequences
  import opened AuthStore
  import opened AuthSteps
  import opened AuthInvariants
  import opened AuthRuns

  ghost function Previous(ss: seq<Session>, j: nat): (i: nat)
    requires j < |ss| && BackOk(ss, j) && ss[j].previousSessionId.Some?
    ensures Links(ss, i, j)
  {
    var i :| Links(ss, i, j); i
  }

  ghost function Next(ss: seq<Session>, i: nat): (j: nat)
    requires i < |ss| && FrontOk(ss, i) && ss[i].nextSessionId.Some?
    ensures Links(ss, i, j)
  {
    var j :| Links(ss, i, j); j
  }

  /** The first session of i's chain. */
  ghost function Origin(ss: seq<Session>, i: nat): (r: nat)
    requires LinksOk(ss) && i < |ss|
    ensures r <= i && ss[r].previousSessionId.None? && ss[r].userId == ss[i].userId
  {
    assert BackOk(ss, i);
    if ss[i].previousSessionId.None? then i else Origin(ss, Previous(ss, i))
  }

  /** The last session of i's chain; every other one is revoked. */
  ghost function Latest(ss: seq<Session>, i: nat): (r: nat)
    requires LinksOk(ss) && i < |ss|
    ensures i <= r < |ss| && ss[r].nextSessionId.None? && ss[r].userId == ss[i].userId
    ensures i < r ==> ss[i].revokeTimeMs.Some?
    decreases |ss| - i
  {
    assert FrontOk(ss, i);
    if ss[i].nextSessionId.None? then i else Latest(ss, Next(ss, i))
  }

  /** j is reached from i by following replacements. */
  ghost predicate Follows(ss: seq<Session>, i: nat, j: nat)
    requires LinksOk(ss) && i < |ss|
    decreases |ss| - i
  {
    assert FrontOk(ss, i);
    i == j || (ss[i].nextSessionId.Some? && Follows(ss, Next(ss, i), j))
  }

  /** Links pair sessions off: nobody has two predecessors or two successors. */
  lemma LinksUnique(ss: seq<Session>, i: int, j: int, k: int)
    requires KeysDistinct(ss, SessionKeyOf())
    ensures Links(ss, i, k) && Links(ss, j, k) ==> i == j
    ensures Links(ss, k, i) && Links(ss, k, j) ==> i == j
  {
    if 0 <= i < |ss| && 0 <= j < |ss| && i != j {
      assert SessionKeyOf()(ss[i]) != SessionKeyOf()(ss[j]);
    }
  }

  lemma LinkedOrigin(ss: seq<Session>, i: nat, j: nat)
    requires LinksOk(ss) && KeysDistinct(ss, SessionKeyOf()) && Links(ss, i, j)
    ensures Origin(ss, j) == Origin(ss, i)
  {
    LinksUnique(ss, i, Previous(ss, j), j);
  }

  lemma LinkedLatest(ss: seq<Session>, i: nat, j: nat)
    requires LinksOk(ss) && KeysDistinct(ss, SessionKeyOf()) && Links(ss, i, j)
    ensures Latest(ss, i) == Latest(ss, j)
  {
    LinksUnique(ss, j, Next(ss, i), i);
  }

  lemma {:induction false} LatestOfOrigin(ss: seq<Session>, i: nat)
    requires LinksOk(ss) && KeysDistinct(ss, SessionKeyOf()) && i < |ss|
    ensures Latest(ss, Origin(ss, i)) == Latest(ss, i)
  {
    assert BackOk(ss, i);
    if ss[i].previousSessionId.Some? {
      LatestOfOrigin(ss, Previous(ss, i));
      LinkedLatest(ss, Previous(ss, i), i);
    }
  }

  lemma {:induction false} OriginOfLatest(ss: seq<Session>, i: nat)
    requires LinksOk(ss) && KeysDistinct(ss, SessionKeyOf()) && i < |ss|
    ensures Origin(ss, Latest(ss, i)) == Origin(ss, i)
    decreases |ss| - i
  {
    assert FrontOk(ss, i);
    if ss[i].nextSessionId.Some? {
      OriginOfLatest(ss, Next(ss, i));
      LinkedOrigin(ss, i, Next(ss, i));
    }
  }

  /** Chains are disjoint: two sessions start alike exactly when they end alike. */
  lemma ChainsDisjoint(ss: seq<Session>, i: nat, j: nat)
    requires LinksOk(ss) && KeysDistinct(ss, SessionKeyOf()) && i < |ss| && j < |ss|
    ensures Origin(ss, i) == Origin(ss, j) <==> Latest(ss, i) == Latest(ss, j)
  {
    LatestOfOrigin(ss, i);
    LatestOfOrigin(ss, j);
    OriginOfLatest(ss, i);
    OriginOfLatest(ss, j);
  }

  lemma {:induction false} FollowsOrdered(ss: seq<Session>, i: nat, j: nat)
    requires LinksOk(ss) && i < |ss| && Follows(ss, i, j)
    ensures i <= j < |ss|
    decreases |ss| - i
  {
    assert FrontOk(ss, i);
    if i != j { FollowsOrdered(ss, Next(ss, i), j); }
  }

  lemma {:induction false} FollowsSnoc(ss: seq<Session>, i: nat, j: nat, k: nat)
    requires LinksOk(ss) && KeysDistinct(ss, SessionKeyOf()) && i < |ss| && Follows(ss, i, j) && Links(ss, j, k)
    ensures Follows(ss, i, k)
    decreases |ss| - i
  {
    assert FrontOk(ss, i);
    if i == j {
      LinksUnique(ss, k, Next(ss, i), i);
      assert Follows(ss, k, k);
    } else {
      FollowsSnoc(ss, Next(ss, i), j, k);
    }
  }

  lemma {:induction false} OriginReaches(ss: seq<Session>, i: nat)
    requires LinksOk(ss) && KeysDistinct(ss, SessionKeyOf()) && i < |ss|
    ensures Follows(ss, Origin(ss, i), i)
  {
    assert BackOk(ss, i);
    if ss[i].previousSessionId.Some? {
      OriginReaches(ss, Previous(ss, i));
      FollowsSnoc(ss, Origin(ss, i), Previous(ss, i), i);
    }
  }

  lemma {:induction false} FollowsSplits(ss: seq<Session>, i: nat, j: nat, k: nat)
    requires LinksOk(ss) && i < |ss| && Follows(ss, i, j) && Follows(ss, i, k) && j <= k
    ensures j < |ss| && Follows(ss, j, k)
    decreases |ss| - i
  {
    assert FrontOk(ss, i);
    FollowsOrdered(ss, i, j);
    if i != j {
      FollowsSplits(ss, Next(ss, i), j, k);
    }
  }

  /** A chain is one line: of two sessions with the same origin, the later stored
      one is reached from the earlier by replacements, and conversely. */
  lemma ChainIsLine(ss: seq<Session>, i: nat, j: nat)
    requires LinksOk(ss) && KeysDistinct(ss, SessionKeyOf()) && i <= j < |ss|
    ensures Origin(ss, i) == Origin(ss, j) <==> Follows(ss, i, j)
  {
    if Origin(ss, i) == Origin(ss, j) {
      OriginReaches(ss, i);
      OriginReaches(ss, j);
      FollowsSplits(ss, Origin(ss, i), i, j);
    }
    if Follows(ss, i, j) { FollowsKeepsOrigin(ss, i, j); }
  }

  lemma {:induction false} FollowsKeepsOrigin(ss: seq<Session>, i: nat, j: nat)
    requires LinksOk(ss) && KeysDistinct(ss, SessionKeyOf()) && i < |ss| && Follows(ss, i, j)
    ensures j < |ss| && Origin(ss, i) == Origin(ss, j)
    decreases |ss| - i
  {
    assert FrontOk(ss, i);
    if i != j {
      LinkedOrigin(ss, i, Next(ss, i));
      FollowsKeepsOrigin(ss, Next(ss, i), j);
    }
  }

  // ----- chains and logins -----

  /** The login request a session goes back to. */
  ghost function LoginOf(st: AuthState, i: nat): (k: nat)
    requires LinksOk(st.sessions) && RootsOk(st) && i < |st.sessions|
    requires st.sessions[Origin(st.sessions, i)].requestId.Some?
    ensures Opens(st, k, Origin(st.sessions, i))
  {
    assert RootOk(st, Origin(st.sessions, i));
    var k :| Opens(st, k, Origin(st.sessions, i)); k
  }

  lemma OriginHasLogin(st: AuthState, now: int, i: nat)
    requires Inv(st, now) && i < |st.sessions|
    ensures st.sessions[Origin(st.sessions, i)].requestId.Some?
  {
    assert SessionOk(st.sessions[Origin(st.sessions, i)], now);
  }

  /** Each chain goes back to exactly one completed login request of its user,
      and different chains to different requests. */
  lemma ChainsAreLogins(st: AuthState, now: int, i: nat, j: nat)
    requires Inv(st, now) && i < |st.sessions| && j < |st.sessions|
    ensures st.sessions[Origin(st.sessions, i)].requestId.Some? && st.sessions[Origin(st.sessions, j)].requestId.Some?
    ensures var r := st.loginRequests[LoginOf(st, i)]; r.completedTimeMs.Some? && r.userId == st.sessions[i].userId
    ensures LoginOf(st, i) == LoginOf(st, j) <==> Origin(st.sessions, i) == Origin(st.sessions, j)
  {
    OriginHasLogin(st, now, i);
    OriginHasLogin(st, now, j);
    var a, b := Origin(st.sessions, i), Origin(st.sessions, j);
    if LoginOf(st, i) == LoginOf(st, j) {
      assert SameRequest(st.sessions[a], st.sessions[b]) && SameRequest(st.sessions[b], st.sessions[a]);
    }
    if a == b { LoginUnique(st, LoginOf(st, i), LoginOf(st, j), a); }
  }

  lemma LoginUnique(st: AuthState, k: nat, l: nat, i: nat)
    requires IdsDistinct(st) && Opens(st, k, i) && Opens(st, l, i)
    ensures k == l
  {
    assert RequestKey()(st.loginRequests[k]) == RequestKey()(st.loginRequests[l]);
  }

  /** Every completed login request has a chain. */
  lemma LoginsHaveChains(st: AuthState, now: int, k: nat)
    requires Inv(st, now) && k < |st.loginRequests| && st.loginRequests[k].completedTimeMs.Some?
    ensures exists i :: Opens(st, k, i) && Origin(st.sessions, i) == i
  {
    assert CompletedOk(st, k);
    var i :| Opens(st, k, i);
    assert SessionOk(st.sessions[i], now) && BackOk(st.sessions, i);
    assert Origin(st.sessions, i) == i;
  }

  // ----- acceptance -----

  predicate Accepted(st: AuthState, now: int, s: Session) { SessionVerdict(st, now, s).Granted? }

  /** Only the last session of a chain is ever accepted. */
  lemma AcceptedIsLatest(st: AuthState, now: int, i: nat)
    requires Inv(st, now) && i < |st.sessions| && Accepted(st, now, st.sessions[i])
    ensures Latest(st.sessions, i) == i && st.sessions[i].revokeTimeMs.None? && st.sessions[i].nextSessionId.None?
  {
    assert SessionOk(st.sessions[i], now) && FrontOk(st.sessions, i);
  }

  /** Two different accepted sessions come from two different completed logins. */
  lemma AcceptedByDifferentLogins(st: AuthState, now: int, i: nat, j: nat)
    requires Inv(st, now) && i < |st.sessions| && j < |st.sessions|
    requires Accepted(st, now, st.sessions[i]) && Accepted(st, now, st.sessions[j])
    ensures st.sessions[Origin(st.sessions, i)].requestId.Some? && st.sessions[Origin(st.sessions, j)].requestId.Some?
    ensures i == j <==> LoginOf(st, i) == LoginOf(st, j)
  {
    ChainsAreLogins(st, now, i, j);
    ChainsDisjoint(st.sessions, i, j);
    AcceptedIsLatest(st, now, i);
    AcceptedIsLatest(st, now, j);
  }

  function AcceptedOf(st: AuthState, now: int, userId: JsString): Session -> bool {
    (s: Session) => s.userId == userId && Accepted(st, now, s)
  }

  /** In every reachable state a user's accepted sessions never outnumber that
      user's completed login requests. */
  lemma AcceptedWithinLogins(es: seq<Timed>, now: nat, userId: JsString)
    requires Legal(EMPTY, 0, es) && Clock(0, es) <= now
    ensures Count(Run(EMPTY, es).sessions, AcceptedOf(Run(EMPTY, es), now, userId))
         <= Count(Run(EMPTY, es).loginRequests, CompletedBy(userId))
  {
    var st := Run(EMPTY, es);
    Reachable(es);
    InvLater(st, Clock(0, es), now);
    forall s | s in st.sessions && AcceptedOf(st, now, userId)(s) ensures Unreplaced(userId)(s) {
      var i :| 0 <= i < |st.sessions| && st.sessions[i] == s;
      AcceptedIsLatest(st, now, i);
    }
    CountImplied(st.sessions, AcceptedOf(st, now, userId), Unreplaced(userId));
    assert Balanced(st, userId);
  }
}
