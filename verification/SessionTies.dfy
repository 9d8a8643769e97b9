/** A run that reaches what WalkExact excludes: eleven sessions of one user that
    expire together, so that a page ends between two of them. */
module SessionTies {
  import opened JsStrings
  import opened Options
  import opened Sequences
  import opened Keys
  import opened AuthStore
  import opened AuthSteps
  import opened AuthChanges
  import opened AuthInvariants
  import opened AuthRuns
  import opened SessionListing
  import opened SessionKeys

  // ----- fresh identifiers -----

  function IdText(ids: seq<Random16>, k: nat): JsString
    requires k < |ids|
  {
    Base64.Encode(ids[k])
  }

  function Secret(ids: seq<Random16>, k: nat): NewSecret
    requires k < |ids|
  {
    NewSecret(ids[k], ids[k])
  }

  ghost predicate Different(ids: seq<Random16>) { forall i, j | 0 <= i < j < |ids| :: ids[i] != ids[j] }

  lemma IdsDiffer(ids: seq<Random16>, j: nat, k: nat)
    requires Different(ids) && j < |ids| && k < |ids| && j != k
    ensures IdText(ids, j) != IdText(ids, k)
  {
    Base64.DecodeEncode(ids[j]);
    Base64.DecodeEncode(ids[k]);
  }

  /** No stored session has the k-th identifier or a later one. */
  ghost predicate FreeFrom(st: AuthState, ids: seq<Random16>, k: nat) {
    forall j | k <= j < |ids| :: SessionIdFree(st, IdText(ids, j))
  }

  // ----- replacing the newest session -----

  ghost predicate OfOneFate(ss: seq<Session>, userId: JsString, t: int) {
    forall s | s in ss :: s.userId == userId && s.expireTimeMs == t
  }

  lemma FateKept(ss: seq<Session>, i: nat, changed: Session, next: Session, userId: JsString, t: int)
    requires OfOneFate(ss, userId, t) && i < |ss|
    requires changed.userId == ss[i].userId && changed.expireTimeMs == ss[i].expireTimeMs
    requires next.userId == userId && next.expireTimeMs == t
    ensures OfOneFate(ss[i := changed] + [next], userId, t)
  {
    assert ss[i] in ss;
    assert forall s | s in ss[i := changed] + [next] :: s in ss || s == changed || s == next;
  }

  /** All of the k stored sessions are the user's and expire together; the last
      one is usable with a known secret. */
  ghost predicate Tied(ids: seq<Random16>, st: AuthState, now: nat, userId: JsString, k: nat) {
    && Different(ids) && 0 < k <= |ids| && |st.sessions| == k && FreeFrom(st, ids, k)
    && OfOneFate(st.sessions, userId, now + SESSION_LIFETIME_MS)
    && Unlocks(st.sessions[k - 1], IdText(ids, k - 1)) && Usable(st, now, st.sessions[k - 1])
  }

  function LastKey(ids: seq<Random16>, st: AuthState, now: nat, userId: JsString, k: nat): JsString
    requires Tied(ids, st, now, userId, k)
  {
    assert st.sessions[k - 1] in st.sessions;
    KeyText(st.sessions[k - 1], IdText(ids, k - 1))
  }

  lemma ReplacementGranted(st: AuthState, now: nat, key: JsString, ipAddress: JsString, random: NewSecret)
    requires ValidateSessionKey(st, now, key).Granted? && key != [] && ipAddress != []
    ensures ReplaceSession(st, now, key, ipAddress, random).0.Granted?
    ensures ReplaceSession(st, now, key, ipAddress, random).1.users == st.users
  {
    GrantedMeans(st, now, key);
  }

  lemma LastKeyAccepted(ids: seq<Random16>, st: AuthState, now: nat, userId: JsString, k: nat)
    requires Inv(st, now) && Tied(ids, st, now, userId, k)
    ensures ValidateSessionKey(st, now, LastKey(ids, st, now, userId, k)).Granted?
    ensures ValidateSessionKey(st, now, LastKey(ids, st, now, userId, k)).value.userId == userId
    ensures LastKey(ids, st, now, userId, k) != []
  {
    var s := st.sessions[k - 1];
    assert s in st.sessions;
    KeyOpens(st, now, k - 1, IdText(ids, k - 1));
    VerdictExact(st, now, s);
    assert |LastKey(ids, st, now, userId, k)| >= |SESSION_PREFIX|;
  }

  /** A usable session's user lets any session granted now be used. */
  lemma UsableLater(a: AuthState, b: AuthState, now: nat, s: Session, t: Session)
    requires Usable(a, now, s) && a.users == b.users && t.userId == s.userId && s.grantedTimeMs <= t.grantedTimeMs
    requires t.revokeTimeMs.None? && now < t.expireTimeMs
    ensures Usable(b, now, t)
  {}

  lemma StaysFree(ids: seq<Random16>, st: AuthState, after: AuthState, i: nat, changed: Session, next: Session, k: nat)
    requires Different(ids) && FreeFrom(st, ids, k) && k < |ids| && i < |st.sessions|
             && changed.sessionId == st.sessions[i].sessionId
    requires next.sessionId == IdText(ids, k) && after.sessions == st.sessions[i := changed] + [next]
    ensures FreeFrom(after, ids, k + 1)
  {
    forall j | k + 1 <= j < |ids| ensures SessionIdFree(after, IdText(ids, j)) {
      assert SessionIdFree(st, IdText(ids, j));
      IdsDiffer(ids, j, k);
      assert st.sessions[i] in st.sessions;
      assert forall s | s in after.sessions :: s in st.sessions || s == changed || s == next;
    }
  }

  /** Replacing one of the sessions and adding another of the same user and expiry. */
  lemma TiedNext(ids: seq<Random16>, st: AuthState, after: AuthState, now: nat, userId: JsString, k: nat, i: nat,
                 changed: Session, next: Session)
    requires Tied(ids, st, now, userId, k) && k < |ids| && i < k && SessionsOk(st, now)
    requires changed == st.sessions[i].(nextSessionId := changed.nextSessionId, revokeTimeMs := changed.revokeTimeMs)
    requires after.sessions == st.sessions[i := changed] + [next] && after.users == st.users
    requires next.sessionId == IdText(ids, k) && next.userId == userId && Unlocks(next, IdText(ids, k))
    requires next.grantedTimeMs == now && next.revokeTimeMs.None? && next.expireTimeMs == now + SESSION_LIFETIME_MS
    ensures Tied(ids, after, now, userId, k + 1)
  {
    var last := st.sessions[k - 1];
    assert last in st.sessions && SessionOk(last, now);
    UsableLater(st, after, now, last, next);
    StaysFree(ids, st, after, i, changed, next, k);
    FateKept(st.sessions, i, changed, next, userId, now + SESSION_LIFETIME_MS);
    assert after.sessions[k] == next;
  }

  lemma ReplacedTied(ids: seq<Random16>, st: AuthState, now: nat, userId: JsString, k: nat, ipAddress: JsString)
    requires Inv(st, now) && Tied(ids, st, now, userId, k) && k < |ids| && ipAddress != [] && SessionIdFree(st, IdText(ids, k))
    ensures Tied(ids, ReplaceSession(st, now, LastKey(ids, st, now, userId, k), ipAddress, Secret(ids, k)).1, now, userId, k + 1)
  {
    var key, random := LastKey(ids, st, now, userId, k), Secret(ids, k);
    LastKeyAccepted(ids, st, now, userId, k);
    ReplacementGranted(st, now, key, ipAddress, random);
    var i := ReplacementStores(st, now, key, ipAddress, random);
    var access := ValidateSessionKey(st, now, key).value;
    var next := NextSession(now, access, ipAddress, random);
    var changed := st.sessions[i].(nextSessionId := Some(next.sessionId), revokeTimeMs := Some(now));
    NextSecretUnlocks(now, access, ipAddress, random);
    TiedNext(ids, st, ReplaceSession(st, now, key, ipAddress, random).1, now, userId, k, i, changed, next);
  }

  /** The call that replaces the last session. */
  function NextCall(ids: seq<Random16>, st: AuthState, now: nat, userId: JsString, k: nat, ipAddress: JsString): Event
    requires Tied(ids, st, now, userId, k) && k < |ids|
  {
    Replacing(LastKey(ids, st, now, userId, k), ipAddress, Secret(ids, k))
  }

  lemma ReplaceOnce(ids: seq<Random16>, st: AuthState, now: nat, userId: JsString, k: nat, ipAddress: JsString)
    requires Inv(st, now) && Tied(ids, st, now, userId, k) && k < |ids| && ipAddress != []
    ensures FreshIn(st, NextCall(ids, st, now, userId, k, ipAddress))
    ensures Tied(ids, Step(st, now, NextCall(ids, st, now, userId, k, ipAddress)), now, userId, k + 1)
  {
    assert SessionIdFree(st, IdText(ids, k));
    ReplacedTied(ids, st, now, userId, k, ipAddress);
  }

  // ----- the run -----

  lemma Extended(es: seq<Timed>, now: nat, e: Event)
    requires Legal(EMPTY, 0, es) && 0 < now && Clock(0, es) <= now && FreshIn(Run(EMPTY, es), e)
    ensures Legal(EMPTY, 0, es + [Timed(now, e)])
    ensures Run(EMPTY, es + [Timed(now, e)]) == Step(Run(EMPTY, es), now, e)
    ensures Clock(0, es + [Timed(now, e)]) == now
  {
    assert (es + [Timed(now, e)])[..|es|] == es;
  }

  /** A legal run, ending now, that leaves k tied sessions. */
  ghost predicate Ties(ids: seq<Random16>, es: seq<Timed>, now: nat, userId: JsString, k: nat) {
    Legal(EMPTY, 0, es) && Clock(0, es) == now && Tied(ids, Run(EMPTY, es), now, userId, k)
  }

  lemma TieOneMore(ids: seq<Random16>, es: seq<Timed>, now: nat, userId: JsString, k: nat, ipAddress: JsString)
      returns (longer: seq<Timed>)
    requires Ties(ids, es, now, userId, k) && 0 < now && k < |ids| && ipAddress != []
    ensures Ties(ids, longer, now, userId, k + 1)
  {
    var e := NextCall(ids, Run(EMPTY, es), now, userId, k, ipAddress);
    Reachable(es);
    ReplaceOnce(ids, Run(EMPTY, es), now, userId, k, ipAddress);
    Extended(es, now, e);
    longer := es + [Timed(now, e)];
  }

  lemma {:induction false} ReplaceMany(ids: seq<Random16>, es: seq<Timed>, now: nat, userId: JsString, k: nat,
                                       ipAddress: JsString)
    returns (longer: seq<Timed>)
    requires Ties(ids, es, now, userId, 1) && 0 < now && 0 < k <= |ids| && ipAddress != []
    ensures Ties(ids, longer, now, userId, k)
  {
    if k == 1 {
      longer := es;
    } else {
      var shorter := ReplaceMany(ids, es, now, userId, k - 1, ipAddress);
      longer := TieOneMore(ids, shorter, now, userId, k - 1, ipAddress);
    }
  }

  function FirstCall(login: LoginCall, around: LoginSurroundings): CompleteCall {
    CompleteCall(around.newUserId, Base64.Encode(around.requestBytes), around.code, login.ipAddress)
  }

  lemma OneTied(ids: seq<Random16>, st: AuthState, now: nat, userId: JsString)
    requires ids != [] && Different(ids)
    requires |st.sessions| == 1 && st.sessions[0].userId == userId && st.sessions[0].sessionId == IdText(ids, 0)
    requires st.sessions[0].expireTimeMs == now + SESSION_LIFETIME_MS
    requires Unlocks(st.sessions[0], IdText(ids, 0)) && Usable(st, now, st.sessions[0])
    ensures Tied(ids, st, now, userId, 1)
  {
    assert st.sessions == [st.sessions[0]];
    forall j | 1 <= j < |ids| ensures SessionIdFree(st, IdText(ids, j)) { IdsDiffer(ids, j, 0); }
  }

  /** The key handed out by a first login is accepted at once, so its session is usable. */
  lemma FirstUsable(ids: seq<Random16>, st: AuthState, now: nat, call: CompleteCall)
    requires ids != [] && Different(ids)
    requires Inv(st, now) && 0 < now && st.sessions == [] && CompleteLogin(st, now, call, Secret(ids, 0)).0.Granted?
    requires var (result, after) := CompleteLogin(st, now, call, Secret(ids, 0));
             ValidateSessionKey(after, now, result.value.sessionKey).Granted?
    ensures Tied(ids, CompleteLogin(st, now, call, Secret(ids, 0)).1, now, call.userId, 1)
  {
    var after := CompleteLogin(st, now, call, Secret(ids, 0)).1;
    LoginIssues(st, now, call, Secret(ids, 0));
    LoginKeyExact(st, now, now, call, Secret(ids, 0), [], now);
    assert Run(after, []) == after;
    OneTied(ids, after, now, call.userId);
  }

  lemma FirstTied(ids: seq<Random16>, now: nat, login: LoginCall, around: LoginSurroundings)
    requires ids != [] && Different(ids) && 0 < now && Welcome(EMPTY, login, around) && Keyable(around.newUserId)
    ensures var asked := RequestLogin(EMPTY, now, login, around).1;
            SessionIdFree(asked, IdText(ids, 0))
            && Tied(ids, CompleteLogin(asked, now, FirstCall(login, around), Secret(ids, 0)).1, now, around.newUserId, 1)
  {
    WelcomeIssued(EMPTY, now, login, around);
    NewcomerLogsIn(EMPTY, 0, now, login, around, now, Secret(ids, 0));
    StepKeeps(EMPTY, 0, now, LoginAsked(login, around));
    FirstUsable(ids, RequestLogin(EMPTY, now, login, around).1, now, FirstCall(login, around));
  }

  lemma FirstLogin(ids: seq<Random16>, now: nat, login: LoginCall, around: LoginSurroundings) returns (es: seq<Timed>)
    requires ids != [] && Different(ids) && 0 < now && Welcome(EMPTY, login, around) && Keyable(around.newUserId)
    ensures Ties(ids, es, now, around.newUserId, 1)
  {
    var ask, enter := LoginAsked(login, around), CodeEntered(FirstCall(login, around), Secret(ids, 0));
    FirstTied(ids, now, login, around);
    Extended([], now, ask);
    es := [] + [Timed(now, ask)];
    Extended(es, now, enter);
    es := es + [Timed(now, enter)];
  }

  lemma AllTogether(xs: seq<Session>, t: int)
    requires |xs| == PAGE_SIZE + 1 && forall s | s in xs :: s.expireTimeMs == t
    ensures SplitsTie(SortNewestFirst(xs))
  {
    var ordered := SortNewestFirst(xs);
    SortedNewestFirst(xs);
    assert |multiset(ordered)| == |multiset(xs)|;
    assert ordered[PAGE_SIZE - 1] in multiset(ordered) && ordered[PAGE_SIZE] in multiset(ordered);
  }

  /** For every welcome newcomer and any eleven different identifiers there is a
      run - one login, and ten replacements in the same millisecond - after which
      walking the pages misses a session. */
  lemma WalkCanMiss(ids: seq<Random16>, now: nat, login: LoginCall, around: LoginSurroundings) returns (es: seq<Timed>)
    requires |ids| == PAGE_SIZE + 1 && Different(ids) && 0 < now && Welcome(EMPTY, login, around) && Keyable(around.newUserId)
    ensures Legal(EMPTY, 0, es) && PositiveExpiries(Run(EMPTY, es))
    ensures SplitsTie(Ordered(Run(EMPTY, es), around.newUserId))
    ensures Walk(Run(EMPTY, es), around.newUserId, None) != Ordered(Run(EMPTY, es), around.newUserId)
  {
    var first := FirstLogin(ids, now, login, around);
    es := ReplaceMany(ids, first, now, around.newUserId, PAGE_SIZE + 1, login.ipAddress);
    Reachable(es);
    TieMissed(ids, Run(EMPTY, es), now, around.newUserId);
  }

  lemma TieMissed(ids: seq<Random16>, st: AuthState, now: nat, userId: JsString)
    requires Inv(st, now) && Tied(ids, st, now, userId, PAGE_SIZE + 1)
    ensures PositiveExpiries(st) && SplitsTie(Ordered(st, userId)) && Walk(st, userId, None) != Ordered(st, userId)
  {
    FilterAll(st.sessions, OfUser(userId));
    AllTogether(st.sessions, now + SESSION_LIFETIME_MS);
    WalkExact(st, now, userId);
  }
}
