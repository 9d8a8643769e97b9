/** What every step of the authentication controller keeps. */
module AuthInvariants {
  import opened JsStrings
  import opened Options
  import opened Sequences
  import Base64
  import opened Keys
  import opened AuthStore
  import opened AuthSteps
  import opened AuthChanges

  // ----- single items -----

  predicate UserOk(u: User, now: int) {
    Keyable(u.id) && (u.allSessionRevokeTimeMs.Some? ==> 0 < u.allSessionRevokeTimeMs.value <= now)
  }

  predicate RequestOk(r: LoginRequest, now: int) {
    && r.attemptCount <= MAX_LOGIN_REQUEST_ATTEMPTS
    && (r.completedTimeMs.Some? ==> 0 < r.completedTimeMs.value <= now && r.attemptCount < MAX_LOGIN_REQUEST_ATTEMPTS)
  }

  predicate SessionOk(s: Session, now: int) {
    && 0 < s.grantedTimeMs <= now && s.expireTimeMs == s.grantedTimeMs + SESSION_LIFETIME_MS
    && (s.revokeTimeMs.Some? ==> s.grantedTimeMs <= s.revokeTimeMs.value <= now)
    && Keyable(s.sessionId) && Base64.Decode(s.sessionId).Some?
    && (s.previousSessionId.None? <==> s.requestId.Some?)
  }

  ghost predicate UsersOk(st: AuthState, now: int) { forall u | u in st.users :: UserOk(u, now) }
  ghost predicate RequestsOk(st: AuthState, now: int) { forall r | r in st.loginRequests :: RequestOk(r, now) }
  ghost predicate SessionsOk(st: AuthState, now: int) { forall s | s in st.sessions :: SessionOk(s, now) }

  lemma UsersKept(st: AuthState, before: int, now: int, c: Change)
    requires UsersOk(st, before) && before <= now && 0 < now && Proper(st, now, c)
    ensures UsersOk(Changed(st, now, c), now)
  {
    forall u | u in UsersAfter(st, c) ensures UserOk(u, now) {
      if u in st.users { assert UserOk(u, before); }
      if c.KnownUserAsked? || c.UserEdited? { assert st.users[c.u] in st.users; }
    }
  }

  lemma RequestsKept(st: AuthState, before: int, now: int, c: Change)
    requires RequestsOk(st, before) && before <= now && 0 < now && Proper(st, now, c)
    ensures RequestsOk(Changed(st, now, c), now)
  {
    forall r | r in RequestsAfter(st, now, c) ensures RequestOk(r, now) {
      if r in st.loginRequests { assert RequestOk(r, before); }
      if c.CodeWrong? || c.CodeRight? { assert st.loginRequests[c.k] in st.loginRequests; }
    }
  }

  lemma SessionsKept(st: AuthState, before: int, now: int, c: Change)
    requires SessionsOk(st, before) && before <= now && 0 < now && Proper(st, now, c)
    ensures SessionsOk(Changed(st, now, c), now)
  {
    forall s | s in SessionsAfter(st, now, c) ensures SessionOk(s, now) {
      if s in st.sessions { assert SessionOk(s, before); }
      if c.SessionRevoked? || c.SessionReplaced? { assert st.sessions[c.i] in st.sessions; }
    }
  }

  // ----- identifiers -----

  function UserKey(): User -> JsString { (u: User) => u.id }
  function RequestKey(): LoginRequest -> JsString { (r: LoginRequest) => r.requestId }
  function SessionKeyOf(): Session -> JsString { (s: Session) => s.sessionId }

  ghost predicate IdsDistinct(st: AuthState) {
    && KeysDistinct(st.users, UserKey())
    && KeysDistinct(st.loginRequests, RequestKey())
    && KeysDistinct(st.sessions, SessionKeyOf())
  }

  lemma UserIdsKept(st: AuthState, now: int, c: Change)
    requires KeysDistinct(st.users, UserKey()) && Proper(st, now, c)
    ensures KeysDistinct(UsersAfter(st, c), UserKey())
  {
    match c
    case NewUserAsked(user, r) => AppendDistinct(st.users, user.(currentLoginRequestId := Some(r.requestId)), UserKey());
    case KnownUserAsked(u, r) => UpdateDistinct(st.users, u, st.users[u].(currentLoginRequestId := Some(r.requestId)), UserKey());
    case UserEdited(u, user) => UpdateDistinct(st.users, u, user, UserKey());
    case _ =>
  }

  lemma RequestIdsKept(st: AuthState, now: int, c: Change)
    requires KeysDistinct(st.loginRequests, RequestKey()) && Proper(st, now, c)
    ensures KeysDistinct(RequestsAfter(st, now, c), RequestKey())
  {
    var rs := st.loginRequests;
    match c
    case NewUserAsked(_, r) => AppendDistinct(rs, r, RequestKey());
    case KnownUserAsked(_, r) => AppendDistinct(rs, r, RequestKey());
    case CodeWrong(k) => UpdateDistinct(rs, k, rs[k].(attemptCount := rs[k].attemptCount + 1), RequestKey());
    case CodeRight(k, _) => UpdateDistinct(rs, k, rs[k].(completedTimeMs := Some(now)), RequestKey());
    case _ =>
  }

  lemma SessionIdsKept(st: AuthState, now: int, c: Change)
    requires KeysDistinct(st.sessions, SessionKeyOf()) && Proper(st, now, c)
    ensures KeysDistinct(SessionsAfter(st, now, c), SessionKeyOf())
  {
    var ss := st.sessions;
    match c
    case CodeRight(_, s) => AppendDistinct(ss, s, SessionKeyOf());
    case SessionRevoked(i) => UpdateDistinct(ss, i, ss[i].(revokeTimeMs := Some(now)), SessionKeyOf());
    case SessionReplaced(i, s) =>
      var replaced := ss[i].(nextSessionId := Some(s.sessionId), revokeTimeMs := Some(now));
      UpdateDistinct(ss, i, replaced, SessionKeyOf());
      StillFree(st, i, replaced, s.sessionId);
      AppendDistinct(ss[i := replaced], s, SessionKeyOf());
    case _ =>
  }

  // ----- how stored items evolve -----

  predicate TimeGrows(a: Option<int>, b: Option<int>) { a.Some? ==> b.Some? && a.value <= b.value }

  /** Set at most once. */
  predicate WrittenOnce<T(==)>(a: Option<T>, b: Option<T>) { a.Some? ==> b == a }

  predicate UserEvolves(a: User, b: User) { b.id == a.id && TimeGrows(a.allSessionRevokeTimeMs, b.allSessionRevokeTimeMs) }

  /** A completed request, and one with no attempts left, never changes again. */
  predicate RequestEvolves(a: LoginRequest, b: LoginRequest) {
    && b == a.(attemptCount := b.attemptCount, completedTimeMs := b.completedTimeMs)
    && a.attemptCount <= b.attemptCount
    && (a.completedTimeMs.Some? || a.attemptCount >= MAX_LOGIN_REQUEST_ATTEMPTS ==> b == a)
  }

  predicate SessionEvolves(a: Session, b: Session) {
    && b == a.(revokeTimeMs := b.revokeTimeMs, nextSessionId := b.nextSessionId)
    && WrittenOnce(a.revokeTimeMs, b.revokeTimeMs) && WrittenOnce(a.nextSessionId, b.nextSessionId)
  }

  ghost predicate UsersEvolve(a: seq<User>, b: seq<User>) {
    |a| <= |b| && forall i | 0 <= i < |a| :: UserEvolves(a[i], b[i])
  }
  ghost predicate RequestsEvolve(a: seq<LoginRequest>, b: seq<LoginRequest>) {
    |a| <= |b| && forall i | 0 <= i < |a| :: RequestEvolves(a[i], b[i])
  }
  ghost predicate SessionsEvolve(a: seq<Session>, b: seq<Session>) {
    |a| <= |b| && forall i | 0 <= i < |a| :: SessionEvolves(a[i], b[i])
  }

  /** Nothing stored moves or disappears, and fields change only as above. */
  ghost predicate Evolves(a: AuthState, b: AuthState) {
    UsersEvolve(a.users, b.users) && RequestsEvolve(a.loginRequests, b.loginRequests) && SessionsEvolve(a.sessions, b.sessions)
  }

  lemma EvolvesTransitive(a: AuthState, b: AuthState, c: AuthState)
    requires Evolves(a, b) && Evolves(b, c)
    ensures Evolves(a, c)
  {
    forall i | 0 <= i < |a.users| ensures UserEvolves(a.users[i], c.users[i]) {
      assert UserEvolves(b.users[i], c.users[i]);
    }
    forall i | 0 <= i < |a.loginRequests| ensures RequestEvolves(a.loginRequests[i], c.loginRequests[i]) {
      assert RequestEvolves(a.loginRequests[i], b.loginRequests[i]) && RequestEvolves(b.loginRequests[i], c.loginRequests[i]);
    }
    forall i | 0 <= i < |a.sessions| ensures SessionEvolves(a.sessions[i], c.sessions[i]) {
      assert SessionEvolves(a.sessions[i], b.sessions[i]) && SessionEvolves(b.sessions[i], c.sessions[i]);
    }
  }

  lemma ChangeEvolves(st: AuthState, before: int, now: int, c: Change)
    requires UsersOk(st, before) && RequestsOk(st, before) && SessionsOk(st, before) && LinksOk(st.sessions)
    requires before <= now && Proper(st, now, c)
    ensures Evolves(st, Changed(st, now, c))
  {
    forall i | 0 <= i < |st.users| ensures UserEvolves(st.users[i], UsersAfter(st, c)[i]) {
      assert UserOk(st.users[i], before);
    }
    forall i | 0 <= i < |st.loginRequests| ensures RequestEvolves(st.loginRequests[i], RequestsAfter(st, now, c)[i]) {
      assert RequestOk(st.loginRequests[i], before);
    }
    forall i | 0 <= i < |st.sessions| ensures SessionEvolves(st.sessions[i], SessionsAfter(st, now, c)[i]) {
      assert SessionOk(st.sessions[i], before) && FrontOk(st.sessions, i);
    }
  }

  // ----- chains of sessions -----

  /** Session j replaced session i. */
  predicate Links(ss: seq<Session>, i: int, j: int) {
    && 0 <= i < j < |ss|
    && ss[i].nextSessionId == Some(ss[j].sessionId) && ss[j].previousSessionId == Some(ss[i].sessionId)
    && ss[i].userId == ss[j].userId && ss[i].revokeTimeMs.Some?
  }

  ghost predicate BackOk(ss: seq<Session>, j: nat)
    requires j < |ss|
  {
    ss[j].previousSessionId.Some? ==> exists i :: Links(ss, i, j)
  }

  ghost predicate FrontOk(ss: seq<Session>, i: nat)
    requires i < |ss|
  {
    ss[i].nextSessionId.Some? ==> exists j :: Links(ss, i, j)
  }

  ghost predicate LinksOk(ss: seq<Session>) { forall i | 0 <= i < |ss| :: BackOk(ss, i) && FrontOk(ss, i) }

  lemma LinkKept(a: seq<Session>, b: seq<Session>, i: int, j: int)
    requires SessionsEvolve(a, b) && Links(a, i, j)
    ensures Links(b, i, j)
  {
    assert SessionEvolves(a[i], b[i]) && SessionEvolves(a[j], b[j]);
  }

  lemma BackKept(a: seq<Session>, b: seq<Session>, j: nat)
    requires SessionsEvolve(a, b) && j < |a| && BackOk(a, j)
    ensures BackOk(b, j)
  {
    assert SessionEvolves(a[j], b[j]);
    if a[j].previousSessionId.Some? {
      var i :| Links(a, i, j);
      LinkKept(a, b, i, j);
    }
  }

  lemma FrontKept(a: seq<Session>, b: seq<Session>, i: nat)
    requires SessionsEvolve(a, b) && i < |a| && FrontOk(a, i)
    requires b[i].nextSessionId.Some? ==> a[i].nextSessionId.Some? || exists j :: Links(b, i, j)
    ensures FrontOk(b, i)
  {
    if a[i].nextSessionId.Some? {
      var j :| Links(a, i, j);
      LinkKept(a, b, i, j);
    }
  }

  lemma LinksKept(st: AuthState, now: int, c: Change)
    requires LinksOk(st.sessions) && Proper(st, now, c) && SessionsEvolve(st.sessions, SessionsAfter(st, now, c))
    ensures LinksOk(SessionsAfter(st, now, c))
  {
    var a, b := st.sessions, SessionsAfter(st, now, c);
    if c.SessionReplaced? {
      assert Links(b, c.i, |a|);
    }
    forall i | 0 <= i < |b| ensures BackOk(b, i) && FrontOk(b, i) {
      if i < |a| {
        assert BackOk(a, i) && FrontOk(a, i);
        BackKept(a, b, i);
        FrontKept(a, b, i);
      }
    }
  }

  // ----- sessions and the login requests they came from -----

  /** Completing login request k opened session i. */
  predicate Opens(st: AuthState, k: int, i: int) {
    && 0 <= k < |st.loginRequests| && 0 <= i < |st.sessions|
    && st.sessions[i].requestId == Some(st.loginRequests[k].requestId)
    && st.sessions[i].userId == st.loginRequests[k].userId
    && st.loginRequests[k].completedTimeMs == Some(st.sessions[i].grantedTimeMs)
  }

  ghost predicate RootOk(st: AuthState, i: nat)
    requires i < |st.sessions|
  {
    st.sessions[i].requestId.Some? ==> exists k :: Opens(st, k, i)
  }

  ghost predicate CompletedOk(st: AuthState, k: nat)
    requires k < |st.loginRequests|
  {
    st.loginRequests[k].completedTimeMs.Some? ==> exists i :: Opens(st, k, i)
  }

  predicate SameRequest(a: Session, b: Session) { a.requestId.Some? && a.requestId == b.requestId }

  ghost predicate RootsOk(st: AuthState) {
    && (forall i | 0 <= i < |st.sessions| :: RootOk(st, i))
    && (forall k | 0 <= k < |st.loginRequests| :: CompletedOk(st, k))
    && (forall i, j | 0 <= i < j < |st.sessions| :: !SameRequest(st.sessions[i], st.sessions[j]))
  }

  lemma OpensKept(a: AuthState, b: AuthState, k: int, i: int)
    requires Evolves(a, b) && Opens(a, k, i)
    ensures Opens(b, k, i)
  {
    assert RequestEvolves(a.loginRequests[k], b.loginRequests[k]) && SessionEvolves(a.sessions[i], b.sessions[i]);
  }

  lemma RootKept(a: AuthState, b: AuthState, i: nat)
    requires Evolves(a, b) && i < |a.sessions| && RootOk(a, i)
    ensures RootOk(b, i)
  {
    assert SessionEvolves(a.sessions[i], b.sessions[i]);
    if a.sessions[i].requestId.Some? {
      var k :| Opens(a, k, i);
      OpensKept(a, b, k, i);
    }
  }

  lemma CompletedKept(a: AuthState, b: AuthState, k: nat)
    requires Evolves(a, b) && k < |a.loginRequests| && CompletedOk(a, k)
    requires b.loginRequests[k].completedTimeMs.Some? ==> a.loginRequests[k].completedTimeMs.Some? || exists i :: Opens(b, k, i)
    ensures CompletedOk(b, k)
  {
    if a.loginRequests[k].completedTimeMs.Some? {
      var i :| Opens(a, k, i);
      OpensKept(a, b, k, i);
    }
  }

  /** The request a session names is completed, at the moment the session was granted. */
  lemma OpenedByCompleted(st: AuthState, k: nat, i: nat)
    requires RootsOk(st) && KeysDistinct(st.loginRequests, RequestKey())
    requires k < |st.loginRequests| && i < |st.sessions| && st.sessions[i].requestId == Some(st.loginRequests[k].requestId)
    ensures Opens(st, k, i)
  {
    assert RootOk(st, i);
    var k' :| Opens(st, k', i);
    assert RequestKey()(st.loginRequests[k']) == RequestKey()(st.loginRequests[k]);
  }

  /** A pending request has opened nothing. */
  lemma PendingOpenedNothing(st: AuthState, now: int, k: nat, i: nat)
    requires RequestsOk(st, now) && RootsOk(st) && KeysDistinct(st.loginRequests, RequestKey())
    requires k < |st.loginRequests| && i < |st.sessions| && Pending(st.loginRequests[k])
    ensures st.sessions[i].requestId != Some(st.loginRequests[k].requestId)
  {
    assert RequestOk(st.loginRequests[k], now);
    if st.sessions[i].requestId == Some(st.loginRequests[k].requestId) { OpenedByCompleted(st, k, i); }
  }

  lemma RootsKept(st: AuthState, before: int, now: int, c: Change)
    requires RequestsOk(st, before) && RootsOk(st) && KeysDistinct(st.loginRequests, RequestKey())
    requires Proper(st, now, c) && Evolves(st, Changed(st, now, c))
    ensures RootsOk(Changed(st, now, c))
  {
    var b := Changed(st, now, c);
    if c.CodeRight? { assert Opens(b, c.k, |st.sessions|); }
    forall i | 0 <= i < |b.sessions| ensures RootOk(b, i) {
      if i < |st.sessions| {
        assert RootOk(st, i);
        RootKept(st, b, i);
      }
    }
    forall k | 0 <= k < |b.loginRequests| ensures CompletedOk(b, k) {
      if k < |st.loginRequests| {
        assert CompletedOk(st, k);
        CompletedKept(st, b, k);
      }
    }
    RootsStayUnique(st, before, now, c);
  }

  lemma RootsStayUnique(st: AuthState, before: int, now: int, c: Change)
    requires RequestsOk(st, before) && RootsOk(st) && KeysDistinct(st.loginRequests, RequestKey())
    requires Proper(st, now, c) && SessionsEvolve(st.sessions, SessionsAfter(st, now, c))
    ensures forall i, j | 0 <= i < j < |SessionsAfter(st, now, c)| ::
              !SameRequest(SessionsAfter(st, now, c)[i], SessionsAfter(st, now, c)[j])
  {
    var a, b := st.sessions, SessionsAfter(st, now, c);
    forall i, j | 0 <= i < j < |b| ensures !SameRequest(b[i], b[j]) {
      assert SessionEvolves(a[i], b[i]);
      if j < |a| {
        assert SessionEvolves(a[j], b[j]);
        assert !SameRequest(a[i], a[j]);
      } else if c.CodeRight? {
        PendingOpenedNothing(st, before, c.k, i);
      }
    }
  }

  // ----- the current login request, and the owners of sessions -----

  /** k is the request its user may complete. */
  predicate IsCurrent(us: seq<User>, rs: seq<LoginRequest>, u: int, k: int) {
    && 0 <= u < |us| && 0 <= k < |rs|
    && rs[k].userId == us[u].id && us[u].currentLoginRequestId == Some(rs[k].requestId)
  }

  /** No request after k is for the same user. */
  ghost predicate Newest(rs: seq<LoginRequest>, k: int) {
    0 <= k < |rs| && forall j | k < j < |rs| :: rs[j].userId != rs[k].userId
  }

  ghost predicate CurrentOk(us: seq<User>, rs: seq<LoginRequest>) {
    forall u, k | IsCurrent(us, rs, u, k) :: Newest(rs, k)
  }

  lemma NewestKept(a: seq<LoginRequest>, b: seq<LoginRequest>, k: int)
    requires Newest(a, k) && RequestsEvolve(a, b)
    requires forall j | |a| <= j < |b| :: b[j].userId != a[k].userId
    ensures Newest(b, k)
  {
    assert RequestEvolves(a[k], b[k]);
    forall j | k < j < |b| ensures b[j].userId != b[k].userId {
      if j < |a| { assert RequestEvolves(a[j], b[j]); }
    }
  }

  lemma CurrentKept(st: AuthState, now: int, c: Change)
    requires CurrentOk(st.users, st.loginRequests) && KeysDistinct(st.users, UserKey()) && Proper(st, now, c)
    requires RequestsEvolve(st.loginRequests, RequestsAfter(st, now, c))
    ensures CurrentOk(UsersAfter(st, c), RequestsAfter(st, now, c))
  {
    var us, rs := UsersAfter(st, c), RequestsAfter(st, now, c);
    forall u, k | IsCurrent(us, rs, u, k) ensures Newest(rs, k) {
      if k < |st.loginRequests| {
        assert RequestEvolves(st.loginRequests[k], rs[k]);
        CurrentBefore(st, now, c, u, k);
        NewestKept(st.loginRequests, rs, k);
      }
    }
  }

  /** An old request that is current afterwards was current before, and no new request is for its user. */
  lemma CurrentBefore(st: AuthState, now: int, c: Change, u: nat, k: nat)
    requires KeysDistinct(st.users, UserKey()) && Proper(st, now, c)
    requires RequestsEvolve(st.loginRequests, RequestsAfter(st, now, c)) && k < |st.loginRequests|
    requires IsCurrent(UsersAfter(st, c), RequestsAfter(st, now, c), u, k)
    ensures IsCurrent(st.users, st.loginRequests, u, k)
    ensures forall j | |st.loginRequests| <= j < |RequestsAfter(st, now, c)| ::
              RequestsAfter(st, now, c)[j].userId != st.loginRequests[k].userId
  {
    assert RequestEvolves(st.loginRequests[k], RequestsAfter(st, now, c)[k]);
    assert st.loginRequests[k] in st.loginRequests;
    if c.NewUserAsked? && u < |st.users| { assert st.users[u] in st.users; }
    if c.KnownUserAsked? && u != c.u { assert UserKey()(st.users[u]) != UserKey()(st.users[c.u]); }
  }

  ghost predicate HasUser(us: seq<User>, id: JsString) { exists i :: 0 <= i < |us| && us[i].id == id }

  ghost predicate OwnersOk(us: seq<User>, ss: seq<Session>) { forall s | s in ss :: HasUser(us, s.userId) }

  lemma OwnersKept(st: AuthState, now: int, c: Change)
    requires OwnersOk(st.users, st.sessions) && Proper(st, now, c) && UsersEvolve(st.users, UsersAfter(st, c))
    ensures OwnersOk(UsersAfter(st, c), SessionsAfter(st, now, c))
  {
    forall s | s in SessionsAfter(st, now, c) ensures HasUser(UsersAfter(st, c), s.userId) {
      assert HasUser(st.users, s.userId) by {
        if s !in st.sessions {
          if c.SessionRevoked? || c.SessionReplaced? { assert st.sessions[c.i] in st.sessions; }
          if c.CodeRight? || c.SessionReplaced? { var u := FindIndex(st.users, WithUserId(c.session.userId)); }
        }
      }
      var i :| 0 <= i < |st.users| && st.users[i].id == s.userId;
      assert UserEvolves(st.users[i], UsersAfter(st, c)[i]);
    }
  }

  // ----- one unreplaced session for each completed login -----

  function Unreplaced(userId: JsString): Session -> bool { (s: Session) => s.userId == userId && s.nextSessionId.None? }
  function CompletedBy(userId: JsString): LoginRequest -> bool {
    (r: LoginRequest) => r.userId == userId && r.completedTimeMs.Some?
  }

  predicate Balanced(st: AuthState, userId: JsString) {
    Count(st.sessions, Unreplaced(userId)) == Count(st.loginRequests, CompletedBy(userId))
  }

  /** In these states a pending request is not completed. */
  lemma PendingOpen(st: AuthState, now: int, k: nat)
    requires RequestsOk(st, now) && k < |st.loginRequests| && Pending(st.loginRequests[k])
    ensures st.loginRequests[k].completedTimeMs.None?
  {
    assert RequestOk(st.loginRequests[k], now);
  }

  lemma CompletedCount(st: AuthState, before: int, now: int, c: Change, userId: JsString)
    requires RequestsOk(st, before) && Proper(st, now, c)
    ensures Count(RequestsAfter(st, now, c), CompletedBy(userId))
         == Count(st.loginRequests, CompletedBy(userId)) + if c.CodeRight? && c.session.userId == userId then 1 else 0
  {
    var rs := st.loginRequests;
    match c
    case NewUserAsked(_, r) => CountSnoc(rs, r, CompletedBy(userId));
    case KnownUserAsked(_, r) => CountSnoc(rs, r, CompletedBy(userId));
    case CodeWrong(k) => CountUpdate(rs, k, rs[k].(attemptCount := rs[k].attemptCount + 1), CompletedBy(userId));
    case CodeRight(k, s) =>
      PendingOpen(st, before, k);
      CountUpdate(rs, k, rs[k].(completedTimeMs := Some(now)), CompletedBy(userId));
    case _ =>
  }

  /** A session that can be replaced has not been: every replaced one is revoked. */
  lemma ReplaceableUnreplaced(st: AuthState, before: int, now: int, c: Change)
    requires SessionsOk(st, before) && LinksOk(st.sessions) && before <= now && Proper(st, now, c) && c.SessionReplaced?
    ensures st.sessions[c.i].nextSessionId.None?
  {
    assert SessionOk(st.sessions[c.i], before) && FrontOk(st.sessions, c.i);
  }

  lemma UnreplacedCount(st: AuthState, before: int, now: int, c: Change, userId: JsString)
    requires SessionsOk(st, before) && LinksOk(st.sessions) && before <= now && Proper(st, now, c)
    ensures Count(SessionsAfter(st, now, c), Unreplaced(userId))
         == Count(st.sessions, Unreplaced(userId)) + if c.CodeRight? && c.session.userId == userId then 1 else 0
  {
    var ss := st.sessions;
    match c
    case CodeRight(_, s) => CountSnoc(ss, s, Unreplaced(userId));
    case SessionRevoked(i) => CountUpdate(ss, i, ss[i].(revokeTimeMs := Some(now)), Unreplaced(userId));
    case SessionReplaced(i, s) =>
      ReplaceableUnreplaced(st, before, now, c);
      var replaced := ss[i].(nextSessionId := Some(s.sessionId), revokeTimeMs := Some(now));
      CountUpdate(ss, i, replaced, Unreplaced(userId));
      CountSnoc(ss[i := replaced], s, Unreplaced(userId));
    case _ =>
  }

  // ----- all of it -----

  ghost predicate Inv(st: AuthState, now: int) {
    && UsersOk(st, now) && RequestsOk(st, now) && SessionsOk(st, now)
    && IdsDistinct(st)
    && LinksOk(st.sessions) && RootsOk(st)
    && CurrentOk(st.users, st.loginRequests) && OwnersOk(st.users, st.sessions)
    && forall userId :: Balanced(st, userId)
  }

  lemma ChangeKeeps(st: AuthState, before: int, now: int, c: Change)
    requires Inv(st, before) && before <= now && 0 < now && Proper(st, now, c)
    ensures Inv(Changed(st, now, c), now) && Evolves(st, Changed(st, now, c))
  {
    ChangeEvolves(st, before, now, c);
    UsersKept(st, before, now, c);
    RequestsKept(st, before, now, c);
    SessionsKept(st, before, now, c);
    UserIdsKept(st, now, c);
    RequestIdsKept(st, now, c);
    SessionIdsKept(st, now, c);
    LinksKept(st, now, c);
    RootsKept(st, before, now, c);
    CurrentKept(st, now, c);
    OwnersKept(st, now, c);
    forall userId ensures Balanced(Changed(st, now, c), userId) {
      assert Balanced(st, userId);
      CompletedCount(st, before, now, c, userId);
      UnreplacedCount(st, before, now, c, userId);
    }
  }

  /** Every call, made no earlier than the last one and with fresh identifiers, keeps the invariant. */
  lemma StepKeeps(st: AuthState, before: int, now: nat, e: Event)
    requires Inv(st, before) && before <= now && 0 < now && FreshIn(st, e)
    ensures Inv(Step(st, now, e), now) && Evolves(st, Step(st, now, e))
  {
    var c := StepChange(st, now, e);
    ChangeKeeps(st, before, now, c);
  }
}
