/** Whole runs of the authentication controller: any calls, in any order, under a
    clock that is positive and never goes back. */
module AuthRuns {
  import opened JsStrings
  import opened Options
  import opened Sequences
  import opened Hashing
  import opened Keys
  import opened AuthStore
  import opened AuthSteps
  import opened AuthChanges
  import opened AuthInvariants

  datatype Timed = Timed(now: nat, event: Event)

  const EMPTY: AuthState := AuthState([], [], [])

  function Run(st: AuthState, es: seq<Timed>): AuthState {
    if es == [] then st
    else
      var last := es[|es| - 1];
      Step(Run(st, es[..|es| - 1]), last.now, last.event)
  }

  /** The clock after a run. */
  function Clock(start: nat, es: seq<Timed>): nat { if es == [] then start else es[|es| - 1].now }

  ghost predicate Legal(st: AuthState, start: nat, es: seq<Timed>) {
    es != [] ==>
      var before, last := es[..|es| - 1], es[|es| - 1];
      && Legal(st, start, before)
      && 0 < last.now && Clock(start, before) <= last.now
      && FreshIn(Run(st, before), last.event)
  }

  /** A run keeps the invariant, and what is stored only evolves. */
  lemma {:induction false} RunKeeps(st: AuthState, start: nat, es: seq<Timed>)
    requires Inv(st, start) && Legal(st, start, es)
    ensures Inv(Run(st, es), Clock(start, es)) && Evolves(st, Run(st, es)) && start <= Clock(start, es)
  {
    if es != [] {
      var before, last := es[..|es| - 1], es[|es| - 1];
      RunKeeps(st, start, before);
      StepKeeps(Run(st, before), Clock(start, before), last.now, last.event);
      EvolvesTransitive(st, Run(st, before), Run(st, es));
    }
  }

  /** Every reachable state satisfies the invariant. */
  lemma Reachable(es: seq<Timed>)
    requires Legal(EMPTY, 0, es)
    ensures Inv(Run(EMPTY, es), Clock(0, es))
  {
    RunKeeps(EMPTY, 0, es);
  }

  /** The invariant still holds when the clock has moved on. */
  lemma InvLater(st: AuthState, before: int, now: int)
    requires Inv(st, before) && before <= now
    ensures Inv(st, now)
  {
    forall u | u in st.users ensures UserOk(u, now) { assert UserOk(u, before); }
    forall r | r in st.loginRequests ensures RequestOk(r, now) { assert RequestOk(r, before); }
    forall s | s in st.sessions ensures SessionOk(s, now) { assert SessionOk(s, before); }
  }

  // ----- finding what is stored -----

  lemma SessionFound(st: AuthState, i: nat)
    requires IdsDistinct(st) && i < |st.sessions|
    ensures FindIndex(st.sessions, WithSessionId(st.sessions[i].userId, st.sessions[i].sessionId)) == i
  {
    forall j | 0 <= j < i ensures SessionKeyOf()(st.sessions[j]) != SessionKeyOf()(st.sessions[i]) {}
    FindIndexOnly(st.sessions, WithSessionId(st.sessions[i].userId, st.sessions[i].sessionId), i);
  }

  lemma UserFound(st: AuthState, u: nat)
    requires IdsDistinct(st) && u < |st.users|
    ensures FindIndex(st.users, WithUserId(st.users[u].id)) == u
  {
    forall j | 0 <= j < u ensures UserKey()(st.users[j]) != UserKey()(st.users[u]) {}
    FindIndexOnly(st.users, WithUserId(st.users[u].id), u);
  }

  lemma RequestFound(st: AuthState, k: nat)
    requires IdsDistinct(st) && k < |st.loginRequests|
    ensures FindIndex(st.loginRequests, WithRequestId(st.loginRequests[k].userId, st.loginRequests[k].requestId)) == k
  {
    forall j | 0 <= j < k ensures RequestKey()(st.loginRequests[j]) != RequestKey()(st.loginRequests[k]) {}
    FindIndexOnly(st.loginRequests, WithRequestId(st.loginRequests[k].userId, st.loginRequests[k].requestId), k);
  }

  lemma OwnerFound(st: AuthState, s: Session)
    requires OwnersOk(st.users, st.sessions) && s in st.sessions
    ensures st.FindUser(s.userId).Some?
  {
    var u :| 0 <= u < |st.users| && st.users[u].id == s.userId;
    FindIndexIsFirst(st.users, WithUserId(s.userId), u);
  }

  /** A user found once is found again, evolved. */
  lemma UserStays(a: AuthState, b: AuthState, id: JsString)
    requires IdsDistinct(a) && IdsDistinct(b) && Evolves(a, b) && a.FindUser(id).Some?
    ensures b.FindUser(id).Some? && UserEvolves(a.FindUser(id).value, b.FindUser(id).value)
  {
    var u := FindIndex(a.users, WithUserId(id));
    assert UserEvolves(a.users[u], b.users[u]);
    UserFound(b, u);
  }

  lemma SessionStays(a: AuthState, b: AuthState, userId: JsString, sessionId: JsString)
    requires IdsDistinct(a) && IdsDistinct(b) && Evolves(a, b) && a.FindSession(userId, sessionId).Some?
    ensures b.FindSession(userId, sessionId).Some?
    ensures SessionEvolves(a.FindSession(userId, sessionId).value, b.FindSession(userId, sessionId).value)
  {
    var i := FindIndex(a.sessions, WithSessionId(userId, sessionId));
    assert SessionEvolves(a.sessions[i], b.sessions[i]);
    SessionFound(b, i);
  }

  // ----- revocation is permanent -----

  /** `revokeTimeMs` is written at most once and is never in the future. */
  lemma RevocationWrittenOnce(st: AuthState, start: nat, es: seq<Timed>, i: nat)
    requires Inv(st, start) && Legal(st, start, es) && i < |st.sessions|
    ensures i < |Run(st, es).sessions|
    ensures var s, later := st.sessions[i], Run(st, es).sessions[i];
            && later.sessionId == s.sessionId && later.userId == s.userId
            && (s.revokeTimeMs.Some? ==> later.revokeTimeMs == s.revokeTimeMs)
            && (later.revokeTimeMs.Some? ==> 0 < later.revokeTimeMs.value <= Clock(start, es))
  {
    RunKeeps(st, start, es);
    assert SessionEvolves(st.sessions[i], Run(st, es).sessions[i]);
    assert SessionOk(Run(st, es).sessions[i], Clock(start, es));
  }

  /** `allSessionRevokeTimeMs` never decreases. */
  lemma RevokeAllNeverDecreases(st: AuthState, start: nat, es: seq<Timed>, u: nat)
    requires Inv(st, start) && Legal(st, start, es) && u < |st.users|
    ensures u < |Run(st, es).users| && Run(st, es).users[u].id == st.users[u].id
    ensures TimeGrows(st.users[u].allSessionRevokeTimeMs, Run(st, es).users[u].allSessionRevokeTimeMs)
  {
    RunKeeps(st, start, es);
    assert UserEvolves(st.users[u], Run(st, es).users[u]);
  }

  /** Refused for revocation, for expiry, or because the secret is wrong. */
  predicate Dead<T>(o: Outcome<T>) { o.Refused? && (o.error.InvalidKey? || o.error.SessionExpired? || o.error.ServerError?) }

  lemma VerdictStaysDead(a: AuthState, b: AuthState, now: int, later: int, s: Session, t: Session)
    requires Inv(a, now) && Inv(b, later) && Evolves(a, b) && now <= later
    requires s in a.sessions && SessionEvolves(s, t) && t.userId == s.userId
    requires Dead(SessionVerdict(a, now, s))
    ensures Dead(SessionVerdict(b, later, t))
  {
    assert SessionOk(s, now);
    OwnerFound(a, s);
    UserStays(a, b, s.userId);
  }

  /** Once a key to a stored session is refused for anything but a ban, it is
      refused in every later state of every run. */
  lemma RefusedForever(st: AuthState, now: nat, key: JsString, es: seq<Timed>, later: nat)
    requires Inv(st, now) && Legal(st, now, es) && Clock(now, es) <= later
    requires ParseV1SessionKey(key).Some?
    requires st.FindSession(ParseV1SessionKey(key).value.userId, ParseV1SessionKey(key).value.sessionId).Some?
    requires Dead(ValidateSessionKey(st, now, key))
    ensures Dead(ValidateSessionKey(Run(st, es), later, key))
  {
    var b := Run(st, es);
    RunKeeps(st, now, es);
    InvLater(b, Clock(now, es), later);
    var parsed := ParseV1SessionKey(key).value;
    SessionStays(st, b, parsed.userId, parsed.sessionId);
    var s, t := st.FindSession(parsed.userId, parsed.sessionId).value, b.FindSession(parsed.userId, parsed.sessionId).value;
    if Hashable(parsed.secret, s.sessionId) && Verifies(parsed.secret, s.sessionId, s.secretHash) {
      VerdictStaysDead(st, b, now, later, s, t);
    }
  }

  // ----- the life of a login request -----

  /** At most five attempts; with five, never completed, and never changed again. */
  lemma ExhaustedNeverCompletes(st: AuthState, start: nat, es: seq<Timed>, k: nat)
    requires Inv(st, start) && Legal(st, start, es) && k < |st.loginRequests|
    ensures k < |Run(st, es).loginRequests|
    ensures var r := Run(st, es).loginRequests[k];
            && r.attemptCount <= MAX_LOGIN_REQUEST_ATTEMPTS
            && (st.loginRequests[k].attemptCount == MAX_LOGIN_REQUEST_ATTEMPTS
                ==> (r == st.loginRequests[k] && r.completedTimeMs.None?))
  {
    RunKeeps(st, start, es);
    assert RequestEvolves(st.loginRequests[k], Run(st, es).loginRequests[k]);
    assert RequestOk(Run(st, es).loginRequests[k], Clock(start, es));
  }

  /** Session i is the one session that names request k. */
  ghost predicate OpensOnly(st: AuthState, k: int, i: int) {
    Opens(st, k, i) && forall j | 0 <= j < |st.sessions| && st.sessions[j].requestId == st.sessions[i].requestId :: j == i
  }

  /** A completed request stays as it was, and opened exactly one session. */
  lemma CompletedOnce(st: AuthState, start: nat, es: seq<Timed>, k: nat)
    requires Inv(st, start) && Legal(st, start, es) && k < |st.loginRequests| && st.loginRequests[k].completedTimeMs.Some?
    ensures k < |Run(st, es).loginRequests| && Run(st, es).loginRequests[k] == st.loginRequests[k]
    ensures exists i :: OpensOnly(Run(st, es), k, i)
  {
    var b := Run(st, es);
    RunKeeps(st, start, es);
    assert RequestEvolves(st.loginRequests[k], b.loginRequests[k]);
    assert CompletedOk(b, k);
    var i :| Opens(b, k, i);
    forall j | 0 <= j < |b.sessions| && b.sessions[j].requestId == b.sessions[i].requestId ensures j == i {
      assert SameRequest(b.sessions[j], b.sessions[i]) && SameRequest(b.sessions[i], b.sessions[j]);
    }
    assert OpensOnly(b, k, i);
  }

  /** A later request for the same user exists. */
  ghost predicate Superseded(st: AuthState, k: nat) {
    k < |st.loginRequests| && exists j :: k < j < |st.loginRequests| && st.loginRequests[j].userId == st.loginRequests[k].userId
  }

  lemma SupersededNotCurrent(st: AuthState, k: nat)
    requires CurrentOk(st.users, st.loginRequests) && Superseded(st, k) && st.FindUser(st.loginRequests[k].userId).Some?
    ensures st.FindUser(st.loginRequests[k].userId).value.currentLoginRequestId != Some(st.loginRequests[k].requestId)
  {
    var u := FindIndex(st.users, WithUserId(st.loginRequests[k].userId));
    assert IsCurrent(st.users, st.loginRequests, u, k) ==> Newest(st.loginRequests, k);
  }

  lemma SupersededStays(a: AuthState, b: AuthState, k: nat)
    requires Evolves(a, b) && Superseded(a, k)
    ensures Superseded(b, k)
  {
    var j :| k < j < |a.loginRequests| && a.loginRequests[j].userId == a.loginRequests[k].userId;
    assert RequestEvolves(a.loginRequests[j], b.loginRequests[j]) && RequestEvolves(a.loginRequests[k], b.loginRequests[k]);
  }

  /** Entering the code of a superseded request is refused. */
  lemma SupersededRefused(st: AuthState, now: nat, k: nat, call: CompleteCall, random: NewSecret)
    requires Inv(st, now) && Superseded(st, k)
    requires call.userId == st.loginRequests[k].userId && call.requestId == st.loginRequests[k].requestId
    ensures CompleteLogin(st, now, call, random).0.Refused?
  {
    SupersededNotCurrentIfFound(st, k);
    if CompleteLogin(st, now, call, random).0.Granted? { CompletedMeans(st, now, call, random); }
  }

  lemma SupersededNotCurrentIfFound(st: AuthState, k: nat)
    requires CurrentOk(st.users, st.loginRequests) && Superseded(st, k)
    ensures var user := st.FindUser(st.loginRequests[k].userId);
            user.Some? ==> user.value.currentLoginRequestId != Some(st.loginRequests[k].requestId)
  {
    if st.FindUser(st.loginRequests[k].userId).Some? { SupersededNotCurrent(st, k); }
  }

  /** No step completes a superseded request. */
  lemma SupersededStep(st: AuthState, before: nat, now: nat, e: Event, k: nat)
    requires Inv(st, before) && before <= now && 0 < now && FreshIn(st, e) && Superseded(st, k)
    ensures k < |Step(st, now, e).loginRequests|
    ensures Step(st, now, e).loginRequests[k].completedTimeMs == st.loginRequests[k].completedTimeMs
  {
    var c := StepChange(st, now, e);
    SupersededNotCurrentIfFound(st, k);
  }

  /** Once a newer request has been issued for a user, no older one completes, in
      any later state of any run, whatever code is entered. */
  lemma {:induction false} OlderNeverCompletes(st: AuthState, start: nat, es: seq<Timed>, k: nat)
    requires Inv(st, start) && Legal(st, start, es) && Superseded(st, k)
    ensures k < |Run(st, es).loginRequests| && Superseded(Run(st, es), k)
    ensures Run(st, es).loginRequests[k].completedTimeMs == st.loginRequests[k].completedTimeMs
    ensures forall now: nat, call: CompleteCall, random | Clock(start, es) <= now
                && call.userId == st.loginRequests[k].userId && call.requestId == st.loginRequests[k].requestId ::
              CompleteLogin(Run(st, es), now, call, random).0.Refused?
  {
    var b := Run(st, es);
    RunKeeps(st, start, es);
    SupersededStays(st, b, k);
    assert RequestEvolves(st.loginRequests[k], b.loginRequests[k]);
    forall now: nat, call: CompleteCall, random | Clock(start, es) <= now
        && call.userId == st.loginRequests[k].userId && call.requestId == st.loginRequests[k].requestId
      ensures CompleteLogin(b, now, call, random).0.Refused?
    {
      InvLater(b, Clock(start, es), now);
      SupersededRefused(b, now, k, call, random);
    }
    if es != [] {
      var before, last := es[..|es| - 1], es[|es| - 1];
      OlderNeverCompletes(st, start, before, k);
      RunKeeps(st, start, before);
      SupersededStep(Run(st, before), Clock(start, before), last.now, last.event, k);
    }
  }

  /** Issuing a request supersedes every earlier one of its user. */
  lemma IssuingSupersedes(st: AuthState, now: nat, call: LoginCall, around: LoginSurroundings, k: nat)
    requires FreshIn(st, LoginAsked(call, around)) && k < |st.loginRequests|
    requires RequestLogin(st, now, call, around).0.Granted?
    requires RequestLogin(st, now, call, around).0.value.userId == st.loginRequests[k].userId
    ensures Superseded(RequestLogin(st, now, call, around).1, k)
  {
    var after := RequestLogin(st, now, call, around).1;
    IssuedLast(st, now, call, around);
    assert after.loginRequests[|st.loginRequests|].userId == st.loginRequests[k].userId;
    assert after.loginRequests[k] == st.loginRequests[k];
  }

  lemma IssuedLast(st: AuthState, now: nat, call: LoginCall, around: LoginSurroundings)
    requires FreshIn(st, LoginAsked(call, around)) && RequestLogin(st, now, call, around).0.Granted?
    ensures exists r :: RequestLogin(st, now, call, around).1.loginRequests == st.loginRequests + [r]
                        && r.userId == RequestLogin(st, now, call, around).0.value.userId
  {
    var kind := call.addressType.value;
    var known := FindIndex(st.users, WithAddress(call.address, kind));
    var user := NewUser(around.newUserId, call.address, kind);
    var r := NewLoginRequest(now, if known == -1 then user.id else st.users[known].id, call, around);
    if known == -1 { RequestIssued(st.SaveNewUser(user), r); } else { RequestIssued(st, r); }
  }
}
