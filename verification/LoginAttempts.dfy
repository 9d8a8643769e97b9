/** Wrong codes are counted: each one answered "invalid code" uses up one of
    the five attempts of its login request, and nothing else does. */
module LoginAttempts {
  import opened JsStrings
  import opened Sequences
  import opened AuthStore
  import opened AuthSteps
  import opened AuthChanges
  import opened AuthInvariants
  import opened AuthRuns

  /** Refusing a code writes one thing: the named request has one attempt more. */
  lemma WrongCodeCounted(st: AuthState, now: nat, call: CompleteCall, random: NewSecret, k: nat)
    requires IdsDistinct(st) && k < |st.loginRequests|
    requires st.loginRequests[k].userId == call.userId && st.loginRequests[k].requestId == call.requestId
    requires CompleteLogin(st, now, call, random).0 == Refused(InvalidCode)
    ensures var after := CompleteLogin(st, now, call, random).1;
            && after.users == st.users && after.sessions == st.sessions
            && |after.loginRequests| == |st.loginRequests|
            && after.loginRequests[k] == st.loginRequests[k].(attemptCount := st.loginRequests[k].attemptCount + 1)
            && forall j | 0 <= j < |st.loginRequests| && j != k :: after.loginRequests[j] == st.loginRequests[j]
  {
    RequestFound(st, k);
    CodeRejectedMeans(st, now, call, random);
  }

  /** Exactly when a code is refused as wrong: the request is stored, still open
      from that address, and the code is not the one sent. */
  lemma RejectedExact(st: AuthState, now: nat, call: CompleteCall, random: NewSecret, k: nat)
    requires IdsDistinct(st) && k < |st.loginRequests| && CompleteCallError(call).None?
    requires st.loginRequests[k].userId == call.userId && st.loginRequests[k].requestId == call.requestId
    ensures CompleteLogin(st, now, call, random).0 == Refused(InvalidCode)
        <==> && now < st.loginRequests[k].expireTimeMs && OrZero(st.loginRequests[k].completedTimeMs) <= 0
             && st.loginRequests[k].attemptCount < 5 && st.loginRequests[k].ipAddress == call.ipAddress
             && !CodeMatches(st.loginRequests[k], call.code)
  {
    RequestFound(st, k);
  }

  // ----- over whole runs -----

  /** The step answers "invalid code" for this login request. */
  predicate AnswersWrong(st: AuthState, now: nat, e: Event, userId: JsString, requestId: JsString) {
    && e.CodeEntered? && e.complete.userId == userId && e.complete.requestId == requestId
    && CompleteLogin(st, now, e.complete, e.random).0 == Refused(InvalidCode)
  }

  /** How many times a run has answered "invalid code" for a login request. */
  function WrongCodes(st: AuthState, es: seq<Timed>, userId: JsString, requestId: JsString): nat {
    if es == [] then 0
    else
      var before, last := es[..|es| - 1], es[|es| - 1];
      WrongCodes(st, before, userId, requestId)
      + if AnswersWrong(Run(st, before), last.now, last.event, userId, requestId) then 1 else 0
  }

  /** The attempts stored for a login request; a request that does not exist yet has none. */
  function Attempts(st: AuthState, userId: JsString, requestId: JsString): nat {
    var found := st.FindLoginRequest(userId, requestId);
    if found.None? then 0 else found.value.attemptCount
  }

  lemma {:induction false} IndexUpdated<T>(xs: seq<T>, i: nat, x: T, p: T -> bool)
    requires i < |xs| && p(x) == p(xs[i])
    ensures FindIndex(xs[i := x], p) == FindIndex(xs, p)
  {
    if i == 0 {
      assert xs[0 := x][1..] == xs[1..];
    } else {
      assert xs[i := x][1..] == xs[1..][i - 1 := x];
      IndexUpdated(xs[1..], i - 1, x, p);
    }
  }

  lemma {:induction false} IndexAppended<T>(xs: seq<T>, x: T, p: T -> bool)
    ensures FindIndex(xs + [x], p)
         == if FindIndex(xs, p) != -1 then FindIndex(xs, p) else if p(x) then |xs| else -1
  {
    if xs == [] {
      assert xs + [x] == [x] && [x][1..] == [];
    } else {
      assert (xs + [x])[1..] == xs[1..] + [x];
      IndexAppended(xs[1..], x, p);
    }
  }

  lemma UpdatedAttempts(st: AuthState, after: AuthState, i: nat, r: LoginRequest, userId: JsString, requestId: JsString)
    requires i < |st.loginRequests| && after.loginRequests == st.loginRequests[i := r]
    requires r.userId == st.loginRequests[i].userId && r.requestId == st.loginRequests[i].requestId
    ensures Attempts(after, userId, requestId)
         == if FindIndex(st.loginRequests, WithRequestId(userId, requestId)) == i then r.attemptCount
            else Attempts(st, userId, requestId)
  {
    IndexUpdated(st.loginRequests, i, r, WithRequestId(userId, requestId));
  }

  lemma AskingCounts(st: AuthState, now: nat, call: LoginCall, around: LoginSurroundings, userId: JsString, requestId: JsString)
    requires FreshIn(st, LoginAsked(call, around))
    ensures Attempts(RequestLogin(st, now, call, around).1, userId, requestId) == Attempts(st, userId, requestId)
  {
    var (result, after) := RequestLogin(st, now, call, around);
    if result.Granted? {
      var known := st.FindUserByAddress(call.address, call.addressType.value);
      var user := NewUser(around.newUserId, call.address, call.addressType.value);
      var r := NewLoginRequest(now, if known.None? then user.id else known.value.id, call, around);
      if known.None? { RequestIssued(st.SaveNewUser(user), r); } else { RequestIssued(st, r); }
      IndexAppended(st.loginRequests, r, WithRequestId(userId, requestId));
    }
  }

  lemma CodeCounts(st: AuthState, now: nat, call: CompleteCall, random: NewSecret, userId: JsString, requestId: JsString)
    ensures Attempts(CompleteLogin(st, now, call, random).1, userId, requestId)
         == Attempts(st, userId, requestId)
            + if AnswersWrong(st, now, CodeEntered(call, random), userId, requestId) then 1 else 0
  {
    var (result, after) := CompleteLogin(st, now, call, random);
    var k := FindIndex(st.loginRequests, WithRequestId(call.userId, call.requestId));
    if result == Refused(InvalidCode) {
      CodeRejectedMeans(st, now, call, random);
      UpdatedAttempts(st, after, k, after.loginRequests[k], userId, requestId);
      SameIndex(st, k, call.userId, call.requestId, userId, requestId);
    } else if result.Granted? {
      CompletedMeans(st, now, call, random);
      UpdatedAttempts(st, after, k, after.loginRequests[k], userId, requestId);
    } else {
      OtherwiseSame(st, now, call, random);
    }
  }

  lemma SameIndex(st: AuthState, k: int, a: JsString, b: JsString, userId: JsString, requestId: JsString)
    requires k != -1 && k == FindIndex(st.loginRequests, WithRequestId(a, b))
    ensures FindIndex(st.loginRequests, WithRequestId(userId, requestId)) == k <==> a == userId && b == requestId
  {}

  lemma StepCounts(st: AuthState, now: nat, e: Event, userId: JsString, requestId: JsString)
    requires FreshIn(st, e)
    ensures Attempts(Step(st, now, e), userId, requestId)
         == Attempts(st, userId, requestId) + if AnswersWrong(st, now, e, userId, requestId) then 1 else 0
  {
    match e
    case LoginAsked(call, around) => AskingCounts(st, now, call, around, userId, requestId);
    case CodeEntered(call, random) => CodeCounts(st, now, call, random, userId, requestId);
    case _ => OthersKeepRequests(st, now, e);
  }

  lemma OthersKeepRequests(st: AuthState, now: nat, e: Event)
    requires !e.LoginAsked? && !e.CodeEntered?
    ensures Step(st, now, e).loginRequests == st.loginRequests
  {
    match e
    case Revoking(call) => RevokingKeepsRequests(st, now, call);
    case RevokingAll(userId, key) => RevokingAllKeepsRequests(st, now, userId, key);
    case Replacing(key, ipAddress, random) => ReplacingKeepsRequests(st, now, key, ipAddress, random);
    case Updating(userId, key, details, allowAll) => UpdatingKeepsRequests(st, now, userId, key, details, allowAll);
    case Banning(userId, t) =>
  }

  lemma RevokingKeepsRequests(st: AuthState, now: nat, call: RevokeCall)
    ensures RevokeSession(st, now, call).1.loginRequests == st.loginRequests
  {}

  lemma RevokingAllKeepsRequests(st: AuthState, now: nat, userId: JsString, key: JsString)
    ensures RevokeAllSessions(st, now, userId, key).1.loginRequests == st.loginRequests
  {}

  lemma ReplacingKeepsRequests(st: AuthState, now: nat, key: JsString, ipAddress: JsString, random: NewSecret)
    ensures ReplaceSession(st, now, key, ipAddress, random).1.loginRequests == st.loginRequests
  {}

  lemma UpdatingKeepsRequests(st: AuthState, now: nat, userId: JsString, key: JsString, details: Details, allowAll: bool)
    ensures UpdateUserInfo(st, now, userId, key, details, allowAll).1.loginRequests == st.loginRequests
  {}

  /** In every run, the attempts stored for a login request are the wrong codes answered for it. */
  lemma {:induction false} AttemptsCounted(st: AuthState, start: nat, es: seq<Timed>, userId: JsString, requestId: JsString)
    requires Legal(st, start, es)
    ensures Attempts(Run(st, es), userId, requestId)
         == Attempts(st, userId, requestId) + WrongCodes(st, es, userId, requestId)
  {
    if es != [] {
      var before, last := es[..|es| - 1], es[|es| - 1];
      AttemptsCounted(st, start, before, userId, requestId);
      StepCounts(Run(st, before), last.now, last.event, userId, requestId);
    }
  }

  /** Five answers stay five: the run may go on. */
  lemma {:induction false} WrongCodesGrow(st: AuthState, es: seq<Timed>, more: seq<Timed>, userId: JsString, requestId: JsString)
    ensures WrongCodes(st, es, userId, requestId) <= WrongCodes(st, es + more, userId, requestId)
  {
    if more == [] {
      assert es + more == es;
    } else {
      var all := es + more;
      assert all[..|all| - 1] == es + more[..|more| - 1];
      WrongCodesGrow(st, es, more[..|more| - 1], userId, requestId);
    }
  }

  /** So never more than five, and once five codes have been wrong every later
      call for the request is refused, whatever code it brings, and changes nothing. */
  lemma FiveWrongCodes(es: seq<Timed>, more: seq<Timed>, now: nat, call: CompleteCall, random: NewSecret)
    requires Legal(EMPTY, 0, es + more)
    ensures WrongCodes(EMPTY, es + more, call.userId, call.requestId) <= 5
    ensures WrongCodes(EMPTY, es, call.userId, call.requestId) >= 5 && CompleteCallError(call).None?
            ==> CompleteLogin(Run(EMPTY, es + more), now, call, random) == (Refused(InvalidRequest), Run(EMPTY, es + more))
  {
    var st := Run(EMPTY, es + more);
    Reachable(es + more);
    AttemptsCounted(EMPTY, 0, es + more, call.userId, call.requestId);
    WrongCodesGrow(EMPTY, es, more, call.userId, call.requestId);
    var k := FindIndex(st.loginRequests, WithRequestId(call.userId, call.requestId));
    if k != -1 { assert RequestOk(st.loginRequests[k], Clock(0, es + more)); }
  }
}
