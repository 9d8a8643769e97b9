/** What the session keys that the controller hands out are good for, and for how long. */
module SessionKeys {
  import opened JsStrings
  import opened Options
  import opened Sequences
  import opened Utf8
  import opened Hashing
  import opened Keys
  import opened AuthStore
  import opened AuthSteps
  import opened AuthChanges
  import opened AuthInvariants
  import opened AuthRuns

  /** The secret opens the session. */
  predicate Unlocks(s: Session, secret: JsString) {
    Keyable(secret) && Hashable(secret, s.sessionId) && Verifies(secret, s.sessionId, s.secretHash)
  }

  lemma OwnerKeyable(st: AuthState, now: int, s: Session)
    requires Inv(st, now) && s in st.sessions
    ensures Keyable(s.userId)
  {
    assert HasUser(st.users, s.userId);
    var u :| 0 <= u < |st.users| && st.users[u].id == s.userId;
    assert UserOk(st.users[u], now);
  }

  /** Presenting a session's key gives that session's verdict. */
  lemma KeyOpens(st: AuthState, now: int, i: nat, secret: JsString)
    requires Inv(st, now) && i < |st.sessions| && Unlocks(st.sessions[i], secret) && st.sessions[i].expireTimeMs >= 0
    ensures ValidateSessionKey(st, now, KeyText(st.sessions[i], secret)) == SessionVerdict(st, now, st.sessions[i])
  {
    var s := st.sessions[i];
    assert SessionOk(s, now);
    OwnerKeyable(st, now, s);
    SessionKeyRoundTripExact(s.userId, s.sessionId, secret, s.expireTimeMs);
    SessionFound(st, i);
  }

  /** What keeps a session usable, in terms of what is stored. */
  predicate Usable(st: AuthState, now: int, s: Session) {
    && s.revokeTimeMs.None? && now < s.expireTimeMs
    && st.FindUser(s.userId).Some?
    && var user := st.FindUser(s.userId).value;
    && (user.allSessionRevokeTimeMs.Some? ==> user.allSessionRevokeTimeMs.value < s.grantedTimeMs)
    && OrZero(user.banTimeMs) <= 0
  }

  lemma VerdictExact(st: AuthState, now: int, s: Session)
    requires Inv(st, now) && s in st.sessions
    ensures SessionVerdict(st, now, s).Granted? <==> Usable(st, now, s)
    ensures SessionVerdict(st, now, s).Granted? ==>
              SessionVerdict(st, now, s).value.userId == s.userId && SessionVerdict(st, now, s).value.sessionId == s.sessionId
  {
    assert SessionOk(s, now);
  }

  /** A new session's key, in every later state: it opens that session and no
      other, exactly as long as the stored session is usable. */
  lemma NewKeyExact(st: AuthState, now: nat, i: nat, secret: JsString, es: seq<Timed>, later: nat)
    requires Inv(st, now) && Legal(st, now, es) && Clock(now, es) <= later
    requires i < |st.sessions| && Unlocks(st.sessions[i], secret) && st.sessions[i].expireTimeMs >= 0
    ensures i < |Run(st, es).sessions| && SessionEvolves(st.sessions[i], Run(st, es).sessions[i])
    ensures var b := Run(st, es);
            var result := ValidateSessionKey(b, later, KeyText(st.sessions[i], secret));
            && (result.Granted? <==> Usable(b, later, b.sessions[i]))
            && (result.Granted? ==> (result.value.userId == st.sessions[i].userId
                                     && result.value.sessionId == st.sessions[i].sessionId))
  {
    var b := Run(st, es);
    RunKeeps(st, now, es);
    InvLater(b, Clock(now, es), later);
    assert SessionEvolves(st.sessions[i], b.sessions[i]);
    KeyOpens(b, later, i, secret);
    VerdictExact(b, later, b.sessions[i]);
  }

  lemma SecretUnlocks(now: nat, r: LoginRequest, ipAddress: JsString, random: NewSecret)
    ensures Unlocks(LoginSession(now, r, ipAddress, random), Base64.Encode(random.secret))
  {
    RandomHashable(random.secret, random.sessionId);
    RandomText(random.secret);
  }

  lemma NextSecretUnlocks(now: nat, access: Access, ipAddress: JsString, random: NewSecret)
    ensures Unlocks(NextSession(now, access, ipAddress, random), Base64.Encode(random.secret))
  {
    RandomHashable(random.secret, random.sessionId);
    RandomText(random.secret);
  }

  /** What a completed login returns and stores. */
  lemma LoginIssues(st: AuthState, now: nat, call: CompleteCall, random: NewSecret)
    requires FreshIn(st, CodeEntered(call, random)) && CompleteLogin(st, now, call, random).0.Granted?
    ensures var (result, after) := CompleteLogin(st, now, call, random);
            var i := |st.sessions|;
            && |after.sessions| == i + 1 && after.sessions[..i] == st.sessions
            && after.sessions[i].sessionId == Base64.Encode(random.sessionId)
            && after.sessions[i].expireTimeMs == now + SESSION_LIFETIME_MS
            && after.sessions[i].grantedTimeMs == now && after.sessions[i].revokeTimeMs.None?
            && after.sessions[i].userId == call.userId
            && Unlocks(after.sessions[i], Base64.Encode(random.secret))
            && result.value.sessionKey == KeyText(after.sessions[i], Base64.Encode(random.secret))
  {
    CompletedMeans(st, now, call, random);
    var k := FindIndex(st.loginRequests, WithRequestId(call.userId, call.requestId));
    var s := LoginSession(now, st.loginRequests[k], call.ipAddress, random);
    SecretUnlocks(now, st.loginRequests[k], call.ipAddress, random);
    SessionOpened(st.MarkLoginRequestComplete(call.userId, call.requestId, now), s);
  }

  /** The key a completed login returns works in every later state of every run
      exactly while its session is neither revoked nor expired, its user's
      sessions have not all been revoked since it was granted, and the user is
      not banned. */
  lemma LoginKeyExact(st: AuthState, before: nat, now: nat, call: CompleteCall, random: NewSecret, es: seq<Timed>, later: nat)
    requires Inv(st, before) && before <= now && 0 < now && FreshIn(st, CodeEntered(call, random))
    requires CompleteLogin(st, now, call, random).0.Granted?
    requires Legal(CompleteLogin(st, now, call, random).1, now, es) && Clock(now, es) <= later
    ensures |st.sessions| < |Run(CompleteLogin(st, now, call, random).1, es).sessions|
    ensures var (result, after) := CompleteLogin(st, now, call, random);
            var b := Run(after, es);
            ValidateSessionKey(b, later, result.value.sessionKey).Granted? <==> Usable(b, later, b.sessions[|st.sessions|])
  {
    StepKeeps(st, before, now, CodeEntered(call, random));
    LoginIssues(st, now, call, random);
    NewKeyExact(CompleteLogin(st, now, call, random).1, now, |st.sessions|, Base64.Encode(random.secret), es, later);
  }

  /** Where a replacement puts things: i is the session the key was for. */
  lemma ReplacementStores(st: AuthState, now: nat, key: JsString, ipAddress: JsString, random: NewSecret) returns (i: nat)
    requires FreshIn(st, Replacing(key, ipAddress, random)) && ReplaceSession(st, now, key, ipAddress, random).0.Granted?
    ensures ValidateSessionKey(st, now, key).Granted? && i < |st.sessions|
    ensures var access := ValidateSessionKey(st, now, key).value;
            var next := NextSession(now, access, ipAddress, random);
            && st.sessions[i].userId == access.userId && st.sessions[i].sessionId == access.sessionId
            && ReplaceSession(st, now, key, ipAddress, random).0.value
               == Issued(next.userId, KeyText(next, Base64.Encode(random.secret)), next.expireTimeMs)
            && ReplaceSession(st, now, key, ipAddress, random).1.sessions
               == st.sessions[i := st.sessions[i].(nextSessionId := Some(next.sessionId), revokeTimeMs := Some(now))] + [next]
  {
    ReplacedMeans(st, now, key, ipAddress, random);
    GrantedMeans(st, now, key);
    var access := ValidateSessionKey(st, now, key).value;
    i := FindIndex(st.sessions, WithSessionId(access.userId, access.sessionId));
    ReplacedAt(st, now, access, i, ipAddress, random);
  }

  /** What a replacement returns and stores. */
  lemma ReplacementIssues(st: AuthState, now: nat, key: JsString, ipAddress: JsString, random: NewSecret)
    requires FreshIn(st, Replacing(key, ipAddress, random)) && ReplaceSession(st, now, key, ipAddress, random).0.Granted?
    ensures ValidateSessionKey(st, now, key).Granted?
    ensures var (result, after) := ReplaceSession(st, now, key, ipAddress, random);
            var i := |st.sessions|;
            && |after.sessions| == i + 1 && after.sessions[i].expireTimeMs == now + SESSION_LIFETIME_MS
            && after.sessions[i].userId == ValidateSessionKey(st, now, key).value.userId
            && Unlocks(after.sessions[i], Base64.Encode(random.secret))
            && result.value.sessionKey == KeyText(after.sessions[i], Base64.Encode(random.secret))
  {
    var i := ReplacementStores(st, now, key, ipAddress, random);
    NextSecretUnlocks(now, ValidateSessionKey(st, now, key).value, ipAddress, random);
  }

  /** The key a replacement returns takes over under the same conditions. */
  lemma ReplacementKeyExact(st: AuthState, before: nat, now: nat, key: JsString, ipAddress: JsString, random: NewSecret,
                            es: seq<Timed>, later: nat)
    requires Inv(st, before) && before <= now && 0 < now && FreshIn(st, Replacing(key, ipAddress, random))
    requires ReplaceSession(st, now, key, ipAddress, random).0.Granted?
    requires Legal(ReplaceSession(st, now, key, ipAddress, random).1, now, es) && Clock(now, es) <= later
    ensures |st.sessions| < |Run(ReplaceSession(st, now, key, ipAddress, random).1, es).sessions|
    ensures var (result, after) := ReplaceSession(st, now, key, ipAddress, random);
            var b := Run(after, es);
            ValidateSessionKey(b, later, result.value.sessionKey).Granted? <==> Usable(b, later, b.sessions[|st.sessions|])
  {
    StepKeeps(st, before, now, Replacing(key, ipAddress, random));
    ReplacementIssues(st, now, key, ipAddress, random);
    NewKeyExact(ReplaceSession(st, now, key, ipAddress, random).1, now, |st.sessions|, Base64.Encode(random.secret), es, later);
  }

  /** A key in use stays parseable, found and right, so only its session's verdict can change. */
  lemma KeyFollowsSession(st: AuthState, now: nat, key: JsString, after: AuthState, later: nat)
    requires IdsDistinct(st) && IdsDistinct(after) && Evolves(st, after)
    requires ValidateSessionKey(st, now, key).Granted?
    ensures ParseV1SessionKey(key).Some?
    ensures var parsed := ParseV1SessionKey(key).value;
            var found := after.FindSession(parsed.userId, parsed.sessionId);
            && found.Some? && found.value in after.sessions
            && ValidateSessionKey(st, now, key).value.userId == parsed.userId
            && ValidateSessionKey(st, now, key).value.sessionId == parsed.sessionId
            && ValidateSessionKey(after, later, key) == SessionVerdict(after, later, found.value)
  {
    GrantedByVerdict(st, now, key);
    var parsed := ParseV1SessionKey(key).value;
    SessionStays(st, after, parsed.userId, parsed.sessionId);
  }

  lemma RevokedVerdict(st: AuthState, now: nat, s: Session)
    requires 0 < now && s.revokeTimeMs == Some(now)
    ensures SessionVerdict(st, now, s) == Refused(InvalidKey)
  {}

  /** The session a key was presented for is revoked by its replacement. */
  lemma ReplacementRevokes(st: AuthState, now: nat, key: JsString, ipAddress: JsString, random: NewSecret)
    requires IdsDistinct(st) && IdsDistinct(ReplaceSession(st, now, key, ipAddress, random).1)
    requires FreshIn(st, Replacing(key, ipAddress, random)) && ReplaceSession(st, now, key, ipAddress, random).0.Granted?
    ensures ValidateSessionKey(st, now, key).Granted?
    ensures var access := ValidateSessionKey(st, now, key).value;
            var found := ReplaceSession(st, now, key, ipAddress, random).1.FindSession(access.userId, access.sessionId);
            found.Some? && found.value.revokeTimeMs == Some(now)
  {
    var i := ReplacementStores(st, now, key, ipAddress, random);
    SessionFound(ReplaceSession(st, now, key, ipAddress, random).1, i);
  }

  lemma RetiredAtOnce(st: AuthState, after: AuthState, now: nat, key: JsString)
    requires IdsDistinct(st) && IdsDistinct(after) && Evolves(st, after) && 0 < now
    requires ValidateSessionKey(st, now, key).Granted?
    requires var access := ValidateSessionKey(st, now, key).value;
             var found := after.FindSession(access.userId, access.sessionId);
             found.Some? && found.value.revokeTimeMs == Some(now)
    ensures ParseV1SessionKey(key).Some?
    ensures after.FindSession(ParseV1SessionKey(key).value.userId, ParseV1SessionKey(key).value.sessionId).Some?
    ensures Dead(ValidateSessionKey(after, now, key))
  {
    KeyFollowsSession(st, now, key, after, now);
    var parsed := ParseV1SessionKey(key).value;
    RevokedVerdict(after, now, after.FindSession(parsed.userId, parsed.sessionId).value);
  }

  /** Replacing a session retires the key that was presented, for good. */
  lemma ReplacedKeyRetired(st: AuthState, before: nat, now: nat, key: JsString, ipAddress: JsString, random: NewSecret,
                           es: seq<Timed>, later: nat)
    requires Inv(st, before) && before <= now && 0 < now && FreshIn(st, Replacing(key, ipAddress, random))
    requires ReplaceSession(st, now, key, ipAddress, random).0.Granted?
    requires Legal(ReplaceSession(st, now, key, ipAddress, random).1, now, es) && Clock(now, es) <= later
    ensures Dead(ValidateSessionKey(Run(ReplaceSession(st, now, key, ipAddress, random).1, es), later, key))
  {
    var after := ReplaceSession(st, now, key, ipAddress, random).1;
    StepKeeps(st, before, now, Replacing(key, ipAddress, random));
    ReplacementRevokes(st, now, key, ipAddress, random);
    RetiredAtOnce(st, after, now, key);
    RefusedForever(after, now, key, es, later);
  }

  /** A session that is refused once stays refused. */
  lemma EndedForever(st: AuthState, now: nat, i: nat, es: seq<Timed>, later: nat)
    requires Inv(st, now) && Legal(st, now, es) && Clock(now, es) <= later
    requires i < |st.sessions| && Dead(SessionVerdict(st, now, st.sessions[i]))
    ensures i < |Run(st, es).sessions| && Dead(SessionVerdict(Run(st, es), later, Run(st, es).sessions[i]))
  {
    var b := Run(st, es);
    RunKeeps(st, now, es);
    InvLater(b, Clock(now, es), later);
    assert SessionEvolves(st.sessions[i], b.sessions[i]);
    VerdictStaysDead(st, b, now, later, st.sessions[i], b.sessions[i]);
  }

  lemma RevokeAllMeans(st: AuthState, now: nat, userId: JsString, key: JsString)
    requires RevokeAllSessions(st, now, userId, key).0.Granted?
    ensures RevokeAllSessions(st, now, userId, key).1 == st.SetRevokeAllSessionsTime(userId, now)
  {}

  lemma EndedAtOnce(st: AuthState, now: nat, userId: JsString, i: nat)
    requires Inv(st, now) && i < |st.sessions| && st.sessions[i].userId == userId
    requires IdsDistinct(st.SetRevokeAllSessionsTime(userId, now))
    ensures st.SetRevokeAllSessionsTime(userId, now).sessions == st.sessions
    ensures Dead(SessionVerdict(st.SetRevokeAllSessionsTime(userId, now), now, st.sessions[i]))
  {
    assert SessionOk(st.sessions[i], now);
    OwnerFound(st, st.sessions[i]);
    UserFound(st.SetRevokeAllSessionsTime(userId, now), FindIndex(st.users, WithUserId(userId)));
  }

  /** Revoking all sessions ends every session the user has, for good. */
  lemma RevokeAllEndsAll(st: AuthState, before: nat, now: nat, userId: JsString, key: JsString, i: nat,
                         es: seq<Timed>, later: nat)
    requires Inv(st, before) && before <= now && 0 < now
    requires RevokeAllSessions(st, now, userId, key).0.Granted?
    requires i < |st.sessions| && st.sessions[i].userId == userId
    requires Legal(RevokeAllSessions(st, now, userId, key).1, now, es) && Clock(now, es) <= later
    ensures i < |Run(RevokeAllSessions(st, now, userId, key).1, es).sessions|
    ensures var b := Run(RevokeAllSessions(st, now, userId, key).1, es); Dead(SessionVerdict(b, later, b.sessions[i]))
  {
    StepKeeps(st, before, now, RevokingAll(userId, key));
    RevokeAllMeans(st, now, userId, key);
    InvLater(st, before, now);
    EndedAtOnce(st, now, userId, i);
    EndedForever(RevokeAllSessions(st, now, userId, key).1, now, i, es, later);
  }

  /** Revoking one session ends that one, for good. */
  lemma RevokeEndsSession(st: AuthState, before: nat, now: nat, call: RevokeCall, i: nat, es: seq<Timed>, later: nat)
    requires Inv(st, before) && before <= now && 0 < now
    requires RevokeSession(st, now, call).0.Granted?
    requires i < |st.sessions| && st.sessions[i].userId == call.userId && st.sessions[i].sessionId == call.sessionId
    requires Legal(RevokeSession(st, now, call).1, now, es) && Clock(now, es) <= later
    ensures i < |Run(RevokeSession(st, now, call).1, es).sessions|
    ensures var b := Run(RevokeSession(st, now, call).1, es); Dead(SessionVerdict(b, later, b.sessions[i]))
  {
    StepKeeps(st, before, now, Revoking(call));
    SessionFound(st, i);
    RevokeMeans(st, now, call);
    var after := RevokeSession(st, now, call).1;
    RevokedVerdict(after, now, after.sessions[i]);
    EndedForever(after, now, i, es, later);
  }

  lemma RevokeMeans(st: AuthState, now: nat, call: RevokeCall)
    requires RevokeSession(st, now, call).0.Granted?
    ensures var i := FindIndex(st.sessions, WithSessionId(call.userId, call.sessionId));
            i != -1 && RevokeSession(st, now, call).1.sessions == st.sessions[i := st.sessions[i].(revokeTimeMs := Some(now))]
  {}

  // ----- asking for a login and completing it -----

  lemma IssueStores(st: AuthState, now: nat, login: LoginCall, around: LoginSurroundings) returns (r: LoginRequest)
    requires FreshIn(st, LoginAsked(login, around)) && RequestLogin(st, now, login, around).0.Granted?
    requires IdsDistinct(RequestLogin(st, now, login, around).1)
    ensures login.addressType.Some? && r == NewLoginRequest(now, r.userId, login, around)
    ensures var (result, after) := RequestLogin(st, now, login, around);
            && result.value.userId == r.userId && result.value.requestId == r.requestId
            && after.loginRequests == st.loginRequests + [r]
            && after.FindUser(r.userId).Some? && after.FindUser(r.userId).value.currentLoginRequestId == Some(r.requestId)
  {
    var after := RequestLogin(st, now, login, around).1;
    var kind := login.addressType.value;
    var known := FindIndex(st.users, WithAddress(login.address, kind));
    if known == -1 {
      var user := NewUser(around.newUserId, login.address, kind);
      r := NewLoginRequest(now, user.id, login, around);
      RequestIssued(st.SaveNewUser(user), r);
      FindIndexNone(st.users, WithUserId(user.id));
      FoundAtEnd(st.users, user, WithUserId(user.id));
      UserFound(after, |st.users|);
    } else {
      r := NewLoginRequest(now, st.users[known].id, login, around);
      RequestIssued(st, r);
      FindIndexIsFirst(st.users, WithUserId(r.userId), known);
      UserFound(after, FindIndex(st.users, WithUserId(r.userId)));
    }
  }

  lemma CompleteExact(st: AuthState, now: nat, call: CompleteCall, random: NewSecret, k: nat)
    requires IdsDistinct(st) && k < |st.loginRequests| && CompleteCallError(call).None?
    requires st.loginRequests[k].userId == call.userId && st.loginRequests[k].requestId == call.requestId
    ensures CompleteLogin(st, now, call, random).0.Granted?
        <==> && Open(st.loginRequests[k], now, call.ipAddress) && CodeMatches(st.loginRequests[k], call.code)
             && st.FindUser(call.userId).Some? && st.FindUser(call.userId).value.currentLoginRequestId == Some(call.requestId)
  {
    RequestFound(st, k);
  }

  lemma CodeExact(now: nat, userId: JsString, login: LoginCall, around: LoginSurroundings, code: JsString)
    requires login.addressType.Some? && code != []
    ensures CodeMatches(NewLoginRequest(now, userId, login, around), code) <==> Encode(code) == Encode(around.code)
  {
    RandomText(around.requestBytes);
  }

  /** A login just asked for is completed by a call that names it exactly when the
      call comes from the same address, before the request expires, with the code sent. */
  lemma LoginExact(st: AuthState, before: nat, now: nat, login: LoginCall, around: LoginSurroundings,
                   later: nat, call: CompleteCall, random: NewSecret)
    requires Inv(st, before) && before <= now && 0 < now && FreshIn(st, LoginAsked(login, around))
    requires RequestLogin(st, now, login, around).0.Granted?
    requires var r := RequestLogin(st, now, login, around).0.value; call.userId == r.userId && call.requestId == r.requestId
    requires CompleteCallError(call).None?
    ensures CompleteLogin(RequestLogin(st, now, login, around).1, later, call, random).0.Granted?
        <==> later < now + LOGIN_REQUEST_LIFETIME_MS && call.ipAddress == login.ipAddress
             && Encode(call.code) == Encode(around.code)
  {
    var after := RequestLogin(st, now, login, around).1;
    StepKeeps(st, before, now, LoginAsked(login, around));
    var r := IssueStores(st, now, login, around);
    CompleteExact(after, later, call, random, |st.loginRequests|);
    CodeExact(now, r.userId, login, around, call.code);
  }

  /** A newcomer whom the rules accept and the messenger reaches. */
  predicate Welcome(st: AuthState, login: LoginCall, around: LoginSurroundings) {
    && LoginCallError(login).None? && around.supported && around.accepted && around.sendError.None?
    && st.FindUserByAddress(login.address, login.addressType.value).None?
  }

  /** Saving a user whose address nobody has never fails. */
  lemma AbsentNotTaken(st: AuthState, id: JsString, address: JsString, kind: AddressType)
    requires address != [] && st.FindUserByAddress(address, kind).None?
    ensures !st.AddressTaken(NewUser(id, address, kind))
  {
    var user := NewUser(id, address, kind);
    forall u | u in st.users ensures !SharesAddress(user)(u) {
      var k :| 0 <= k < |st.users| && st.users[k] == u;
      if SharesAddress(user)(u) { FindIndexIsFirst(st.users, WithAddress(address, kind), k); }
    }
    FindIndexNone(st.users, SharesAddress(user));
  }

  lemma WelcomeIssued(st: AuthState, now: nat, login: LoginCall, around: LoginSurroundings)
    requires Welcome(st, login, around) && FreshIn(st, LoginAsked(login, around))
    ensures var (result, after) := RequestLogin(st, now, login, around);
            && result.Granted? && result.value.userId == around.newUserId
            && result.value.requestId == Base64.Encode(around.requestBytes)
            && after.sessions == st.sessions
            && after.FindUser(around.newUserId).Some?
            && after.FindUser(around.newUserId).value.allSessionRevokeTimeMs.None?
            && after.FindUser(around.newUserId).value.banTimeMs.None?
  {
    var user := NewUser(around.newUserId, login.address, login.addressType.value);
    var r := NewLoginRequest(now, user.id, login, around);
    AbsentNotTaken(st, around.newUserId, login.address, login.addressType.value);
    RequestIssued(st.SaveNewUser(user), r);
    FindIndexNone(st.users, WithUserId(user.id));
    FoundAtEnd(st.users, user, WithUserId(user.id));
    FoundAtEnd(st.users, user.(currentLoginRequestId := Some(r.requestId)), WithUserId(user.id));
    assert (st.users + [user])[|st.users| := user.(currentLoginRequestId := Some(r.requestId))]
        == st.users + [user.(currentLoginRequestId := Some(r.requestId))];
  }

  lemma CompletionKeepsUsers(st: AuthState, now: nat, call: CompleteCall, random: NewSecret)
    ensures CompleteLogin(st, now, call, random).1.users == st.users
  {
    var result := CompleteLogin(st, now, call, random).0;
    if result.Granted? {
      CompletedMeans(st, now, call, random);
    } else if result == Refused(InvalidCode) {
      CodeRejectedMeans(st, now, call, random);
    } else {
      OtherwiseSame(st, now, call, random);
    }
  }

  /** Logging in works from end to end: a newcomer who enters the code in time is
      given a key, and that key is accepted. */
  lemma NewcomerLogsIn(st: AuthState, before: nat, now: nat, login: LoginCall, around: LoginSurroundings, later: nat,
                       random: NewSecret)
    requires Inv(st, before) && before <= now <= later < now + LOGIN_REQUEST_LIFETIME_MS && 0 < now
    requires Welcome(st, login, around) && FreshIn(st, LoginAsked(login, around))
    requires SessionIdFree(st, Base64.Encode(random.sessionId))
    ensures var asked := RequestLogin(st, now, login, around).1;
            var call := CompleteCall(around.newUserId, Base64.Encode(around.requestBytes), around.code, login.ipAddress);
            var (result, after) := CompleteLogin(asked, later, call, random);
            result.Granted? && ValidateSessionKey(after, later, result.value.sessionKey).Granted?
  {
    var asked := RequestLogin(st, now, login, around).1;
    var call := CompleteCall(around.newUserId, Base64.Encode(around.requestBytes), around.code, login.ipAddress);
    WelcomeIssued(st, now, login, around);
    RandomText(around.requestBytes);
    StepKeeps(st, before, now, LoginAsked(login, around));
    LoginExact(st, before, now, login, around, later, call, random);
    LoginIssues(asked, later, call, random);
    CompletionKeepsUsers(asked, later, call, random);
    LoginKeyExact(asked, now, later, call, random, [], later);
  }
}
