/** What one step of the authentication controller can change, and that stored
    users, login requests and sessions only ever evolve in a few ways. */
module AuthChanges {
  import opened JsStrings
  import opened Options
  import opened Sequences
  import opened Utf8
  import Base64
  import opened Hashing
  import opened Keys
  import opened AuthStore
  import opened AuthSteps

  /** A call of the controller, or a ban set or lifted by an administrator. */
  datatype Event =
    | LoginAsked(login: LoginCall, around: LoginSurroundings)
    | CodeEntered(complete: CompleteCall, random: NewSecret)
    | Revoking(revoke: RevokeCall)
    | RevokingAll(userId: JsString, sessionKey: JsString)
    | Replacing(sessionKey: JsString, ipAddress: JsString, random: NewSecret)
    | Updating(userId: JsString, sessionKey: JsString, details: Details, allowAll: bool)
    | Banning(userId: JsString, banTimeMs: Option<int>)

  function SetBan(st: AuthState, userId: JsString, banTimeMs: Option<int>): AuthState {
    var user := st.FindUser(userId);
    if user.None? then st else st.SaveUser(user.value.(banTimeMs := banTimeMs))
  }

  function Step(st: AuthState, now: nat, e: Event): AuthState {
    match e
    case LoginAsked(call, around) => RequestLogin(st, now, call, around).1
    case CodeEntered(call, random) => CompleteLogin(st, now, call, random).1
    case Revoking(call) => RevokeSession(st, now, call).1
    case RevokingAll(userId, key) => RevokeAllSessions(st, now, userId, key).1
    case Replacing(key, ipAddress, random) => ReplaceSession(st, now, key, ipAddress, random).1
    case Updating(userId, key, details, allowAll) => UpdateUserInfo(st, now, userId, key, details, allowAll).1
    case Banning(userId, t) => SetBan(st, userId, t)
  }

  ghost predicate UserIdFree(st: AuthState, id: JsString) { forall u | u in st.users :: u.id != id }
  ghost predicate RequestIdFree(st: AuthState, id: JsString) { forall r | r in st.loginRequests :: r.requestId != id }
  ghost predicate SessionIdFree(st: AuthState, id: JsString) { forall s | s in st.sessions :: s.sessionId != id }

  /** Generated identifiers are new, and user ids can stand in a key. */
  ghost predicate FreshIn(st: AuthState, e: Event) {
    match e
    case LoginAsked(_, around) =>
      UserIdFree(st, around.newUserId) && Keyable(around.newUserId) && RequestIdFree(st, Base64.Encode(around.requestBytes))
    case CodeEntered(_, random) => SessionIdFree(st, Base64.Encode(random.sessionId))
    case Replacing(_, _, random) => SessionIdFree(st, Base64.Encode(random.sessionId))
    case _ => true
  }

  // ----- the changes -----

  datatype Change =
    | Unchanged
    | NewUserAsked(user: User, request: LoginRequest)
    | KnownUserAsked(u: nat, request: LoginRequest)
    | CodeWrong(k: nat)
    | CodeRight(k: nat, session: Session)
    | SessionRevoked(i: nat)
    | UserEdited(u: nat, user: User)
    | SessionReplaced(i: nat, session: Session)

  /** The change's indices lie within the lists. */
  predicate InRange(st: AuthState, c: Change) {
    match c
    case KnownUserAsked(u, _) => u < |st.users|
    case CodeWrong(k) => k < |st.loginRequests|
    case CodeRight(k, _) => k < |st.loginRequests|
    case SessionRevoked(i) => i < |st.sessions|
    case UserEdited(u, _) => u < |st.users|
    case SessionReplaced(i, _) => i < |st.sessions|
    case _ => true
  }

  function UsersAfter(st: AuthState, c: Change): seq<User>
    requires InRange(st, c)
  {
    match c
    case NewUserAsked(user, r) => st.users + [user.(currentLoginRequestId := Some(r.requestId))]
    case KnownUserAsked(u, r) => st.users[u := st.users[u].(currentLoginRequestId := Some(r.requestId))]
    case UserEdited(u, user) => st.users[u := user]
    case _ => st.users
  }

  function RequestsAfter(st: AuthState, now: int, c: Change): seq<LoginRequest>
    requires InRange(st, c)
  {
    var rs := st.loginRequests;
    match c
    case NewUserAsked(_, r) => rs + [r]
    case KnownUserAsked(_, r) => rs + [r]
    case CodeWrong(k) => rs[k := rs[k].(attemptCount := rs[k].attemptCount + 1)]
    case CodeRight(k, _) => rs[k := rs[k].(completedTimeMs := Some(now))]
    case _ => rs
  }

  function SessionsAfter(st: AuthState, now: int, c: Change): seq<Session>
    requires InRange(st, c)
  {
    var ss := st.sessions;
    match c
    case CodeRight(_, s) => ss + [s]
    case SessionRevoked(i) => ss[i := ss[i].(revokeTimeMs := Some(now))]
    case SessionReplaced(i, s) => ss[i := ss[i].(nextSessionId := Some(s.sessionId), revokeTimeMs := Some(now))] + [s]
    case _ => ss
  }

  function Changed(st: AuthState, now: int, c: Change): AuthState
    requires InRange(st, c)
  {
    AuthState(UsersAfter(st, c), RequestsAfter(st, now, c), SessionsAfter(st, now, c))
  }

  // ----- when a change is proper -----

  ghost predicate NewRequestProper(st: AuthState, now: int, r: LoginRequest) {
    RequestIdFree(st, r.requestId) && r.completedTimeMs.None? && r.attemptCount == 0
  }

  ghost predicate NewSessionProper(st: AuthState, now: int, s: Session) {
    && SessionIdFree(st, s.sessionId) && Keyable(s.sessionId) && Base64.Decode(s.sessionId).Some?
    && s.grantedTimeMs == now && s.revokeTimeMs.None? && s.nextSessionId.None?
    && s.expireTimeMs == now + SESSION_LIFETIME_MS
  }

  /** The request can still change. */
  predicate Pending(r: LoginRequest) { r.attemptCount < MAX_LOGIN_REQUEST_ATTEMPTS && OrZero(r.completedTimeMs) <= 0 }

  ghost predicate Proper(st: AuthState, now: int, c: Change) {
    && InRange(st, c)
    && match c
       case Unchanged => true
       case NewUserAsked(user, r) =>
         && NewRequestProper(st, now, r) && r.userId == user.id
         && UserIdFree(st, user.id) && Keyable(user.id) && user.allSessionRevokeTimeMs.None?
       case KnownUserAsked(u, r) => NewRequestProper(st, now, r) && r.userId == st.users[u].id
       case CodeWrong(k) => Pending(st.loginRequests[k])
       case CodeRight(k, s) =>
         var r := st.loginRequests[k];
         && Pending(r) && NewSessionProper(st, now, s)
         && s.userId == r.userId && s.requestId == Some(r.requestId) && s.previousSessionId.None?
         && st.FindUser(r.userId).Some? && st.FindUser(r.userId).value.currentLoginRequestId == Some(r.requestId)
       case SessionRevoked(i) => !Truthy(st.sessions[i].revokeTimeMs)
       case UserEdited(u, user) =>
         var before := st.users[u];
         && user.id == before.id && user.currentLoginRequestId == before.currentLoginRequestId
         && (user.allSessionRevokeTimeMs == before.allSessionRevokeTimeMs || user.allSessionRevokeTimeMs == Some(now))
       case SessionReplaced(i, s) =>
         var before := st.sessions[i];
         && NewSessionProper(st, now, s)
         && !(Truthy(before.revokeTimeMs) && now >= before.revokeTimeMs.value)
         && s.userId == before.userId && s.requestId.None? && s.previousSessionId == Some(before.sessionId)
         && st.FindUser(s.userId).Some?
  }

  /** The step is this change, and the change is proper. */
  ghost predicate Explains(st: AuthState, now: nat, e: Event, c: Change) {
    Proper(st, now, c) && Step(st, now, e) == Changed(st, now, c)
  }

  // ----- every step is a proper change -----

  lemma RequestIssued(st: AuthState, r: LoginRequest)
    requires RequestIdFree(st, r.requestId)
    ensures st.SaveLoginRequest(r) == st.(loginRequests := st.loginRequests + [r])
  {
    FindIndexNone(st.loginRequests, WithRequestId(r.userId, r.requestId));
  }

  lemma LoginAskedChange(st: AuthState, now: nat, call: LoginCall, around: LoginSurroundings) returns (c: Change)
    requires FreshIn(st, LoginAsked(call, around))
    ensures Proper(st, now, c) && RequestLogin(st, now, call, around).1 == Changed(st, now, c)
  {
    var (result, after) := RequestLogin(st, now, call, around);
    if result.Refused? {
      c := Unchanged;
    } else {
      var kind := call.addressType.value;
      var known := FindIndex(st.users, WithAddress(call.address, kind));
      if known == -1 {
        var user := NewUser(around.newUserId, call.address, kind);
        var r := NewLoginRequest(now, user.id, call, around);
        c := NewUserAsked(user, r);
        RequestIssued(st.SaveNewUser(user), r);
        FindIndexNone(st.users, WithUserId(user.id));
        FoundAtEnd(st.users, user, WithUserId(user.id));
        assert (st.users + [user])[|st.users| := user.(currentLoginRequestId := Some(r.requestId))]
            == st.users + [user.(currentLoginRequestId := Some(r.requestId))];
      } else {
        var r := NewLoginRequest(now, st.users[known].id, call, around);
        RequestIssued(st, r);
        FindIndexIsFirst(st.users, WithUserId(st.users[known].id), known);
        c := KnownUserAsked(FindIndex(st.users, WithUserId(st.users[known].id)), r);
      }
    }
  }

  lemma SessionOpened(st: AuthState, s: Session)
    requires SessionIdFree(st, s.sessionId)
    ensures st.SaveSession(s) == st.(sessions := st.sessions + [s])
  {
    FindIndexNone(st.sessions, WithSessionId(s.userId, s.sessionId));
  }

  /** What a completed login went through. */
  lemma CompletedMeans(st: AuthState, now: nat, call: CompleteCall, random: NewSecret)
    requires CompleteLogin(st, now, call, random).0.Granted?
    ensures var k := FindIndex(st.loginRequests, WithRequestId(call.userId, call.requestId));
            && k != -1 && Pending(st.loginRequests[k])
            && st.FindUser(call.userId).Some? && st.FindUser(call.userId).value.currentLoginRequestId == Some(call.requestId)
            && CompleteLogin(st, now, call, random).1
               == st.MarkLoginRequestComplete(call.userId, call.requestId, now)
                    .SaveSession(LoginSession(now, st.loginRequests[k], call.ipAddress, random))
  {}

  lemma CodeRejectedMeans(st: AuthState, now: nat, call: CompleteCall, random: NewSecret)
    requires CompleteLogin(st, now, call, random).0 == Refused(InvalidCode)
    ensures var k := FindIndex(st.loginRequests, WithRequestId(call.userId, call.requestId));
            && k != -1 && Pending(st.loginRequests[k])
            && CompleteLogin(st, now, call, random).1 == st.IncrementAttemptCount(call.userId, call.requestId)
  {}

  lemma OtherwiseSame(st: AuthState, now: nat, call: CompleteCall, random: NewSecret)
    requires CompleteLogin(st, now, call, random).0.Refused? && CompleteLogin(st, now, call, random).0 != Refused(InvalidCode)
    ensures CompleteLogin(st, now, call, random).1 == st
  {}

  lemma LoginSessionProper(st: AuthState, now: nat, r: LoginRequest, ipAddress: JsString, random: NewSecret)
    requires SessionIdFree(st, Base64.Encode(random.sessionId))
    ensures NewSessionProper(st, now, LoginSession(now, r, ipAddress, random))
  {
    RandomText(random.sessionId);
  }

  lemma CodeEnteredChange(st: AuthState, now: nat, call: CompleteCall, random: NewSecret) returns (c: Change)
    requires SessionIdFree(st, Base64.Encode(random.sessionId))
    ensures Proper(st, now, c) && CompleteLogin(st, now, call, random).1 == Changed(st, now, c)
  {
    var result := CompleteLogin(st, now, call, random).0;
    var k := FindIndex(st.loginRequests, WithRequestId(call.userId, call.requestId));
    if result == Refused(InvalidCode) {
      CodeRejectedMeans(st, now, call, random);
      c := CodeWrong(k);
    } else if result.Refused? {
      OtherwiseSame(st, now, call, random);
      c := Unchanged;
    } else {
      CompletedMeans(st, now, call, random);
      var s := LoginSession(now, st.loginRequests[k], call.ipAddress, random);
      LoginSessionProper(st, now, st.loginRequests[k], call.ipAddress, random);
      SessionOpened(st.MarkLoginRequestComplete(call.userId, call.requestId, now), s);
      c := CodeRight(k, s);
    }
  }

  lemma VerdictMeans(st: AuthState, now: nat, s: Session)
    requires SessionVerdict(st, now, s).Granted?
    ensures SessionVerdict(st, now, s).value.userId == s.userId && SessionVerdict(st, now, s).value.sessionId == s.sessionId
    ensures st.FindUser(s.userId).Some? && !(Truthy(s.revokeTimeMs) && now >= s.revokeTimeMs.value)
  {}

  lemma GrantedByVerdict(st: AuthState, now: nat, key: JsString)
    requires ValidateSessionKey(st, now, key).Granted?
    ensures ParseV1SessionKey(key).Some?
    ensures var parsed := ParseV1SessionKey(key).value;
            var found := st.FindSession(parsed.userId, parsed.sessionId);
            found.Some? && ValidateSessionKey(st, now, key) == SessionVerdict(st, now, found.value)
  {}

  /** What an accepted key stands for. */
  lemma GrantedMeans(st: AuthState, now: nat, key: JsString)
    requires ValidateSessionKey(st, now, key).Granted?
    ensures var access := ValidateSessionKey(st, now, key).value;
            var i := FindIndex(st.sessions, WithSessionId(access.userId, access.sessionId));
            && i != -1 && st.FindUser(access.userId).Some?
            && !(Truthy(st.sessions[i].revokeTimeMs) && now >= st.sessions[i].revokeTimeMs.value)
  {
    GrantedByVerdict(st, now, key);
    var parsed := ParseV1SessionKey(key).value;
    var s := st.FindSession(parsed.userId, parsed.sessionId).value;
    VerdictMeans(st, now, s);
    assert s.userId == parsed.userId && s.sessionId == parsed.sessionId;
  }

  lemma RevokingChange(st: AuthState, now: nat, call: RevokeCall) returns (c: Change)
    ensures Proper(st, now, c) && RevokeSession(st, now, call).1 == Changed(st, now, c)
  {
    var (result, after) := RevokeSession(st, now, call);
    c := if result.Refused? then Unchanged
         else SessionRevoked(FindIndex(st.sessions, WithSessionId(call.userId, call.sessionId)));
  }

  lemma RevokingAllChange(st: AuthState, now: nat, userId: JsString, key: JsString) returns (c: Change)
    ensures Proper(st, now, c) && RevokeAllSessions(st, now, userId, key).1 == Changed(st, now, c)
  {
    var (result, after) := RevokeAllSessions(st, now, userId, key);
    var u := FindIndex(st.users, WithUserId(userId));
    c := if result.Refused? || u == -1 then Unchanged else UserEdited(u, st.users[u].(allSessionRevokeTimeMs := Some(now)));
  }

  lemma UpdatingChange(st: AuthState, now: nat, userId: JsString, key: JsString, details: Details, allowAll: bool)
      returns (c: Change)
    ensures Proper(st, now, c) && UpdateUserInfo(st, now, userId, key, details, allowAll).1 == Changed(st, now, c)
  {
    var (result, after) := UpdateUserInfo(st, now, userId, key, details, allowAll);
    var u := FindIndex(st.users, WithUserId(userId));
    c := if result.Refused? then Unchanged else UserEdited(u, WithDetails(st.users[u], details, allowAll));
  }

  lemma BanningChange(st: AuthState, now: nat, userId: JsString, t: Option<int>) returns (c: Change)
    ensures Proper(st, now, c) && SetBan(st, userId, t) == Changed(st, now, c)
  {
    var u := FindIndex(st.users, WithUserId(userId));
    c := if u == -1 then Unchanged else UserEdited(u, st.users[u].(banTimeMs := t));
  }

  lemma ReplacedMeans(st: AuthState, now: nat, key: JsString, ipAddress: JsString, random: NewSecret)
    requires ReplaceSession(st, now, key, ipAddress, random).0.Granted?
    ensures ValidateSessionKey(st, now, key).Granted?
    ensures ReplaceSession(st, now, key, ipAddress, random)
         == ReplaceFound(st, now, ValidateSessionKey(st, now, key).value, ipAddress, random)
  {}

  lemma NextSessionProper(st: AuthState, now: nat, access: Access, ipAddress: JsString, random: NewSecret)
    requires SessionIdFree(st, Base64.Encode(random.sessionId))
    ensures NewSessionProper(st, now, NextSession(now, access, ipAddress, random))
  {
    RandomText(random.sessionId);
  }

  lemma StillFree(st: AuthState, i: nat, s: Session, id: JsString)
    requires SessionIdFree(st, id) && i < |st.sessions| && s.sessionId == st.sessions[i].sessionId
    ensures SessionIdFree(st.(sessions := st.sessions[i := s]), id)
  {
    assert st.sessions[i] in st.sessions;
    assert forall t | t in st.sessions[i := s] :: t in st.sessions || t == s;
  }

  lemma ReplacedAt(st: AuthState, now: nat, access: Access, i: nat, ipAddress: JsString, random: NewSecret)
    requires SessionIdFree(st, Base64.Encode(random.sessionId))
    requires FindIndex(st.sessions, WithSessionId(access.userId, access.sessionId)) == i
    ensures ReplaceFound(st, now, access, ipAddress, random).1
         == Changed(st, now, SessionReplaced(i, NextSession(now, access, ipAddress, random)))
  {
    var s := NextSession(now, access, ipAddress, random);
    var replaced := st.sessions[i].(nextSessionId := Some(s.sessionId), revokeTimeMs := Some(now));
    var saved := st.(sessions := st.sessions[i := replaced]);
    assert st.SaveSession(replaced) == saved;
    StillFree(st, i, replaced, s.sessionId);
    SessionOpened(saved, s);
  }

  lemma ReplacingChange(st: AuthState, now: nat, key: JsString, ipAddress: JsString, random: NewSecret) returns (c: Change)
    requires SessionIdFree(st, Base64.Encode(random.sessionId))
    ensures Proper(st, now, c) && ReplaceSession(st, now, key, ipAddress, random).1 == Changed(st, now, c)
  {
    if ReplaceSession(st, now, key, ipAddress, random).0.Refused? {
      c := Unchanged;
    } else {
      ReplacedMeans(st, now, key, ipAddress, random);
      GrantedMeans(st, now, key);
      var access := ValidateSessionKey(st, now, key).value;
      var i := FindIndex(st.sessions, WithSessionId(access.userId, access.sessionId));
      NextSessionProper(st, now, access, ipAddress, random);
      ReplacedAt(st, now, access, i, ipAddress, random);
      c := SessionReplaced(i, NextSession(now, access, ipAddress, random));
    }
  }

  lemma StepChange(st: AuthState, now: nat, e: Event) returns (c: Change)
    requires FreshIn(st, e)
    ensures Explains(st, now, e, c)
  {
    match e
    case LoginAsked(call, around) => c := LoginAskedChange(st, now, call, around);
    case CodeEntered(call, random) => c := CodeEnteredChange(st, now, call, random);
    case Revoking(call) => c := RevokingChange(st, now, call);
    case RevokingAll(userId, key) => c := RevokingAllChange(st, now, userId, key);
    case Replacing(key, ipAddress, random) => c := ReplacingChange(st, now, key, ipAddress, random);
    case Updating(userId, key, details, allowAll) => c := UpdatingChange(st, now, userId, key, details, allowAll);
    case Banning(userId, t) => c := BanningChange(st, now, userId, t);
  }
}
