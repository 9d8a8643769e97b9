/** Exactly when each call of the authentication controller is granted, whose
    key it takes, and everything it then changes. */
module AuthCalls {
  import opened JsStrings
  import opened Options
  import opened Sequences
  import opened Utf8
  import Base64
  import opened Hashing
  import opened Keys
  import opened AuthStore
  import opened AuthSteps
  import opened AuthChanges
  import opened AuthInvariants
  import opened AuthRuns
  import opened SessionKeys

  // ----- asking for a login -----

  predicate HasAddress(u: User, address: JsString, kind: AddressType) {
    (kind.Email? && u.email == Some(address)) || (kind.Phone? && u.phoneNumber == Some(address))
  }

  /** A user is found by an address exactly when a stored user has it, and the one found is the first of them. */
  lemma AddressFound(st: AuthState, address: JsString, kind: AddressType)
    ensures st.FindUserByAddress(address, kind).Some? <==> exists u | u in st.users :: HasAddress(u, address, kind)
    ensures var found := st.FindUserByAddress(address, kind);
            found.Some? ==> found.value in st.users && HasAddress(found.value, address, kind)
    ensures forall k | 0 <= k < FindIndex(st.users, WithAddress(address, kind)) :: !HasAddress(st.users[k], address, kind)
  {
    forall k | 0 <= k < |st.users| && HasAddress(st.users[k], address, kind)
      ensures 0 <= FindIndex(st.users, WithAddress(address, kind)) <= k
    {
      FindIndexIsFirst(st.users, WithAddress(address, kind), k);
    }
    var i := FindIndex(st.users, WithAddress(address, kind));
    if i != -1 { assert HasAddress(st.users[i], address, kind); }
  }

  /** Two users have the same nonempty email address or phone number. */
  predicate ShareAddress(a: User, b: User) {
    || (a.email.Some? && a.email.value != [] && a.email == b.email)
    || (a.phoneNumber.Some? && a.phoneNumber.value != [] && a.phoneNumber == b.phoneNumber)
  }

  /** A new user is turned away exactly when a stored one shares an address, and otherwise added. */
  lemma TakenExact(st: AuthState, user: User)
    ensures var taken := exists u | u in st.users :: ShareAddress(user, u);
            && (st.AddressTaken(user) <==> taken)
            && st.SaveNewUser(user) == if taken then st else st.(users := st.users + [user])
  {
    var i := FindIndex(st.users, SharesAddress(user));
    if i != -1 { assert ShareAddress(user, st.users[i]) && st.users[i] in st.users; }
    if u :| u in st.users && ShareAddress(user, u) {
      var k :| 0 <= k < |st.users| && st.users[k] == u;
      FindIndexIsFirst(st.users, SharesAddress(user), k);
    }
  }

  /** An address of a known kind and of acceptable length, and an IP address. */
  predicate WellAddressed(call: LoginCall) {
    && call.addressType.Some? && call.ipAddress != []
    && 0 < |call.address| <= (match call.addressType.value case Email => 200 case Phone => 30)
  }

  /** A login request is issued exactly when the call is well addressed, the
      messenger supports and reaches the address, and it belongs to a user who is
      not banned or, being nobody's, is accepted by the rules. */
  lemma IssuedExact(st: AuthState, now: int, call: LoginCall, around: LoginSurroundings)
    ensures RequestLogin(st, now, call, around).0.Granted?
        <==> && WellAddressed(call) && around.supported && around.sendError.None?
             && match st.FindUserByAddress(call.address, call.addressType.value)
                case Some(user) => OrZero(user.banTimeMs) <= 0
                case None => around.accepted
  {
    if WellAddressed(call) && st.FindUserByAddress(call.address, call.addressType.value).None? {
      AbsentNotTaken(st, around.newUserId, call.address, call.addressType.value);
    }
  }

  /** It is issued for the user who has the address, or else for a new one, and
      for five minutes; and no call that is refused changes anything. */
  lemma IssuedFor(st: AuthState, now: int, call: LoginCall, around: LoginSurroundings)
    requires WellAddressed(call)
    ensures var (result, after) := RequestLogin(st, now, call, around);
            var known := st.FindUserByAddress(call.address, call.addressType.value);
            if result.Refused? then after == st
            else && result.value.userId == (if known.Some? then known.value.id else around.newUserId)
                 && result.value.address == call.address && result.value.expireTimeMs == now + 300_000
  {}

  /** A call that is not well addressed changes nothing either. */
  lemma BadlyAddressed(st: AuthState, now: int, call: LoginCall, around: LoginSurroundings)
    requires !WellAddressed(call)
    ensures RequestLogin(st, now, call, around).0.Refused? && RequestLogin(st, now, call, around).1 == st
  {}

  /** A completed login opens a session for fourteen days, and so does a replacement. */
  lemma SessionLifetime(st: AuthState, now: nat, call: CompleteCall, key: JsString, ipAddress: JsString, random: NewSecret)
    ensures CompleteLogin(st, now, call, random).0.Granted?
            ==> CompleteLogin(st, now, call, random).0.value.expireTimeMs == now + 1_209_600_000
    ensures ReplaceSession(st, now, key, ipAddress, random).0.Granted?
            ==> ReplaceSession(st, now, key, ipAddress, random).0.value.expireTimeMs == now + 1_209_600_000
  {}

  /** A newcomer is stored with the one address, and found by it from then on. */
  lemma NewcomerStored(st: AuthState, now: int, call: LoginCall, around: LoginSurroundings)
    requires FreshIn(st, LoginAsked(call, around)) && WellAddressed(call) && RequestLogin(st, now, call, around).0.Granted?
    requires st.FindUserByAddress(call.address, call.addressType.value).None?
    ensures var after := RequestLogin(st, now, call, around).1;
            var found := after.FindUserByAddress(call.address, call.addressType.value);
            && |after.users| == |st.users| + 1 && after.users[..|st.users|] == st.users
            && found == Some(after.users[|st.users|]) && found.value.id == around.newUserId
            && found.value.currentLoginRequestId == Some(Base64.Encode(around.requestBytes))
            && (call.addressType == Some(Email) ==> found.value.email == Some(call.address) && found.value.phoneNumber.None?)
            && (call.addressType == Some(Phone) ==> found.value.phoneNumber == Some(call.address) && found.value.email.None?)
  {
    var kind := call.addressType.value;
    var user := NewUser(around.newUserId, call.address, kind);
    var r := NewLoginRequest(now, user.id, call, around);
    AbsentNotTaken(st, around.newUserId, call.address, kind);
    FindIndexNone(st.users, WithUserId(user.id));
    FoundAtEnd(st.users, user, WithUserId(user.id));
    var stored := user.(currentLoginRequestId := Some(r.requestId));
    assert (st.users + [user])[|st.users| := stored] == st.users + [stored];
    FoundAtEnd(st.users, stored, WithAddress(call.address, kind));
  }

  // ----- presenting a key -----

  /** The hash is one of the text, salted with the session's id. */
  predicate HashOf(h: Hash, secret: JsString, sessionId: JsString) {
    && secret != [] && sessionId != [] && h.password == Encode(secret)
    && Base64.Decode(sessionId) == Some(h.salt)
  }

  /** The session the key names, by the secret it holds. */
  predicate NamedBy(s: Session, key: JsString) {
    var parsed := ParseV1SessionKey(key);
    && parsed.Some? && s.userId == parsed.value.userId && s.sessionId == parsed.value.sessionId
    && HashOf(s.secretHash, parsed.value.secret, s.sessionId)
  }

  lemma HashExact(s: Session, secret: JsString)
    ensures HashOf(s.secretHash, secret, s.sessionId)
        <==> Hashable(secret, s.sessionId) && Verifies(secret, s.sessionId, s.secretHash)
  {}

  /** A key is accepted exactly when it names a stored session, holds its secret,
      and the session is usable: the first answer tells which. */
  lemma AcceptedExact(st: AuthState, now: int, key: JsString)
    requires Inv(st, now)
    ensures ValidateSessionKey(st, now, key).Granted? <==> exists s | s in st.sessions :: NamedBy(s, key) && Usable(st, now, s)
    ensures ValidateSessionKey(st, now, key).Granted? ==>
              var access := ValidateSessionKey(st, now, key).value;
              exists s | s in st.sessions :: NamedBy(s, key) && s.userId == access.userId && s.sessionId == access.sessionId
  {
    var parsed := ParseV1SessionKey(key);
    if parsed.Some? {
      forall s | s in st.sessions && s.userId == parsed.value.userId && s.sessionId == parsed.value.sessionId
        ensures st.FindSession(parsed.value.userId, parsed.value.sessionId) == Some(s)
      {
        var i :| 0 <= i < |st.sessions| && st.sessions[i] == s;
        SessionFound(st, i);
      }
      var found := st.FindSession(parsed.value.userId, parsed.value.sessionId);
      if found.Some? {
        HashExact(found.value, parsed.value.secret);
        VerdictExact(st, now, found.value);
        assert found.value in st.sessions;
      }
    }
  }

  lemma EncodeInjective(a: JsString, b: JsString)
    requires WellFormed(a) && WellFormed(b) && Encode(a) == Encode(b)
    ensures a == b
  {
    DecodeScalarsEncoded(Scalars(a));
    DecodeScalarsEncoded(Scalars(b));
    ScalarsRoundTrip(a);
    ScalarsRoundTrip(b);
  }

  /** A key that names session i is accepted with its secret and no other text:
      only the holder of the secret gets in. */
  lemma OnlySecretOpens(st: AuthState, now: int, i: nat, secret: JsString, presented: JsString, expireTimeMs: nat)
    requires Inv(st, now) && i < |st.sessions| && Keyable(presented)
    requires Unlocks(st.sessions[i], secret)
    ensures var key := FormatV1SessionKey(st.sessions[i].userId, st.sessions[i].sessionId, presented, expireTimeMs);
            ValidateSessionKey(st, now, key).Granted? <==> presented == secret && Usable(st, now, st.sessions[i])
  {
    var s := st.sessions[i];
    assert SessionOk(s, now);
    OwnerKeyable(st, now, s);
    SessionKeyRoundTripExact(s.userId, s.sessionId, presented, expireTimeMs);
    SessionFound(st, i);
    HashExact(s, secret);
    HashExact(s, presented);
    if Encode(presented) == Encode(secret) { EncodeInjective(presented, secret); }
    VerdictExact(st, now, s);
  }

  // ----- what a key may do -----

  /** The key is accepted now, as a key of this user's. */
  predicate KeyOf(st: AuthState, now: int, userId: JsString, key: JsString) {
    var result := ValidateSessionKey(st, now, key);
    result.Granted? && result.value.userId == userId
  }

  /** The user has a session of this id, not revoked. */
  predicate HasUnrevoked(st: AuthState, userId: JsString, sessionId: JsString) {
    exists s | s in st.sessions :: s.userId == userId && s.sessionId == sessionId && !Truthy(s.revokeTimeMs)
  }

  lemma FoundExact(st: AuthState, userId: JsString, sessionId: JsString, s: Session)
    requires IdsDistinct(st) && s in st.sessions && s.userId == userId && s.sessionId == sessionId
    ensures st.FindSession(userId, sessionId) == Some(s)
  {
    var i :| 0 <= i < |st.sessions| && st.sessions[i] == s;
    SessionFound(st, i);
  }

  /** A session is revoked exactly when a key of its own user is presented and it is not revoked yet. */
  lemma RevokeExact(st: AuthState, now: nat, call: RevokeCall)
    requires IdsDistinct(st)
    ensures RevokeSession(st, now, call).0.Granted?
        <==> && call.userId != [] && call.sessionId != [] && call.sessionKey != []
             && KeyOf(st, now, call.userId, call.sessionKey) && HasUnrevoked(st, call.userId, call.sessionId)
  {
    var found := st.FindSession(call.userId, call.sessionId);
    if HasUnrevoked(st, call.userId, call.sessionId) {
      var s :| s in st.sessions && s.userId == call.userId && s.sessionId == call.sessionId && !Truthy(s.revokeTimeMs);
      FoundExact(st, call.userId, call.sessionId, s);
    }
    if found.Some? { assert found.value in st.sessions; }
  }

  /** Then that session is revoked now, and nothing else changes; a refusal changes nothing. */
  lemma RevokeChanges(st: AuthState, now: nat, call: RevokeCall, j: nat)
    requires IdsDistinct(st) && j < |st.sessions|
    ensures var (result, after) := RevokeSession(st, now, call);
            && after.users == st.users && after.loginRequests == st.loginRequests && |after.sessions| == |st.sessions|
            && after.sessions[j] == if result.Granted? && st.sessions[j].userId == call.userId
                                       && st.sessions[j].sessionId == call.sessionId
                                    then st.sessions[j].(revokeTimeMs := Some(now)) else st.sessions[j]
  {
    if RevokeSession(st, now, call).0.Granted? {
      RevokeStores(st, now, call);
      if st.sessions[j].userId == call.userId && st.sessions[j].sessionId == call.sessionId { SessionFound(st, j); }
    } else {
      RevokeRefused(st, now, call);
    }
  }

  lemma RevokeStores(st: AuthState, now: nat, call: RevokeCall)
    requires RevokeSession(st, now, call).0.Granted?
    ensures var i := FindIndex(st.sessions, WithSessionId(call.userId, call.sessionId));
            && i != -1
            && RevokeSession(st, now, call).1
               == st.(sessions := st.sessions[i := st.sessions[i].(revokeTimeMs := Some(now))])
  {}

  lemma RevokeRefused(st: AuthState, now: nat, call: RevokeCall)
    requires RevokeSession(st, now, call).0.Refused?
    ensures RevokeSession(st, now, call).1 == st
  {}

  lemma RevokeAllExact(st: AuthState, now: nat, userId: JsString, key: JsString)
    ensures RevokeAllSessions(st, now, userId, key).0.Granted? <==> userId != [] && key != [] && KeyOf(st, now, userId, key)
  {}

  /** All sessions of a user are revoked by a key of that user's, and only that user's time changes. */
  lemma RevokeAllChanges(st: AuthState, now: nat, userId: JsString, key: JsString, u: nat)
    requires IdsDistinct(st) && u < |st.users|
    ensures var (result, after) := RevokeAllSessions(st, now, userId, key);
            && after.sessions == st.sessions && after.loginRequests == st.loginRequests && |after.users| == |st.users|
            && after.users[u] == if result.Granted? && st.users[u].id == userId
                                 then st.users[u].(allSessionRevokeTimeMs := Some(now)) else st.users[u]
  {
    if st.users[u].id == userId { UserFound(st, u); }
  }

  /** A user's sessions are listed for a key of that user's. */
  lemma ListAllowedExact(st: AuthState, now: nat, userId: JsString, expireTimeMs: Option<int>, key: JsString)
    ensures ListSessions(st, now, userId, expireTimeMs, key).Granted?
        <==> userId != [] && key != [] && KeyOf(st, now, userId, key)
  {}

  /** A user's details are changed for a key of that user's. */
  lemma UpdateExact(st: AuthState, now: nat, userId: JsString, key: JsString, details: Details, allowAll: bool)
    ensures UpdateUserInfo(st, now, userId, key, details, allowAll).0.Granted?
        <==> userId != [] && key != [] && KeyOf(st, now, userId, key)
  {
    if KeyOf(st, now, userId, key) { GrantedMeans(st, now, key); }
  }

  /** What a detail becomes: the text given, or what it was. */
  predicate Became(before: Option<JsString>, given: Option<JsString>, after: Option<JsString>) {
    (given.Some? ==> after == given) && (given.None? ==> after == before)
  }

  /** The stored key of the other service reads back as the one given, if the user may set one. */
  predicate KeyBecame(before: User, given: Option<JsString>, allowAll: bool, after: User) {
    var status := before.subscriptionStatus;
    var subscribed := allowAll || status == Some(Text("active")) || status == Some(Text("trialing"));
    if !subscribed || given.None? then after.openAiKey == before.openAiKey
    else if given.value == [] then after.openAiKey == Some([])
    else && after.openAiKey.Some?
         && (WellFormed(given.value) && !StartsWithBom(given.value) ==> ParseOpenAiKey(after.openAiKey.value) == given)
  }

  /** Exactly the given details are replaced. */
  ghost predicate DetailsBecame(a: User, d: Details, allowAll: bool, b: User) {
    && Became(a.name, d.name, b.name) && Became(a.email, d.email, b.email)
    && Became(a.phoneNumber, d.phoneNumber, b.phoneNumber) && Became(a.avatarUrl, d.avatarUrl, b.avatarUrl)
    && Became(a.avatarPortraitUrl, d.avatarPortraitUrl, b.avatarPortraitUrl) && KeyBecame(a, d.openAiKey, allowAll, b)
    && b.id == a.id && b.banTimeMs == a.banTimeMs && b.subscriptionStatus == a.subscriptionStatus
    && b.allSessionRevokeTimeMs == a.allSessionRevokeTimeMs && b.currentLoginRequestId == a.currentLoginRequestId
  }

  lemma DetailsReplaced(user: User, d: Details, allowAll: bool)
    ensures DetailsBecame(user, d, allowAll, WithDetails(user, d, allowAll))
  {
    if d.openAiKey.Some? { OpenAiKeyRoundTripExact(d.openAiKey.value); }
  }

  lemma UpdateStores(st: AuthState, now: nat, userId: JsString, key: JsString, d: Details, allowAll: bool)
    ensures var (result, after) := UpdateUserInfo(st, now, userId, key, d, allowAll);
            var u := FindIndex(st.users, WithUserId(userId));
            && (result.Refused? ==> after == st)
            && (result.Granted? ==> u != -1 && after == st.(users := st.users[u := WithDetails(st.users[u], d, allowAll)]))
  {}

  /** A granted update replaces exactly the given details of that one user. */
  lemma UpdateChanges(st: AuthState, now: nat, userId: JsString, key: JsString, d: Details, allowAll: bool, u: nat)
    requires IdsDistinct(st) && u < |st.users|
    ensures var (result, after) := UpdateUserInfo(st, now, userId, key, d, allowAll);
            && after.sessions == st.sessions && after.loginRequests == st.loginRequests && |after.users| == |st.users|
            && (if result.Granted? && st.users[u].id == userId then DetailsBecame(st.users[u], d, allowAll, after.users[u])
                else after.users[u] == st.users[u])
  {
    UpdateStores(st, now, userId, key, d, allowAll);
    if st.users[u].id == userId { UserFound(st, u); }
    DetailsReplaced(st.users[u], d, allowAll);
  }

  /** A session is replaced for its own key. */
  lemma ReplaceExact(st: AuthState, now: nat, key: JsString, ipAddress: JsString, random: NewSecret)
    ensures ReplaceSession(st, now, key, ipAddress, random).0.Granted?
        <==> key != [] && ipAddress != [] && ValidateSessionKey(st, now, key).Granted?
    ensures ReplaceSession(st, now, key, ipAddress, random).0.Refused?
            ==> ReplaceSession(st, now, key, ipAddress, random).1 == st
  {
    if ValidateSessionKey(st, now, key).Granted? { GrantedMeans(st, now, key); }
  }
}
