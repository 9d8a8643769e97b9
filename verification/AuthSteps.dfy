/** Logging in, and the sessions that follow (AuthController.ts), as functions
    from one stored state to the next. Every call is one step at one clock
    reading; what the messenger answers and what the random generators return are
    parameters. Empty text stands for every value that is not a nonempty string,
    since the sources refuse both alike. */
module AuthSteps {
  import opened JsStrings
  import opened Options
  import opened Utf8
  import Base64
  import opened Hashing
  import opened Keys
  import opened AuthStore

  const LOGIN_REQUEST_LIFETIME_MS := 1000 * 60 * 5
  const SESSION_LIFETIME_MS := 1000 * 60 * 60 * 24 * 14
  const MAX_LOGIN_REQUEST_ATTEMPTS := 5
  const MAX_EMAIL_ADDRESS_LENGTH := 200
  const MAX_SMS_ADDRESS_LENGTH := 30

  /** 128 bits, and a code of six characters. */
  type Random16 = b: Bytes | |b| == 16 witness [0, 0, 0, 0, 0, 0, 0, 0, 0, 0, 0, 0, 0, 0, 0, 0]
  type Code = c: JsString | |c| == 6 witness [0x30, 0x30, 0x30, 0x30, 0x30, 0x30]

  datatype AuthError = UnacceptableAddress | UnacceptableAddressType | UnacceptableIpAddress | AddressTypeNotSupported
                     | UnacceptableUserId | UnacceptableRequestId | UnacceptableCode | InvalidRequest | InvalidCode
                     | UnacceptableSessionKey | UnacceptableSessionId | InvalidKey | SessionExpired | SessionNotFound
                     | SessionAlreadyRevoked | UserIsBanned | ServerError

  datatype Outcome<+T> = Granted(value: T) | Refused(error: AuthError)

  lemma RandomHashable(bytes: Random16, salt: Random16)
    ensures Hashable(Base64.Encode(bytes), Base64.Encode(salt))
  {
    RandomText(bytes);
    RandomText(salt);
  }

  // ----- requestLogin -----

  /** A type other than email and phone is None. */
  datatype LoginCall = LoginCall(address: JsString, addressType: Option<AddressType>, ipAddress: JsString)

  /** What the messenger, the address rules and the generators answer. */
  datatype LoginSurroundings = LoginSurroundings(supported: bool, accepted: bool, sendError: Option<AuthError>,
                                                 newUserId: JsString, requestBytes: Random16, code: Code)

  datatype Requested = Requested(userId: JsString, requestId: JsString, address: JsString, addressType: AddressType,
                                 expireTimeMs: int)

  function LoginCallError(call: LoginCall): Option<AuthError> {
    if call.address == [] then Some(UnacceptableAddress)
    else if call.addressType.None? then Some(UnacceptableAddressType)
    else if call.ipAddress == [] then Some(UnacceptableIpAddress)
    else if |call.address| > (if call.addressType.value.Email? then MAX_EMAIL_ADDRESS_LENGTH else MAX_SMS_ADDRESS_LENGTH) then
      Some(UnacceptableAddress)
    else None
  }

  function NewUser(id: JsString, address: JsString, kind: AddressType): User {
    User(id, None, None, None, if kind.Email? then Some(address) else None, if kind.Phone? then Some(address) else None,
         None, None, None, None, None)
  }

  function NewLoginRequest(now: int, userId: JsString, call: LoginCall, around: LoginSurroundings): LoginRequest
    requires call.addressType.Some?
  {
    var requestId := Base64.Encode(around.requestBytes);
    RandomText(around.requestBytes);
    LoginRequest(userId, requestId, HashPassword(around.code, requestId), call.address, call.addressType.value, 0,
                 now, now + LOGIN_REQUEST_LIFETIME_MS, None, call.ipAddress)
  }

  function Issue(st: AuthState, r: LoginRequest): (Outcome<Requested>, AuthState) {
    (Granted(Requested(r.userId, r.requestId, r.address, r.addressType, r.expireTimeMs)),
     st.SaveLoginRequest(r).SetCurrentLoginRequest(r.userId, r.requestId))
  }

  function RequestLogin(st: AuthState, now: int, call: LoginCall, around: LoginSurroundings): (Outcome<Requested>, AuthState) {
    var bad := LoginCallError(call);
    if bad.Some? then (Refused(bad.value), st)
    else if !around.supported then (Refused(AddressTypeNotSupported), st)
    else
      var known := st.FindUserByAddress(call.address, call.addressType.value);
      if known.None? then
        var user := NewUser(around.newUserId, call.address, call.addressType.value);
        if !around.accepted then (Refused(UnacceptableAddress), st)
        else if around.sendError.Some? then (Refused(around.sendError.value), st)
        else if !st.AddressTaken(user) then Issue(st.SaveNewUser(user), NewLoginRequest(now, user.id, call, around))
        else (Refused(ServerError), st)
      else if OrZero(known.value.banTimeMs) > 0 then (Refused(UserIsBanned), st)
      else if around.sendError.Some? then (Refused(around.sendError.value), st)
      else Issue(st, NewLoginRequest(now, known.value.id, call, around))
  }

  // ----- completeLogin -----

  datatype CompleteCall = CompleteCall(userId: JsString, requestId: JsString, code: JsString, ipAddress: JsString)

  datatype NewSecret = NewSecret(sessionId: Random16, secret: Random16)

  datatype Issued = Issued(userId: JsString, sessionKey: JsString, expireTimeMs: int)

  function CompleteCallError(call: CompleteCall): Option<AuthError> {
    if call.userId == [] then Some(UnacceptableUserId)
    else if call.requestId == [] then Some(UnacceptableRequestId)
    else if call.code == [] then Some(UnacceptableCode)
    else if call.ipAddress == [] then Some(UnacceptableIpAddress)
    else None
  }

  /** The request can still be completed from this address. */
  predicate Open(r: LoginRequest, now: int, ipAddress: JsString) {
    && now < r.expireTimeMs
    && OrZero(r.completedTimeMs) <= 0
    && r.attemptCount < MAX_LOGIN_REQUEST_ATTEMPTS
    && r.ipAddress == ipAddress
  }

  predicate CodeMatches(r: LoginRequest, code: JsString) {
    Hashable(code, r.requestId) && Verifies(code, r.requestId, r.secretHash)
  }

  /** `formatV1SessionKey` of a session and its secret. */
  function KeyText(s: Session, secret: JsString): JsString
    requires s.expireTimeMs >= 0
  {
    FormatV1SessionKey(s.userId, s.sessionId, secret, s.expireTimeMs)
  }

  function LoginSession(now: int, r: LoginRequest, ipAddress: JsString, random: NewSecret): Session {
    var sessionId, secret := Base64.Encode(random.sessionId), Base64.Encode(random.secret);
    RandomHashable(random.secret, random.sessionId);
    Session(r.userId, sessionId, Some(r.requestId), HashHighEntropy(secret, sessionId),
            now, None, now + SESSION_LIFETIME_MS, None, None, ipAddress)
  }

  function CompleteLogin(st: AuthState, now: nat, call: CompleteCall, random: NewSecret): (Outcome<Issued>, AuthState) {
    var bad := CompleteCallError(call);
    if bad.Some? then (Refused(bad.value), st)
    else
      var found := st.FindLoginRequest(call.userId, call.requestId);
      if found.None? || !Open(found.value, now, call.ipAddress) then (Refused(InvalidRequest), st)
      else if !CodeMatches(found.value, call.code) then
        (Refused(InvalidCode), st.IncrementAttemptCount(found.value.userId, found.value.requestId))
      else
        var r, user := found.value, st.FindUser(found.value.userId);
        if user.None? || user.value.currentLoginRequestId != Some(r.requestId) then (Refused(InvalidRequest), st)
        else
          var s := LoginSession(now, r, call.ipAddress, random);
          (Granted(Issued(s.userId, KeyText(s, Base64.Encode(random.secret)), s.expireTimeMs)),
           st.MarkLoginRequestComplete(r.userId, r.requestId, now).SaveSession(s))
  }

  // ----- validateSessionKey -----

  datatype Access = Access(userId: JsString, sessionId: JsString, allSessionsRevokedTimeMs: Option<int>)

  /** The verdict on a session whose secret was right. */
  function SessionVerdict(st: AuthState, now: int, s: Session): Outcome<Access> {
    if Truthy(s.revokeTimeMs) && now >= s.revokeTimeMs.value then Refused(InvalidKey)
    else if now >= s.expireTimeMs then Refused(SessionExpired)
    else
      var user := st.FindUser(s.userId);
      if user.None? then Refused(InvalidKey)
      else if user.value.allSessionRevokeTimeMs.Some? && user.value.allSessionRevokeTimeMs.value >= s.grantedTimeMs then
        Refused(InvalidKey)
      else if OrZero(user.value.banTimeMs) > 0 then Refused(UserIsBanned)
      else Granted(Access(s.userId, s.sessionId, user.value.allSessionRevokeTimeMs))
  }

  function ValidateSessionKey(st: AuthState, now: int, key: JsString): Outcome<Access> {
    var parsed := ParseV1SessionKey(key);
    if parsed.None? then Refused(UnacceptableSessionKey)
    else
      var found := st.FindSession(parsed.value.userId, parsed.value.sessionId);
      if found.None? then Refused(InvalidKey)
      else if !Hashable(parsed.value.secret, found.value.sessionId) then Refused(ServerError)
      else if !Verifies(parsed.value.secret, found.value.sessionId, found.value.secretHash) then Refused(InvalidKey)
      else SessionVerdict(st, now, found.value)
  }

  /** Validation for a caller who also names a user. */
  function AccessAs(st: AuthState, now: int, userId: JsString, key: JsString): Outcome<Access> {
    var result := ValidateSessionKey(st, now, key);
    if result.Granted? && result.value.userId != userId then Refused(InvalidKey) else result
  }

  // ----- revoking and replacing -----

  datatype RevokeCall = RevokeCall(userId: JsString, sessionId: JsString, sessionKey: JsString)

  function RevokeSession(st: AuthState, now: int, call: RevokeCall): (Outcome<()>, AuthState) {
    if call.userId == [] then (Refused(UnacceptableUserId), st)
    else if call.sessionId == [] then (Refused(UnacceptableSessionId), st)
    else if call.sessionKey == [] then (Refused(UnacceptableSessionKey), st)
    else
      var access := AccessAs(st, now, call.userId, call.sessionKey);
      if access.Refused? then (Refused(access.error), st)
      else
        var found := st.FindSession(call.userId, call.sessionId);
        if found.None? then (Refused(SessionNotFound), st)
        else if Truthy(found.value.revokeTimeMs) then (Refused(SessionAlreadyRevoked), st)
        else (Granted(()), st.SaveSession(found.value.(revokeTimeMs := Some(now))))
  }

  function RevokeAllSessions(st: AuthState, now: int, userId: JsString, sessionKey: JsString): (Outcome<()>, AuthState) {
    if userId == [] then (Refused(UnacceptableUserId), st)
    else if sessionKey == [] then (Refused(UnacceptableSessionKey), st)
    else
      var access := AccessAs(st, now, userId, sessionKey);
      if access.Refused? then (Refused(access.error), st)
      else (Granted(()), st.SetRevokeAllSessionsTime(userId, now))
  }

  /** The session that replaces another; its hash is the slow one. */
  function NextSession(now: int, access: Access, ipAddress: JsString, random: NewSecret): Session {
    var sessionId, secret := Base64.Encode(random.sessionId), Base64.Encode(random.secret);
    RandomHashable(random.secret, random.sessionId);
    Session(access.userId, sessionId, None, HashPassword(secret, sessionId),
            now, None, now + SESSION_LIFETIME_MS, Some(access.sessionId), None, ipAddress)
  }

  function ReplaceFound(st: AuthState, now: nat, access: Access, ipAddress: JsString, random: NewSecret)
    : (Outcome<Issued>, AuthState)
  {
    var found := st.FindSession(access.userId, access.sessionId);
    if found.None? then (Refused(InvalidKey), st)
    else
      var next := NextSession(now, access, ipAddress, random);
      var replaced := found.value.(nextSessionId := Some(next.sessionId), revokeTimeMs := Some(now));
      (Granted(Issued(next.userId, KeyText(next, Base64.Encode(random.secret)), next.expireTimeMs)),
       st.SaveSession(replaced).SaveSession(next))
  }

  function ReplaceSession(st: AuthState, now: nat, sessionKey: JsString, ipAddress: JsString, random: NewSecret)
    : (Outcome<Issued>, AuthState)
  {
    if sessionKey == [] then (Refused(UnacceptableSessionKey), st)
    else if ipAddress == [] then (Refused(UnacceptableIpAddress), st)
    else
      var access := ValidateSessionKey(st, now, sessionKey);
      if access.Refused? then (Refused(access.error), st)
      else
        ReplaceFound(st, now, access.value, ipAddress, random)
  }

  // ----- listing, and changing the user's details -----

  datatype ListedSession = ListedSession(userId: JsString, sessionId: JsString, grantedTimeMs: int, expireTimeMs: int,
                                         revokeTimeMs: Option<int>, currentSession: bool, ipAddress: JsString,
                                         nextSessionId: Option<JsString>)

  function Listed(access: Access, s: Session): ListedSession {
    var all := access.allSessionsRevokedTimeMs;
    var revoked := if OrZero(all) >= s.grantedTimeMs && (!Truthy(s.revokeTimeMs) || s.revokeTimeMs.value > OrZero(all)) then all
                   else s.revokeTimeMs;
    ListedSession(s.userId, s.sessionId, s.grantedTimeMs, s.expireTimeMs, revoked, s.sessionId == access.sessionId,
                  s.ipAddress, s.nextSessionId)
  }

  function ListedAll(access: Access, sessions: seq<Session>): seq<ListedSession> {
    seq(|sessions|, i requires 0 <= i < |sessions| => Listed(access, sessions[i]))
  }

  function ListSessions(st: AuthState, now: int, userId: JsString, expireTimeMs: Option<int>, sessionKey: JsString)
    : Outcome<seq<ListedSession>>
  {
    if userId == [] then Refused(UnacceptableUserId)
    else if sessionKey == [] then Refused(UnacceptableSessionKey)
    else
      var access := AccessAs(st, now, userId, sessionKey);
      if access.Refused? then Refused(access.error)
      else Granted(ListedAll(access.value, st.ListSessions(userId, expireTimeMs)))
  }

  /** Absent details are left as they are. */
  datatype Details = Details(name: Option<JsString>, avatarUrl: Option<JsString>, avatarPortraitUrl: Option<JsString>,
                             email: Option<JsString>, phoneNumber: Option<JsString>, openAiKey: Option<JsString>)

  function Either(given: Option<JsString>, kept: Option<JsString>): Option<JsString> { if given.Some? then given else kept }

  const ACTIVE: JsString := Text("active")
  const TRIALING: JsString := Text("trialing")

  /** `isActiveSubscription` */
  predicate IsActiveSubscription(status: Option<JsString>) { status == Some(ACTIVE) || status == Some(TRIALING) }

  /** What is stored for a given key of another service: nothing new without a
      subscription, the empty text as it is, anything else in its printed form. */
  function KeyToStore(subscribed: bool, given: Option<JsString>): Option<JsString> {
    if !subscribed || given.None? then None
    else if given.value == [] then given
    else Some(FormatV1OpenAiKey(given.value))
  }

  function WithDetails(user: User, d: Details, allowAll: bool): User {
    var openAiKey := KeyToStore(allowAll || IsActiveSubscription(user.subscriptionStatus), d.openAiKey);
    user.(name := Either(d.name, user.name), avatarUrl := Either(d.avatarUrl, user.avatarUrl),
          avatarPortraitUrl := Either(d.avatarPortraitUrl, user.avatarPortraitUrl), email := Either(d.email, user.email),
          phoneNumber := Either(d.phoneNumber, user.phoneNumber), openAiKey := Either(openAiKey, user.openAiKey))
  }

  function UpdateUserInfo(st: AuthState, now: int, userId: JsString, sessionKey: JsString, details: Details, allowAll: bool)
    : (Outcome<JsString>, AuthState)
  {
    if userId == [] then (Refused(UnacceptableUserId), st)
    else if sessionKey == [] then (Refused(UnacceptableSessionKey), st)
    else
      var access := AccessAs(st, now, userId, sessionKey);
      if access.Refused? then (Refused(access.error), st)
      else
        var user := st.FindUser(userId);
        if user.None? then (Refused(ServerError), st)
        else (Granted(user.value.id), st.SaveUser(WithDetails(user.value, details, allowAll)))
  }
}
