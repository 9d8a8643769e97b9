/** The controller of AuthController.ts over the in-memory store: each method takes
    the store from one state to the next exactly as the step of its name says. */
module AuthControllers {
  import opened JsStrings
  import opened Options
  import Base64
  import opened Hashing
  import opened Keys
  import opened AuthStore
  import opened AuthSteps

  class AuthController {
    const store: MemoryAuthStore
    const forceAllowSubscriptionFeatures: bool

    constructor (store: MemoryAuthStore, forceAllowSubscriptionFeatures: bool := false)
      ensures this.store == store && this.forceAllowSubscriptionFeatures == forceAllowSubscriptionFeatures
    {
      this.store, this.forceAllowSubscriptionFeatures := store, forceAllowSubscriptionFeatures;
    }

    method RequestLogin(now: int, call: LoginCall, around: LoginSurroundings) returns (r: Outcome<Requested>)
      modifies store
      ensures (r, store.Contents()) == AuthSteps.RequestLogin(old(store.Contents()), now, call, around)
    {
      if call.address == [] {
        return Refused(UnacceptableAddress);
      } else if call.addressType.None? {
        return Refused(UnacceptableAddressType);
      } else if call.ipAddress == [] {
        return Refused(UnacceptableIpAddress);
      }
      if call.addressType == Some(Email) {
        if |call.address| > MAX_EMAIL_ADDRESS_LENGTH {
          return Refused(UnacceptableAddress);
        }
      } else if |call.address| > MAX_SMS_ADDRESS_LENGTH {
        return Refused(UnacceptableAddress);
      }
      if !around.supported {
        return Refused(AddressTypeNotSupported);
      }
      var found := store.FindUserByAddress(call.address, call.addressType.value);
      var newUser := found.None?;
      var user: User;
      if newUser {
        user := NewUser(around.newUserId, call.address, call.addressType.value);
        if !around.accepted {
          return Refused(UnacceptableAddress);
        }
      } else {
        user := found.value;
      }
      if OrZero(user.banTimeMs) > 0 {
        return Refused(UserIsBanned);
      }
      if around.sendError.Some? {
        return Refused(around.sendError.value);
      }
      var request := NewLoginRequest(now, user.id, call, around);
      if newUser {
        var saved := store.SaveNewUser(user);
        if !saved {
          // The source searches again here; within one atomic call the answer is the same.
          return Refused(ServerError);
        }
      }
      store.SaveLoginRequest(request);
      store.SetCurrentLoginRequest(request.userId, request.requestId);
      return Granted(Requested(request.userId, request.requestId, call.address, call.addressType.value, request.expireTimeMs));
    }

    method CompleteLogin(now: nat, call: CompleteCall, random: NewSecret) returns (r: Outcome<Issued>)
      modifies store
      ensures (r, store.Contents()) == AuthSteps.CompleteLogin(old(store.Contents()), now, call, random)
    {
      if call.userId == [] {
        return Refused(UnacceptableUserId);
      } else if call.requestId == [] {
        return Refused(UnacceptableRequestId);
      } else if call.code == [] {
        return Refused(UnacceptableCode);
      } else if call.ipAddress == [] {
        return Refused(UnacceptableIpAddress);
      }
      var found := store.FindLoginRequest(call.userId, call.requestId);
      if found.None? {
        return Refused(InvalidRequest);
      }
      var request := found.value;
      var validRequest := true;
      if now >= request.expireTimeMs {
        validRequest := false;
      } else if OrZero(request.completedTimeMs) > 0 {
        validRequest := false;
      } else if request.attemptCount >= MAX_LOGIN_REQUEST_ATTEMPTS {
        validRequest := false;
      } else if request.ipAddress != call.ipAddress {
        validRequest := false;
      }
      if !validRequest {
        return Refused(InvalidRequest);
      }
      var validCode := CodeMatches(request, call.code);
      if !validCode {
        store.IncrementLoginRequestAttemptCount(request.userId, request.requestId);
        return Refused(InvalidCode);
      }
      var user := store.FindUser(request.userId);
      if user.None? {
        return Refused(InvalidRequest);
      }
      if user.value.currentLoginRequestId != Some(request.requestId) {
        return Refused(InvalidRequest);
      }
      var session := LoginSession(now, request, call.ipAddress, random);
      var stillThere := store.MarkLoginRequestComplete(request.userId, request.requestId, now);
      store.SaveSession(session);
      return Granted(Issued(session.userId, KeyText(session, Base64.Encode(random.secret)), session.expireTimeMs));
    }

    method ValidateSessionKey(now: int, key: JsString) returns (r: Outcome<Access>)
      ensures r == AuthSteps.ValidateSessionKey(store.Contents(), now, key)
    {
      var parsed := ParseV1SessionKey(key);
      if parsed.None? {
        return Refused(UnacceptableSessionKey);
      }
      var userId, secret := parsed.value.userId, parsed.value.secret;
      var found := store.FindSession(userId, parsed.value.sessionId);
      if found.None? {
        return Refused(InvalidKey);
      }
      var session := found.value;
      if !Hashable(secret, session.sessionId) {
        return Refused(ServerError);
      }
      if !Verifies(secret, session.sessionId, session.secretHash) {
        return Refused(InvalidKey);
      }
      if Truthy(session.revokeTimeMs) && now >= session.revokeTimeMs.value {
        return Refused(InvalidKey);
      }
      if now >= session.expireTimeMs {
        return Refused(SessionExpired);
      }
      var user := store.FindUser(userId);
      if user.None? {
        return Refused(InvalidKey);
      }
      if user.value.allSessionRevokeTimeMs.Some? {
        if user.value.allSessionRevokeTimeMs.value >= session.grantedTimeMs {
          return Refused(InvalidKey);
        }
      }
      if OrZero(user.value.banTimeMs) > 0 {
        return Refused(UserIsBanned);
      }
      return Granted(Access(session.userId, session.sessionId, user.value.allSessionRevokeTimeMs));
    }

    method CheckAccess(now: int, userId: JsString, key: JsString) returns (r: Outcome<Access>)
      ensures r == AccessAs(store.Contents(), now, userId, key)
    {
      r := ValidateSessionKey(now, key);
      if r.Granted? && r.value.userId != userId {
        return Refused(InvalidKey);
      }
    }

    method RevokeSession(now: int, call: RevokeCall) returns (r: Outcome<()>)
      modifies store
      ensures (r, store.Contents()) == AuthSteps.RevokeSession(old(store.Contents()), now, call)
    {
      if call.userId == [] {
        return Refused(UnacceptableUserId);
      } else if call.sessionId == [] {
        return Refused(UnacceptableSessionId);
      } else if call.sessionKey == [] {
        return Refused(UnacceptableSessionKey);
      }
      var access := CheckAccess(now, call.userId, call.sessionKey);
      if access.Refused? {
        return Refused(access.error);
      }
      var found := store.FindSession(call.userId, call.sessionId);
      if found.None? {
        return Refused(SessionNotFound);
      }
      if Truthy(found.value.revokeTimeMs) {
        return Refused(SessionAlreadyRevoked);
      }
      store.SaveSession(found.value.(revokeTimeMs := Some(now)));
      return Granted(());
    }

    method RevokeAllSessions(now: int, userId: JsString, sessionKey: JsString) returns (r: Outcome<()>)
      modifies store
      ensures (r, store.Contents()) == AuthSteps.RevokeAllSessions(old(store.Contents()), now, userId, sessionKey)
    {
      if userId == [] {
        return Refused(UnacceptableUserId);
      } else if sessionKey == [] {
        return Refused(UnacceptableSessionKey);
      }
      var access := CheckAccess(now, userId, sessionKey);
      if access.Refused? {
        return Refused(access.error);
      }
      store.SetRevokeAllSessionsTimeForUser(userId, now);
      return Granted(());
    }

    method ReplaceSession(now: nat, sessionKey: JsString, ipAddress: JsString, random: NewSecret) returns (r: Outcome<Issued>)
      modifies store
      ensures (r, store.Contents()) == AuthSteps.ReplaceSession(old(store.Contents()), now, sessionKey, ipAddress, random)
    {
      if sessionKey == [] {
        return Refused(UnacceptableSessionKey);
      } else if ipAddress == [] {
        return Refused(UnacceptableIpAddress);
      }
      var access := ValidateSessionKey(now, sessionKey);
      if access.Refused? {
        return Refused(access.error);
      }
      var next := NextSession(now, access.value, ipAddress, random);
      var found := store.FindSession(access.value.userId, access.value.sessionId);
      if found.None? {
        return Refused(InvalidKey);
      }
      store.SaveSession(found.value.(nextSessionId := Some(next.sessionId), revokeTimeMs := Some(now)));
      store.SaveSession(next);
      return Granted(Issued(next.userId, KeyText(next, Base64.Encode(random.secret)), next.expireTimeMs));
    }

    method ListSessions(now: int, userId: JsString, expireTimeMs: Option<int>, sessionKey: JsString)
      returns (r: Outcome<seq<ListedSession>>)
      ensures r == AuthSteps.ListSessions(store.Contents(), now, userId, expireTimeMs, sessionKey)
    {
      if userId == [] {
        return Refused(UnacceptableUserId);
      } else if sessionKey == [] {
        return Refused(UnacceptableSessionKey);
      }
      var access := CheckAccess(now, userId, sessionKey);
      if access.Refused? {
        return Refused(access.error);
      }
      var page := store.ListSessions(userId, expireTimeMs);
      return Granted(ListedAll(access.value, page));
    }

    method UpdateUserInfo(now: int, userId: JsString, sessionKey: JsString, details: Details) returns (r: Outcome<JsString>)
      modifies store
      ensures (r, store.Contents())
           == AuthSteps.UpdateUserInfo(old(store.Contents()), now, userId, sessionKey, details, forceAllowSubscriptionFeatures)
    {
      if userId == [] {
        return Refused(UnacceptableUserId);
      } else if sessionKey == [] {
        return Refused(UnacceptableSessionKey);
      }
      var access := CheckAccess(now, userId, sessionKey);
      if access.Refused? {
        return Refused(access.error);
      }
      var user := store.FindUser(userId);
      if user.None? {
        return Refused(ServerError);
      }
      var hasActiveSubscription := forceAllowSubscriptionFeatures || IsActiveSubscription(user.value.subscriptionStatus);
      var openAiKey := if hasActiveSubscription then details.openAiKey else None;
      if openAiKey.Some? && openAiKey.value != [] {
        openAiKey := Some(FormatV1OpenAiKey(openAiKey.value));
      }
      store.SaveUser(user.value.(
        name := Either(details.name, user.value.name),
        avatarUrl := Either(details.avatarUrl, user.value.avatarUrl),
        avatarPortraitUrl := Either(details.avatarPortraitUrl, user.value.avatarPortraitUrl),
        email := Either(details.email, user.value.email),
        phoneNumber := Either(details.phoneNumber, user.value.phoneNumber),
        openAiKey := Either(openAiKey, user.value.openAiKey)));
      return Granted(user.value.id);
    }
  }
}
