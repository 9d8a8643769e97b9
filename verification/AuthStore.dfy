/** What the authentication store keeps (AuthStore.ts) and the in-memory store
    itself (MemoryAuthStore.ts). */
module AuthStore {
  import opened JsStrings
  import opened Options
  import opened Sequences
  import opened Hashing

  datatype AddressType = Email | Phone

  datatype User = User(id: JsString, name: Option<JsString>, avatarUrl: Option<JsString>, avatarPortraitUrl: Option<JsString>,
                       email: Option<JsString>, phoneNumber: Option<JsString>,
                       openAiKey: Option<JsString>, subscriptionStatus: Option<JsString>,
                       allSessionRevokeTimeMs: Option<int>, currentLoginRequestId: Option<JsString>, banTimeMs: Option<int>)

  datatype LoginRequest = LoginRequest(userId: JsString, requestId: JsString, secretHash: Hash,
                                       address: JsString, addressType: AddressType, attemptCount: nat,
                                       requestTimeMs: int, expireTimeMs: int, completedTimeMs: Option<int>, ipAddress: JsString)

  datatype Session = Session(userId: JsString, sessionId: JsString, requestId: Option<JsString>, secretHash: Hash,
                             grantedTimeMs: int, revokeTimeMs: Option<int>, expireTimeMs: int,
                             previousSessionId: Option<JsString>, nextSessionId: Option<JsString>, ipAddress: JsString)


  /** A stored time used as a condition: null and zero are false. */
  predicate Truthy(t: Option<int>) { t.Some? && t.value != 0 }

  /** A stored time in a comparison: null counts as zero. */
  function OrZero(t: Option<int>): int { if t.Some? then t.value else 0 }

  function WithUserId(id: JsString): User -> bool { (u: User) => u.id == id }

  function WithAddress(address: JsString, kind: AddressType): User -> bool {
    (u: User) => if kind.Email? then u.email == Some(address) else u.phoneNumber == Some(address)
  }

  function SharesAddress(user: User): User -> bool {
    (u: User) =>
      || (user.email.Some? && user.email.value != [] && u.email == user.email)
      || (user.phoneNumber.Some? && user.phoneNumber.value != [] && u.phoneNumber == user.phoneNumber)
  }

  function WithRequestId(userId: JsString, requestId: JsString): LoginRequest -> bool {
    (r: LoginRequest) => r.userId == userId && r.requestId == requestId
  }

  function WithSessionId(userId: JsString, sessionId: JsString): Session -> bool {
    (s: Session) => s.userId == userId && s.sessionId == sessionId
  }

  /** The element at an index that a search returned. */
  function Found<T>(xs: seq<T>, i: int): Option<T>
    requires -1 <= i < |xs|
  {
    if i == -1 then None else Some(xs[i])
  }

  /** Overwrites the element found, or adds one at the end. */
  function Save<T>(xs: seq<T>, i: int, x: T): seq<T>
    requires -1 <= i < |xs|
  {
    if i == -1 then xs + [x] else xs[i := x]
  }

  // ----- listing -----

  function OfUser(userId: JsString): Session -> bool { (s: Session) => s.userId == userId }
  function ExpiresBefore(t: int): Session -> bool { (s: Session) => s.expireTimeMs < t }

  function InsertNewest(s: Session, xs: seq<Session>): seq<Session> {
    if xs == [] || xs[0].expireTimeMs <= s.expireTimeMs then [s] + xs
    else [xs[0]] + InsertNewest(s, xs[1..])
  }

  /** `sortBy(xs, s => -s.expireTimeMs)`: equal expiries keep their order. */
  function SortNewestFirst(xs: seq<Session>): seq<Session> {
    if xs == [] then [] else InsertNewest(xs[0], SortNewestFirst(xs[1..]))
  }

  const PAGE_SIZE: nat := 10

  /** `slice(0, 10)` */
  function FirstTen(xs: seq<Session>): seq<Session> {
    if |xs| <= PAGE_SIZE then xs else xs[..PAGE_SIZE]
  }

  function After(ordered: seq<Session>, expireTimeMs: Option<int>): seq<Session> {
    if Truthy(expireTimeMs) then Filter(ordered, ExpiresBefore(expireTimeMs.value)) else ordered
  }

  datatype AuthState = AuthState(users: seq<User>, loginRequests: seq<LoginRequest>, sessions: seq<Session>) {
    function FindUser(id: JsString): Option<User> {
      Found(users, FindIndex(users, WithUserId(id)))
    }

    function FindUserByAddress(address: JsString, kind: AddressType): Option<User> {
      Found(users, FindIndex(users, WithAddress(address, kind)))
    }

    function FindLoginRequest(userId: JsString, requestId: JsString): Option<LoginRequest> {
      Found(loginRequests, FindIndex(loginRequests, WithRequestId(userId, requestId)))
    }

    function FindSession(userId: JsString, sessionId: JsString): Option<Session> {
      Found(sessions, FindIndex(sessions, WithSessionId(userId, sessionId)))
    }

    function SaveUser(user: User): AuthState {
      this.(users := Save(users, FindIndex(users, WithUserId(user.id)), user))
    }

    predicate AddressTaken(user: User) { FindIndex(users, SharesAddress(user)) != -1 }

    function SaveNewUser(user: User): AuthState {
      if AddressTaken(user) then this else this.(users := users + [user])
    }

    function SetRevokeAllSessionsTime(userId: JsString, t: int): AuthState {
      var user := FindUser(userId);
      if user.None? then this else SaveUser(user.value.(allSessionRevokeTimeMs := Some(t)))
    }

    function SetCurrentLoginRequest(userId: JsString, requestId: JsString): AuthState {
      var i := FindIndex(users, WithUserId(userId));
      if i == -1 then this else this.(users := users[i := users[i].(currentLoginRequestId := Some(requestId))])
    }

    function SaveLoginRequest(r: LoginRequest): AuthState {
      this.(loginRequests := Save(loginRequests, FindIndex(loginRequests, WithRequestId(r.userId, r.requestId)), r))
    }

    function MarkLoginRequestComplete(userId: JsString, requestId: JsString, t: int): AuthState {
      var i := FindIndex(loginRequests, WithRequestId(userId, requestId));
      if i == -1 then this else this.(loginRequests := loginRequests[i := loginRequests[i].(completedTimeMs := Some(t))])
    }

    function IncrementAttemptCount(userId: JsString, requestId: JsString): AuthState {
      var i := FindIndex(loginRequests, WithRequestId(userId, requestId));
      if i == -1 then this
      else this.(loginRequests := loginRequests[i := loginRequests[i].(attemptCount := loginRequests[i].attemptCount + 1)])
    }

    function SaveSession(s: Session): AuthState {
      this.(sessions := Save(sessions, FindIndex(sessions, WithSessionId(s.userId, s.sessionId)), s))
    }

    function ListSessions(userId: JsString, expireTimeMs: Option<int>): seq<Session> {
      FirstTen(After(SortNewestFirst(Filter(sessions, OfUser(userId))), expireTimeMs))
    }
  }

  class MemoryAuthStore {
    var users: seq<User>
    var loginRequests: seq<LoginRequest>
    var sessions: seq<Session>

    ghost function Contents(): AuthState
      reads this
    {
      AuthState(users, loginRequests, sessions)
    }

    constructor ()
      ensures Contents() == AuthState([], [], [])
    {
      users, loginRequests, sessions := [], [], [];
    }

    method SaveUser(user: User)
      modifies this
      ensures Contents() == old(Contents()).SaveUser(user)
    {
      var index := FindIndex(users, WithUserId(user.id));
      if index >= 0 {
        users := users[index := user];
      } else {
        users := users + [user];
      }
    }

    method SaveNewUser(user: User) returns (success: bool)
      modifies this
      ensures success == !old(Contents()).AddressTaken(user)
      ensures Contents() == old(Contents()).SaveNewUser(user)
    {
      var index := FindIndex(users, SharesAddress(user));
      if index >= 0 {
        return false;
      }
      users := users + [user];
      return true;
    }

    method FindUser(id: JsString) returns (r: Option<User>)
      ensures r == Contents().FindUser(id)
    {
      r := Found(users, FindIndex(users, WithUserId(id)));
    }

    method SetRevokeAllSessionsTimeForUser(userId: JsString, t: int)
      modifies this
      ensures Contents() == old(Contents()).SetRevokeAllSessionsTime(userId, t)
    {
      var user := FindUser(userId);
      if user.Some? {
        SaveUser(user.value.(allSessionRevokeTimeMs := Some(t)));
      }
    }

    method FindUserByAddress(address: JsString, kind: AddressType) returns (r: Option<User>)
      ensures r == Contents().FindUserByAddress(address, kind)
    {
      r := Found(users, FindIndex(users, WithAddress(address, kind)));
    }

    method FindLoginRequest(userId: JsString, requestId: JsString) returns (r: Option<LoginRequest>)
      ensures r == Contents().FindLoginRequest(userId, requestId)
    {
      r := Found(loginRequests, FindIndex(loginRequests, WithRequestId(userId, requestId)));
    }

    method FindSession(userId: JsString, sessionId: JsString) returns (r: Option<Session>)
      ensures r == Contents().FindSession(userId, sessionId)
    {
      r := Found(sessions, FindIndex(sessions, WithSessionId(userId, sessionId)));
    }

    method SaveLoginRequest(request: LoginRequest)
      modifies this
      ensures Contents() == old(Contents()).SaveLoginRequest(request)
    {
      var index := FindIndex(loginRequests, WithRequestId(request.userId, request.requestId));
      if index >= 0 {
        loginRequests := loginRequests[index := request];
      } else {
        loginRequests := loginRequests + [request];
      }
    }

    method SetCurrentLoginRequest(userId: JsString, requestId: JsString)
      modifies this
      ensures Contents() == old(Contents()).SetCurrentLoginRequest(userId, requestId)
    {
      var index := FindIndex(users, WithUserId(userId));
      if index >= 0 {
        users := users[index := users[index].(currentLoginRequestId := Some(requestId))];
      }
    }

    /** The source throws when there is no such request: `found` is false. */
    method MarkLoginRequestComplete(userId: JsString, requestId: JsString, t: int) returns (found: bool)
      modifies this
      ensures found == old(Contents().FindLoginRequest(userId, requestId).Some?)
      ensures Contents() == old(Contents()).MarkLoginRequestComplete(userId, requestId, t)
    {
      var index := FindIndex(loginRequests, WithRequestId(userId, requestId));
      found := index >= 0;
      if found {
        loginRequests := loginRequests[index := loginRequests[index].(completedTimeMs := Some(t))];
      }
    }

    method IncrementLoginRequestAttemptCount(userId: JsString, requestId: JsString)
      modifies this
      ensures Contents() == old(Contents()).IncrementAttemptCount(userId, requestId)
    {
      var index := FindIndex(loginRequests, WithRequestId(userId, requestId));
      if index >= 0 {
        loginRequests := loginRequests[index := loginRequests[index].(attemptCount := loginRequests[index].attemptCount + 1)];
      }
    }

    method SaveSession(session: Session)
      modifies this
      ensures Contents() == old(Contents()).SaveSession(session)
    {
      var index := FindIndex(sessions, WithSessionId(session.userId, session.sessionId));
      if index >= 0 {
        sessions := sessions[index := session];
      } else {
        sessions := sessions + [session];
      }
    }

    method ListSessions(userId: JsString, expireTimeMs: Option<int>) returns (page: seq<Session>)
      ensures page == Contents().ListSessions(userId, expireTimeMs)
    {
      var ordered := SortNewestFirst(Filter(sessions, OfUser(userId)));
      if Truthy(expireTimeMs) {
        ordered := Filter(ordered, ExpiresBefore(expireTimeMs.value));
      }
      page := FirstTen(ordered);
    }
  }
}
