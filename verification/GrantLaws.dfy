/** Granting more permissions: what it can never take away, what it can, and
    who is authorized whatever is granted or revoked. */
module GrantLaws {
  import opened JsStrings
  import opened Options
  import opened Permissions
  import opened PolicyStore
  import opened PolicyChanges
  import opened Authorization
  import opened AuthorizationLaws

  // ----- grants append -----

  /** `to` is `from` with permissions appended to some documents. */
  ghost predicate Extends(from: Store, to: Store) {
    && from.roles == to.roles && from.assignments == to.assignments
    && forall record, marker :: from.DocumentOf(record, marker) <= to.DocumentOf(record, marker)
  }

  datatype PermissionGrant = PermissionGrant(record: JsString, marker: JsString, permission: Permission)

  function GrantAll(st: Store, grants: seq<PermissionGrant>): Store {
    if grants == [] then st
    else
      var g := grants[|grants| - 1];
      AddPermission(GrantAll(st, grants[..|grants| - 1]), g.record, g.marker, g.permission)
  }

  /** Any number of `grantMarkerPermission` calls only append to the search order. */
  lemma {:induction false} GrantsExtend(st: Store, grants: seq<PermissionGrant>)
    ensures Extends(st, GrantAll(st, grants))
  {
    if grants != [] {
      var before := GrantAll(st, grants[..|grants| - 1]);
      GrantsExtend(st, grants[..|grants| - 1]);
      var g := grants[|grants| - 1];
      var after := AddPermission(before, g.record, g.marker, g.permission);
      forall record, marker ensures st.DocumentOf(record, marker) <= after.DocumentOf(record, marker) {
        assert st.DocumentOf(record, marker) <= before.DocumentOf(record, marker);
      }
    }
  }

  predicate Longer(a: seq<MarkerPermission>, b: seq<MarkerPermission>) {
    if a == [] then b == []
    else b != [] && a[0].marker == b[0].marker && a[0].permissions <= b[0].permissions && Longer(a[1..], b[1..])
  }

  lemma {:induction false} MarkersLonger(from: Store, to: Store, record: JsString, names: seq<JsString>)
    requires Extends(from, to)
    ensures Longer(MarkersOf(from, record, names), MarkersOf(to, record, names))
  {
    if names != [] {
      MarkersLonger(from, to, record, names[1..]);
      assert from.DocumentOf(record, names[0]) <= to.DocumentOf(record, names[0]);
      assert MarkersOf(from, record, names)[1..] == MarkersOf(from, record, names[1..]);
      assert MarkersOf(to, record, names)[1..] == MarkersOf(to, record, names[1..]);
    }
  }

  lemma FoundStays(c: Case, a: seq<Permission>, b: seq<Permission>, q: Query, mode: Mode)
    requires a <= b && Has(c, a, q, mode)
    ensures FindPermission(c, b, q, mode) == FindPermission(c, a, q, mode)
  {
    assert b == a + b[|a|..];
    FoundInPrefix(c, a, b[|a|..], q, mode);
  }

  lemma {:induction false} AnyMonotone(c: Case, style: Style, a: seq<MarkerPermission>, b: seq<MarkerPermission>, q: Query,
                                       d: DenialReason, e: DenialReason)
    requires Longer(a, b) && AuthorizeAny(c, style, a, q, d).Granted?
    ensures AuthorizeAny(c, style, b, q, e).Granted?
  {
    if Has(c, a[0].permissions, q, FirstChoice(style)) {
      FoundStays(c, a[0].permissions, b[0].permissions, q, FirstChoice(style));
    } else {
      AnyMonotone(c, style, a[1..], b[1..], q, Missing(c, a[0].marker, q, None), Missing(c, b[0].marker, q, None));
    }
  }

  lemma {:induction false} EveryMonotone(c: Case, a: seq<MarkerPermission>, b: seq<MarkerPermission>, q: Query,
                                         change: Change, at: Progress)
    requires Longer(a, b) && AuthorizeEvery(c, a, q, change, at).Granted?
    ensures AuthorizeEvery(c, b, q, change, at) == AuthorizeEvery(c, a, q, change, at)
  {
    if a != [] {
      FoundStays(c, a[0].permissions, b[0].permissions, q, ModeFor(at.role));
      var p := FindPermission(c, a[0].permissions, q, ModeFor(at.role)).value;
      var need := change.PolicyNeed(a[0].marker);
      if need.Some? { FoundStays(c, a[0].permissions, b[0].permissions, need.value, EveryoneOr(p.role)); }
      EveryMonotone(c, a[1..], b[1..], q, change, EveryTurn(c, a[0], q, change, at).at);
    }
  }

  /** Requests that no grant can spoil: all but updates of data and events
      (UpdateGrants) and lists (ListGrants). */
  predicate GrantProof(req: Request) {
    req.Use? || req.Manage? || req.Create? || req.UpdateFile?
  }

  lemma SubjectMonotone(c: Case, a: seq<MarkerPermission>, b: seq<MarkerPermission>, req: Request)
    requires GrantProof(req) && Longer(a, b) && AuthorizeSubject(c, a, req).Granted?
    ensures AuthorizeSubject(c, b, req).Granted?
  {
    match req
    case Use(q, _) => AnyMonotone(c, KeyOrOwner, a, b, q, MissingRole, MissingRole);
    case Manage(q) => AnyMonotone(c, OwnerOnly, a, b, q, MissingRole, MissingRole);
    case Create(q, _) => EveryMonotone(c, a, b, q, Creating, START);
    case UpdateFile(q, e, ad, r) => EveryMonotone(c, a, b, q, Changing(e, ad, r), START);
  }

  /** Grants leave everyone's roles alone. */
  lemma SameCases(s: Setting, to: Store, kind: SubjectKind, id: Option<JsString>)
    requires Extends(s.st, to)
    ensures s.(st := to).CaseOf(kind, id) == s.CaseOf(kind, id)
  {}

  /** Grants never turn an allowed read, delete, create, file, event count or
      increment, policy or role request into a denied one, although the role is
      chosen greedily. */
  lemma GrantsKeepAllowed(s: Setting, grants: seq<PermissionGrant>, who: Requester, req: Request)
    requires GrantProof(req) && Authorize(s, who, req).Allowed?
    ensures Authorize(s.(st := GrantAll(s.st, grants)), who, req).Allowed?
  {
    var t := s.(st := GrantAll(s.st, grants));
    GrantsExtend(s.st, grants);
    var a := MarkersOf(s.st, s.ctx.recordName, req.Markers());
    var b := MarkersOf(t.st, s.ctx.recordName, req.Markers());
    MarkersLonger(s.st, t.st, s.ctx.recordName, req.Markers());
    AllowedExact(s, who, req);
    AllowedExact(t, who, req);
    SameCases(s, t.st, User, who.userId);
    SubjectMonotone(s.CaseOf(User, who.userId), a, b, req);
    forall inst | inst in Checked(t, who, req) ensures SubjectGranted(t, Inst, Some(inst), req) {
      assert SubjectGranted(s, Inst, Some(inst), req);
      SameCases(s, t.st, Inst, Some(inst));
      SubjectMonotone(s.CaseOf(Inst, Some(inst)), a, b, req);
    }
  }

  // ----- who is always authorized -----

  /** The default document's permission that answers a query. */
  function AdminPermission(q: Query): Permission {
    match q
    case DataQuery(t, _) => DataPermission(t, ADMIN, All)
    case FileQuery(t, _, _) => FilePermission(t, ADMIN, None, None)
    case EventQuery(t, _) => EventPermission(t, ADMIN, All)
    case PolicyQuery(t, _) => PolicyPermission(t, ADMIN, All)
    case PolicyListQuery => PolicyPermission(PolicyList, ADMIN, All)
    case RoleGrantQuery(_, _, _, _) => RoleGrantPermission(ADMIN, All, AnyUser, AnyInstance, None)
    case RoleRevokeQuery(_, _, _) => RoleRevokePermission(ADMIN, All, AnyUser, AnyInstance)
    case RoleReadQuery(_) => RolePermission(RoleRead, ADMIN, All)
    case RoleListQuery => RolePermission(RoleList, ADMIN, All)
  }

  /** Role changes must name exactly one target; nothing else is beyond the default document. */
  predicate WellTargeted(q: Query) {
    match q
    case RoleGrantQuery(_, user, inst, _) => Given(user) != Given(inst)
    case RoleRevokeQuery(_, user, inst) => Given(user) != Given(inst)
    case _ => true
  }

  lemma InConcat<T>(x: T, a: seq<T>, b: seq<T>)
    ensures x in a + b <==> x in a || x in b
  {}

  lemma DefaultMembers(x: Permission)
    ensures x in DEFAULT_ANY_RESOURCE_POLICY_DOCUMENT
        <==> x in ADMIN_DATA || x in ADMIN_FILES || x in ADMIN_EVENTS || x in ADMIN_POLICIES || x in ADMIN_ROLES
             || x in OWNER_KEYS
  {
    InConcat(x, ADMIN_DATA, ADMIN_FILES);
    InConcat(x, ADMIN_DATA + ADMIN_FILES, ADMIN_EVENTS);
    InConcat(x, ADMIN_DATA + ADMIN_FILES + ADMIN_EVENTS, ADMIN_POLICIES);
    InConcat(x, ADMIN_DATA + ADMIN_FILES + ADMIN_EVENTS + ADMIN_POLICIES, ADMIN_ROLES);
    InConcat(x, ADMIN_DATA + ADMIN_FILES + ADMIN_EVENTS + ADMIN_POLICIES + ADMIN_ROLES, OWNER_KEYS);
  }

  lemma DefaultAnswers(re: Regex, q: Query)
    requires WellTargeted(q)
    ensures AdminPermission(q) in DEFAULT_ANY_RESOURCE_POLICY_DOCUMENT
    ensures Matches(re, q, AdminPermission(q))
  {
    DefaultMembers(AdminPermission(q));
    match q
    case DataQuery(t, _) =>
      assert AdminPermission(q) == ADMIN_DATA[match t case DataCreate => 0 case DataRead => 1 case DataUpdate => 2
                                              case DataDelete => 3 case DataList => 4];
    case FileQuery(t, _, _) =>
      assert AdminPermission(q)
             == ADMIN_FILES[match t case FileCreate => 0 case FileRead => 1 case FileDelete => 2 case FileUpdate => 3];
    case EventQuery(t, _) =>
      assert AdminPermission(q) == ADMIN_EVENTS[match t case EventIncrement => 0 case EventCount => 1 case EventUpdate => 2];
    case PolicyQuery(t, _) =>
      assert AdminPermission(q)
          == ADMIN_POLICIES[match t case PolicyGrantPermission => 0 case PolicyRevokePermission => 1 case PolicyAssign => 2
                            case PolicyUnassign => 3 case PolicyList => 4 case PolicyRead => 5];
    case PolicyListQuery => assert AdminPermission(q) == ADMIN_POLICIES[4];
    case RoleGrantQuery(_, _, _, _) => assert AdminPermission(q) == ADMIN_ROLES[0];
    case RoleRevokeQuery(_, _, _) => assert AdminPermission(q) == ADMIN_ROLES[1];
    case RoleReadQuery(_) => assert AdminPermission(q) == ADMIN_ROLES[2];
    case RoleListQuery => assert AdminPermission(q) == ADMIN_ROLES[3];
  }

  /** Every default permission a query can match is the administrator's. */
  lemma DefaultIsAdmins(re: Regex, q: Query, p: Permission)
    requires p in DEFAULT_ANY_RESOURCE_POLICY_DOCUMENT && Matches(re, q, p)
    ensures p.role == ADMIN
  {
    DefaultMembers(p);
  }

  lemma DefaultServesAdmin(c: Case, q: Query, mode: Mode)
    requires WellTargeted(q) && Accepts(c, mode, ADMIN)
    ensures var found := FindPermission(c, DEFAULT_ANY_RESOURCE_POLICY_DOCUMENT, q, mode);
            found.Some? && found.value.role == ADMIN
  {
    var d := DEFAULT_ANY_RESOURCE_POLICY_DOCUMENT;
    DefaultAnswers(c.re, q);
    assert Grants(c, q, mode, AdminPermission(q));
    HasMeaning(c, d, q, mode);
    FoundGrants(c, d, q, mode);
    DefaultIsAdmins(c.re, q, FindPermission(c, d, q, mode).value);
  }

  /** Whatever else a marker's documents say, the search of someone eligible
      for the admin role ends at an admin permission of the default document. */
  lemma AdminFoundFirst(c: Case, st: Store, record: JsString, marker: JsString, q: Query, mode: Mode)
    requires WellTargeted(q) && Accepts(c, mode, ADMIN)
    ensures var found := FindPermission(c, st.PermissionsFor(record, marker), q, mode);
            found.Some? && found.value.role == ADMIN
  {
    var d := DEFAULT_ANY_RESOURCE_POLICY_DOCUMENT;
    var rest := (if marker == PUBLIC_READ_MARKER then DEFAULT_PUBLIC_READ_POLICY_DOCUMENT else [])
        + st.DocumentOf(record, marker);
    DefaultServesAdmin(c, q, mode);
    FoundInPrefix(c, d, rest, q, mode);
    assert st.PermissionsFor(record, marker) == d + rest;
  }

  lemma {:induction false} AdminEvery(c: Case, st: Store, record: JsString, names: seq<JsString>, q: Query,
                                      change: Change, at: Progress)
    requires WellTargeted(q) && Eligible(c, KeyOrOwner, ADMIN) && (at.role.None? || at.role == Some(ADMIN))
    requires names != [] || at.role == Some(ADMIN)
    ensures GrantedAs(AuthorizeEvery(c, MarkersOf(st, record, names), q, change, at), ADMIN)
  {
    if names != [] {
      var markers := MarkersOf(st, record, names);
      AdminAccepted(c, st, record, names[0], q, change, at);
      assert markers[1..] == MarkersOf(st, record, names[1..]);
      AdminEvery(c, st, record, names[1..], q, change, EveryTurn(c, markers[0], q, change, at).at);
    }
  }

  lemma AdminAccepted(c: Case, st: Store, record: JsString, name: JsString, q: Query, change: Change, at: Progress)
    requires WellTargeted(q) && Eligible(c, KeyOrOwner, ADMIN) && (at.role.None? || at.role == Some(ADMIN))
    ensures var m := MarkerPermission(name, st.PermissionsFor(record, name));
            && EveryTurn(c, m, q, change, at).GoOn? && EveryTurn(c, m, q, change, at).at.role == Some(ADMIN)
            && UpdateTurn(c, m, q, change, at) == EveryTurn(c, m, q, change, at)
            && EveryTurn(c, m, q, change, at).at.denial == at.denial
  {
    AdminFoundFirst(c, st, record, name, q, ModeFor(at.role));
    var need := change.PolicyNeed(name);
    if need.Some? { AdminFoundFirst(c, st, record, name, need.value, EveryoneOr(ADMIN)); }
  }

  lemma {:induction false} AdminUpdate(c: Case, st: Store, record: JsString, names: seq<JsString>, q: Query,
                                       change: Change, at: Progress)
    requires WellTargeted(q) && Eligible(c, KeyOrOwner, ADMIN) && (at.role.None? || at.role == Some(ADMIN)) && at.denial.None?
    requires names != [] || at.role == Some(ADMIN)
    ensures GrantedAs(AuthorizeUpdate(c, MarkersOf(st, record, names), q, change, at), ADMIN)
  {
    if names != [] {
      var markers := MarkersOf(st, record, names);
      AdminAccepted(c, st, record, names[0], q, change, at);
      assert markers[1..] == MarkersOf(st, record, names[1..]);
      AdminUpdate(c, st, record, names[1..], q, change, UpdateTurn(c, markers[0], q, change, at).at);
    }
  }

  /** The requests an administrator must be able to make: some marker, an
      update that leaves some marker, a file update that changes some. */
  predicate Sensible(req: Request) {
    && req.Markers() != [] && !req.ListData?
    && (req.Update? || req.UpdateFile? ==> WillMarkersBeRemaining(req.existing, req.removed, req.added))
    && (req.UpdateFile? ==> |OrEmpty(req.added)| + |OrEmpty(req.removed)| > 0)
    && WellTargeted(req.query)
  }

  function StyleOf(req: Request): Style { if req.Manage? then OwnerOnly else KeyOrOwner }

  lemma AdminSubject(c: Case, st: Store, record: JsString, req: Request)
    requires Sensible(req) && Eligible(c, StyleOf(req), ADMIN)
    ensures GrantedAs(AuthorizeSubject(c, MarkersOf(st, record, req.Markers()), req), ADMIN)
  {
    var names := req.Markers();
    match req
    case Use(q, _) => AdminFoundFirst(c, st, record, names[0], q, FirstChoice(KeyOrOwner));
    case Manage(q) => AdminFoundFirst(c, st, record, names[0], q, FirstChoice(OwnerOnly));
    case Create(q, _) => AdminEvery(c, st, record, names, q, Creating, START);
    case Update(q, e, a, r) => AdminUpdate(c, st, record, names, q, Changing(e, a, r), START);
    case UpdateFile(q, e, a, r) => AdminEvery(c, st, record, names, q, Changing(e, a, r), START);
  }

  /** Whatever has been granted and revoked - in every store - the record's
      owner, a holder of the admin role and, for requests that accept one, a
      holder of a valid record key is authorized for every sensible request made
      without instances. */
  lemma AlwaysAuthorized(s: Setting, who: Requester, req: Request)
    requires Sensible(req) && OrEmpty(who.instances) == [] && Eligible(s.CaseOf(User, who.userId), StyleOf(req), ADMIN)
    ensures Authorize(s, who, req).Allowed? && Authorize(s, who, req).role == ADMIN
  {
    AdminSubject(s.CaseOf(User, who.userId), s.st, s.ctx.recordName, req);
  }

  /** Who those people are. */
  lemma AdministratorsEligible(s: Setting, userId: Option<JsString>, style: Style)
    ensures Eligible(s.CaseOf(User, userId), style, ADMIN)
        <==> || (userId == Some(s.ctx.recordOwnerId) && (style.OwnerOnly? || s.ctx.recordKey.None?))
             || (Given(userId) && Holds(s.st, s.ctx.recordName, userId.value, ADMIN_ROLE_NAME, s.now))
             || (style.KeyOrOwner? && s.ctx.recordKey.Some?)
  {}
}
