/** Granting and revoking roles: exactly which allowed requests survive, and
    grants that take a creation and a reading away. */
module RoleGrants {
  import opened JsStrings
  import opened Options
  import opened Sequences
  import opened Permissions
  import opened PolicyStore
  import opened PolicyChanges
  import opened Authorization
  import opened AuthorizationLaws
  import opened GrantLaws
  import opened ListingLaws
  import opened UpdateGrants
  import opened ListGrants

  /** The subject with one more role, and with one less. */
  function WithRole(c: Case, r: JsString): Case { c.(subject := c.subject.(roles := c.subject.roles + {r})) }
  function WithoutRole(c: Case, r: JsString): Case { c.(subject := c.subject.(roles := c.subject.roles - {r})) }

  /** The same subject with other roles. */
  ghost predicate SameButRoles(c: Case, d: Case) { d == c.(subject := c.subject.(roles := d.subject.roles)) }

  // ----- a role already chosen: the subject's roles do not matter -----

  lemma {:induction false} ChosenAlike(c: Case, d: Case, permissions: seq<Permission>, q: Query, mode: Mode)
    requires SameButRoles(c, d) && !mode.FirstChoice?
    ensures FindPermission(d, permissions, q, mode) == FindPermission(c, permissions, q, mode)
  {
    if permissions != [] { ChosenAlike(c, d, permissions[1..], q, mode); }
  }

  lemma MarkerAlike(c: Case, d: Case, m: MarkerPermission, q: Query, change: Change, role: Role)
    requires SameButRoles(c, d)
    ensures Has(d, m.permissions, q, Fixed(role)) == Has(c, m.permissions, q, Fixed(role))
    ensures MarkerAllows(d, m, q, change, role) == MarkerAllows(c, m, q, change, role)
  {
    ChosenAlike(c, d, m.permissions, q, Fixed(role));
    var need := change.PolicyNeed(m.marker);
    if need.Some? { ChosenAlike(c, d, m.permissions, need.value, EveryoneOr(role)); }
  }

  lemma ServesAlike(c: Case, d: Case, markers: seq<MarkerPermission>, q: Query, change: Change, role: Role)
    requires SameButRoles(c, d)
    ensures AllAllow(d, markers, q, change, role) == AllAllow(c, markers, q, change, role)
    ensures Serves(d, markers, q, change, role) == Serves(c, markers, q, change, role)
  {
    forall m: MarkerPermission
      ensures Has(d, m.permissions, q, Fixed(role)) == Has(c, m.permissions, q, Fixed(role))
      ensures MarkerAllows(d, m, q, change, role) == MarkerAllows(c, m, q, change, role)
    {
      MarkerAlike(c, d, m, q, change, role);
    }
  }

  lemma ListableAlike(c: Case, d: Case, markers: seq<MarkerPermission>, item: Item, role: Role)
    requires SameButRoles(c, d)
    ensures ListableBy(d, markers, item, role) == ListableBy(c, markers, item, role)
  {
    forall m ensures Has(d, PermissionsOf(markers, m), DataQuery(DataList, item.address), Fixed(role))
                  == Has(c, PermissionsOf(markers, m), DataQuery(DataList, item.address), Fixed(role)) {
      ChosenAlike(c, d, PermissionsOf(markers, m), DataQuery(DataList, item.address), Fixed(role));
    }
  }

  // ----- choosing a role: one more -----

  /** A permission of role r comes before every eligible match, and matches. */
  predicate Newly(c: Case, permissions: seq<Permission>, q: Query, style: Style, r: JsString) {
    && Given(c.subject.id) && permissions != [] && !Grants(c, q, FirstChoice(style), permissions[0])
    && ((Matches(c.re, q, permissions[0]) && permissions[0].role == Named(r)) || Newly(c, permissions[1..], q, style, r))
  }

  /** The new role changes what a first choice finds exactly in that case. */
  lemma {:induction false} FoundWithRole(c: Case, permissions: seq<Permission>, q: Query, style: Style, r: JsString)
    ensures var before := FindPermission(c, permissions, q, FirstChoice(style));
            var after := FindPermission(WithRole(c, r), permissions, q, FirstChoice(style));
            if Newly(c, permissions, q, style, r) then after.Some? && after.value.role == Named(r) else after == before
  {
    if permissions != [] && !Grants(c, q, FirstChoice(style), permissions[0]) {
      FoundWithRole(c, permissions[1..], q, style, r);
    }
  }

  /** A permission of role r comes before the first match in marker order. */
  predicate ChosenNewly(c: Case, markers: seq<MarkerPermission>, q: Query, r: JsString) {
    && markers != []
    && (|| Newly(c, markers[0].permissions, q, KeyOrOwner, r)
        || (!Has(c, markers[0].permissions, q, FirstChoice(KeyOrOwner)) && ChosenNewly(c, markers[1..], q, r)))
  }

  lemma {:induction false} ChosenRoleWithRole(c: Case, markers: seq<MarkerPermission>, q: Query, r: JsString)
    ensures ChosenRole(WithRole(c, r), markers, q)
         == if ChosenNewly(c, markers, q, r) then Some(Named(r)) else ChosenRole(c, markers, q)
  {
    if markers != [] {
      FoundWithRole(c, markers[0].permissions, q, KeyOrOwner, r);
      ChosenRoleWithRole(c, markers[1..], q, r);
    }
  }

  // ----- choosing a role: one less -----

  /** The subject may use the role without holding r. */
  predicate RoleKept(c: Case, style: Style, role: Role, r: JsString) {
    role != Named(r) || (if style.KeyOrOwner? && c.ctx.recordKey.Some? then role == ADMIN else Owns(c))
  }

  lemma EligibleWithout(c: Case, style: Style, role: Role, r: JsString)
    ensures Eligible(WithoutRole(c, r), style, role) <==> Eligible(c, style, role) && RoleKept(c, style, role, r)
  {}

  lemma {:induction false} FoundWithoutRole(c: Case, permissions: seq<Permission>, q: Query, style: Style, r: JsString)
    ensures var before := FindPermission(c, permissions, q, FirstChoice(style));
            var after := FindPermission(WithoutRole(c, r), permissions, q, FirstChoice(style));
            && (after.Some? ==> before.Some?)
            && (before.Some? && RoleKept(c, style, before.value.role, r) ==> after == before)
  {
    if permissions != [] {
      EligibleWithout(c, style, permissions[0].role, r);
      FoundWithoutRole(c, permissions[1..], q, style, r);
    }
  }

  /** Some permission matches under a role that the subject keeps. */
  predicate KeepsMatch(c: Case, permissions: seq<Permission>, q: Query, style: Style, r: JsString) {
    exists p | p in permissions :: Grants(c, q, FirstChoice(style), p) && RoleKept(c, style, p.role, r)
  }

  lemma KeptMatchExact(c: Case, permissions: seq<Permission>, q: Query, style: Style, r: JsString)
    ensures Has(WithoutRole(c, r), permissions, q, FirstChoice(style)) <==> KeepsMatch(c, permissions, q, style, r)
  {
    HasMeaning(WithoutRole(c, r), permissions, q, FirstChoice(style));
    forall p ensures Grants(WithoutRole(c, r), q, FirstChoice(style), p)
                <==> Grants(c, q, FirstChoice(style), p) && RoleKept(c, style, p.role, r) {
      EligibleWithout(c, style, p.role, r);
    }
  }

  lemma {:induction false} ChosenRoleWithoutRole(c: Case, markers: seq<MarkerPermission>, q: Query, r: JsString)
    requires ChosenRole(c, markers, q).Some? && RoleKept(c, KeyOrOwner, ChosenRole(c, markers, q).value, r)
    ensures ChosenRole(WithoutRole(c, r), markers, q) == ChosenRole(c, markers, q)
  {
    FoundWithoutRole(c, markers[0].permissions, q, KeyOrOwner, r);
    if !Has(c, markers[0].permissions, q, FirstChoice(KeyOrOwner)) { ChosenRoleWithoutRole(c, markers[1..], q, r); }
  }

  // ----- one subject -----

  /** The requests for which one role is chosen and held. */
  predicate RoleBound(req: Request) { req.Create? || req.Update? || req.UpdateFile? }

  function ChangeIn(req: Request): Change
    requires RoleBound(req)
  {
    if req.Create? then Creating else Changing(req.existing, req.added, req.removed)
  }

  /** The role the search settles on: for updates at any marker, otherwise at the first. */
  function Choice(c: Case, markers: seq<MarkerPermission>, req: Request): Option<Role>
    requires RoleBound(req)
  {
    if req.Update? then ChosenRole(c, markers, req.query)
    else ChosenRole(c, if markers == [] then [] else markers[..1], req.query)
  }

  /** A role that does for the request. */
  predicate Suits(c: Case, markers: seq<MarkerPermission>, req: Request, role: Role)
    requires RoleBound(req)
  {
    if req.Update? then Serves(c, markers, req.query, ChangeIn(req), role)
    else role.Truthy() && AllAllow(c, markers, req.query, ChangeIn(req), role)
  }

  lemma ChoiceAtFirst(c: Case, markers: seq<MarkerPermission>, req: Request)
    requires RoleBound(req) && !req.Update? && markers != []
    ensures Choice(c, markers, req)
         == var p := FindPermission(c, markers[0].permissions, req.query, FirstChoice(KeyOrOwner));
            if p.Some? then Some(p.value.role) else None
  {
    var first := markers[..1];
    assert first[0] == markers[0] && first[1..] == [];
    assert ChosenRole(c, first[1..], req.query).None?;
  }

  /** What the request needs besides permissions. */
  predicate Changes(req: Request) {
    req.UpdateFile? ==> |OrEmpty(req.added)| + |OrEmpty(req.removed)| > 0
                        && WillMarkersBeRemaining(req.existing, req.removed, req.added)
  }

  /** Such a request is granted to a subject exactly when the role settled on does for it. */
  lemma ChoiceDecides(c: Case, markers: seq<MarkerPermission>, req: Request)
    requires RoleBound(req) && Changes(req)
    ensures AuthorizeSubject(c, markers, req).Granted?
        <==> Choice(c, markers, req).Some? && Suits(c, markers, req, Choice(c, markers, req).value)
  {
    if req.Update? {
      UpdateExact(c, markers, req.query, ChangeIn(req));
    } else {
      CreateExact(c, markers, req.query, ChangeIn(req));
      if markers != [] { ChoiceAtFirst(c, markers, req); }
    }
  }

  lemma SuitsAlike(c: Case, d: Case, markers: seq<MarkerPermission>, req: Request, role: Role)
    requires RoleBound(req) && SameButRoles(c, d)
    ensures Suits(d, markers, req, role) == Suits(c, markers, req, role)
  {
    ServesAlike(c, d, markers, req.query, ChangeIn(req), role);
  }

  /** The new role would be the one chosen. */
  predicate Displaced(c: Case, markers: seq<MarkerPermission>, req: Request, r: JsString)
    requires RoleBound(req)
  {
    ChosenNewly(c, if req.Update? || markers == [] then markers else markers[..1], req.query, r)
  }

  /** The subject can do with one more role what it could before. */
  predicate Unspoiled(c: Case, markers: seq<MarkerPermission>, req: Request, r: JsString)
    requires RoleBound(req)
  {
    Displaced(c, markers, req, r) ==> Suits(c, markers, req, Named(r))
  }

  lemma UnspoiledExact(c: Case, markers: seq<MarkerPermission>, req: Request, r: JsString)
    requires RoleBound(req) && AuthorizeSubject(c, markers, req).Granted?
    ensures AuthorizeSubject(WithRole(c, r), markers, req).Granted? <==> Unspoiled(c, markers, req, r)
  {
    ChoiceDecides(c, markers, req);
    ChoiceDecides(WithRole(c, r), markers, req);
    ChosenRoleWithRole(c, if req.Update? || markers == [] then markers else markers[..1], req.query, r);
    SuitsAlike(c, WithRole(c, r), markers, req, Choice(WithRole(c, r), markers, req).value);
  }

  /** The subject can do with one role less what it could before: the role it
      settled on is not the one it loses, or the next one does for the request. */
  predicate Outlasts(c: Case, markers: seq<MarkerPermission>, req: Request, r: JsString)
    requires RoleBound(req)
  {
    var now, next := Choice(c, markers, req), Choice(WithoutRole(c, r), markers, req);
    || (now.Some? && RoleKept(c, KeyOrOwner, now.value, r))
    || (next.Some? && Suits(c, markers, req, next.value))
  }

  lemma OutlastsExact(c: Case, markers: seq<MarkerPermission>, req: Request, r: JsString)
    requires RoleBound(req) && AuthorizeSubject(c, markers, req).Granted?
    ensures AuthorizeSubject(WithoutRole(c, r), markers, req).Granted? <==> Outlasts(c, markers, req, r)
  {
    ChoiceDecides(c, markers, req);
    ChoiceDecides(WithoutRole(c, r), markers, req);
    var next := Choice(WithoutRole(c, r), markers, req);
    if next.Some? { SuitsAlike(c, WithoutRole(c, r), markers, req, next.value); }
    if RoleKept(c, KeyOrOwner, Choice(c, markers, req).value, r) {
      ChosenRoleWithoutRole(c, if req.Update? || markers == [] then markers else markers[..1], req.query, r);
    }
  }

  /** Some marker's permissions match under a role that the subject keeps. */
  predicate SomeKept(c: Case, markers: seq<MarkerPermission>, q: Query, style: Style, r: JsString) {
    exists m | m in markers :: KeepsMatch(c, m.permissions, q, style, r)
  }

  lemma SomeKeptExact(c: Case, style: Style, markers: seq<MarkerPermission>, q: Query, d: DenialReason, r: JsString)
    ensures AuthorizeAny(WithoutRole(c, r), style, markers, q, d).Granted? <==> SomeKept(c, markers, q, style, r)
  {
    AnyExact(WithoutRole(c, r), style, markers, q, d);
    forall m: MarkerPermission
      ensures Has(WithoutRole(c, r), m.permissions, q, FirstChoice(style)) <==> KeepsMatch(c, m.permissions, q, style, r)
    {
      KeptMatchExact(c, m.permissions, q, style, r);
    }
  }

  lemma AnyWithRole(c: Case, style: Style, markers: seq<MarkerPermission>, q: Query, d: DenialReason, r: JsString)
    requires AuthorizeAny(c, style, markers, q, d).Granted?
    ensures AuthorizeAny(WithRole(c, r), style, markers, q, d).Granted?
  {
    AnyExact(c, style, markers, q, d);
    AnyExact(WithRole(c, r), style, markers, q, d);
    var m :| m in markers && Has(c, m.permissions, q, FirstChoice(style));
    FoundWithRole(c, m.permissions, q, style, r);
  }

  /** The subject's request survives gaining, or losing, role r. */
  predicate Survives(c: Case, markers: seq<MarkerPermission>, req: Request, r: JsString, gained: bool)
    requires !req.ListData?
  {
    if RoleBound(req) then (if gained then Unspoiled(c, markers, req, r) else Outlasts(c, markers, req, r))
    else gained || SomeKept(c, markers, req.query, StyleOf(req), r)
  }

  lemma SurvivesExact(c: Case, markers: seq<MarkerPermission>, req: Request, r: JsString, gained: bool)
    requires !req.ListData? && AuthorizeSubject(c, markers, req).Granted?
    ensures AuthorizeSubject(if gained then WithRole(c, r) else WithoutRole(c, r), markers, req).Granted?
        <==> Survives(c, markers, req, r, gained)
  {
    if RoleBound(req) {
      if gained { UnspoiledExact(c, markers, req, r); } else { OutlastsExact(c, markers, req, r); }
    } else if gained {
      AnyWithRole(c, StyleOf(req), markers, req.query, MissingRole, r);
    } else {
      SomeKeptExact(c, StyleOf(req), markers, req.query, MissingRole, r);
    }
  }

  // ----- the store after a role was granted or revoked -----

  function AfterRole(s: Setting, op: RoleOp): Setting { s.(st := Apply(s.st, op)) }

  predicate Grantee(s: Setting, op: RoleOp, who: Option<JsString>) {
    op.record == s.ctx.recordName && who == Some(op.id)
  }

  /** The role is held now because of the grant, or because it is permanent. A
      grant that has run out leaves the role as a revocation does, however long
      it was held before. */
  predicate Lasting(s: Setting, op: RoleOp) {
    op.role in s.st.StaticRoles(op.record, op.id) || (op.Grant? && Unexpired(op.expire, s.now))
  }

  function CaseThen(s: Setting, op: RoleOp, kind: SubjectKind, who: Option<JsString>): Case {
    var c := s.CaseOf(kind, who);
    if !Grantee(s, op, who) then c else if Lasting(s, op) then WithRole(c, op.role) else WithoutRole(c, op.role)
  }

  lemma HeldAfter(s: Setting, op: RoleOp, id: JsString, r: JsString)
    requires op.now <= s.now
    ensures Holds(Apply(s.st, op), s.ctx.recordName, id, r, s.now)
        <==> if op.About(s.ctx.recordName, id, r) then Lasting(s, op) else Holds(s.st, s.ctx.recordName, id, r, s.now)
  {
    if op.About(s.ctx.recordName, id, r) {
      match op
      case Grant(record, _, role, expire, now) => GrantTiming(s.st, record, id, role, expire, now, s.now);
      case Revoke(record, _, role, now) => RevokeTiming(s.st, record, id, role, now, s.now);
    } else {
      OthersUntouched(s.st, op, s.ctx.recordName, id, r, s.now);
    }
  }

  lemma NamedAfter(s: Setting, op: RoleOp, id: JsString, r: JsString)
    requires op.now <= s.now
    ensures r in Apply(s.st, op).RoleNames(s.ctx.recordName, id, s.now)
        <==> if op.About(s.ctx.recordName, id, r) then Lasting(s, op)
             else r in s.st.RoleNames(s.ctx.recordName, id, s.now)
  {
    HeldAfter(s, op, id, r);
    assert r in s.st.RoleNames(s.ctx.recordName, id, s.now) <==> Holds(s.st, s.ctx.recordName, id, r, s.now);
  }

  function NamesThen(s: Setting, op: RoleOp, id: JsString): set<JsString> {
    var before := s.st.RoleNames(s.ctx.recordName, id, s.now);
    if !Grantee(s, op, Some(id)) then before else if Lasting(s, op) then before + {op.role} else before - {op.role}
  }

  lemma NamesAfter(s: Setting, op: RoleOp, id: JsString)
    requires op.now <= s.now
    ensures Apply(s.st, op).RoleNames(s.ctx.recordName, id, s.now) == NamesThen(s, op, id)
  {
    forall r ensures r in Apply(s.st, op).RoleNames(s.ctx.recordName, id, s.now) <==> r in NamesThen(s, op, id) {
      NamedAfter(s, op, id, r);
    }
  }

  /** Only the grantee changes, and only by the role. */
  lemma CasesAfter(s: Setting, op: RoleOp, kind: SubjectKind, who: Option<JsString>)
    requires op.now <= s.now
    ensures AfterRole(s, op).CaseOf(kind, who) == CaseThen(s, op, kind, who)
  {
    if who.Some? { NamesAfter(s, op, who.value); }
  }

  lemma {:induction false} SameMarkers(a: Store, b: Store, record: JsString, names: seq<JsString>)
    requires a.policies == b.policies
    ensures MarkersOf(a, record, names) == MarkersOf(b, record, names)
  {
    if names != [] { SameMarkers(a, b, record, names[1..]); }
  }

  predicate SubjectSurvives(s: Setting, op: RoleOp, kind: SubjectKind, who: Option<JsString>, req: Request)
    requires !req.ListData?
  {
    Grantee(s, op, who) ==>
      Survives(s.CaseOf(kind, who), MarkersOf(s.st, s.ctx.recordName, req.Markers()), req, op.role, Lasting(s, op))
  }

  lemma SubjectAfterRole(s: Setting, op: RoleOp, kind: SubjectKind, who: Option<JsString>, req: Request)
    requires op.now <= s.now && !req.ListData? && SubjectGranted(s, kind, who, req)
    ensures SubjectGranted(AfterRole(s, op), kind, who, req) <==> SubjectSurvives(s, op, kind, who, req)
  {
    var markers := MarkersOf(s.st, s.ctx.recordName, req.Markers());
    CasesAfter(s, op, kind, who);
    SameMarkers(s.st, Apply(s.st, op), s.ctx.recordName, req.Markers());
    if Grantee(s, op, who) { SurvivesExact(s.CaseOf(kind, who), markers, req, op.role, Lasting(s, op)); }
  }

  /** An allowed request is still allowed after a role was granted or revoked, at
      any later time, exactly when it survives for the grantee as the user and as
      a checked instance. Gaining the role spoils no read-like request, and others
      unless a permission of it comes before the first match and it does not do;
      losing it leaves read-like requests with another match, and others if they
      had settled on another role or the next one does. All of it is told from
      the store before the change. */
  lemma RoleChangeExact(s: Setting, op: RoleOp, who: Requester, req: Request)
    requires op.now <= s.now && !req.ListData? && Authorize(s, who, req).Allowed?
    ensures Authorize(AfterRole(s, op), who, req).Allowed?
        <==> && SubjectSurvives(s, op, User, who.userId, req)
             && forall inst | inst in Checked(s, who, req) :: SubjectSurvives(s, op, Inst, Some(inst), req)
  {
    var t := AfterRole(s, op);
    AllowedExact(s, who, req);
    AllowedExact(t, who, req);
    SubjectAfterRole(s, op, User, who.userId, req);
    forall inst | inst in Checked(s, who, req)
      ensures SubjectGranted(t, Inst, Some(inst), req) <==> SubjectSurvives(s, op, Inst, Some(inst), req)
    {
      assert SubjectGranted(s, Inst, Some(inst), req);
      SubjectAfterRole(s, op, Inst, Some(inst), req);
    }
  }

  /** While a granted role lasts, the grant has spoiled no read, delete, count,
      increment, policy or role request. */
  lemma RoleGrantKeepsAllowed(s: Setting, op: RoleOp, who: Requester, req: Request)
    requires op.now <= s.now && Lasting(s, op) && (req.Use? || req.Manage?) && Authorize(s, who, req).Allowed?
    ensures Authorize(AfterRole(s, op), who, req).Allowed?
  {
    RoleChangeExact(s, op, who, req);
  }

  // ----- lists -----

  predicate ItemNewly(c: Case, markers: seq<MarkerPermission>, item: Item, from: nat, r: JsString)
    requires from <= |item.markers|
    decreases |item.markers| - from
  {
    && from < |item.markers|
    && var permissions, q := PermissionsOf(markers, item.markers[from]), DataQuery(DataList, item.address);
    || Newly(c, permissions, q, KeyOrOwner, r)
    || (!Has(c, permissions, q, FirstChoice(KeyOrOwner)) && ItemNewly(c, markers, item, from + 1, r))
  }

  /** A permission of role r comes before the first match of the list. */
  predicate ListNewly(c: Case, markers: seq<MarkerPermission>, items: seq<Item>, r: JsString) {
    && items != []
    && (|| ItemNewly(c, markers, items[0], 0, r)
        || (ItemPermission(c, markers, items[0], 0, None).None? && ListNewly(c, markers, items[1..], r)))
  }

  lemma {:induction false} ItemWithRole(c: Case, markers: seq<MarkerPermission>, item: Item, from: nat, r: JsString)
    requires from <= |item.markers|
    ensures var before := ItemPermission(c, markers, item, from, None);
            var after := ItemPermission(WithRole(c, r), markers, item, from, None);
            if ItemNewly(c, markers, item, from, r) then after.Some? && after.value.role == Named(r) else after == before
    decreases |item.markers| - from
  {
    if from < |item.markers| {
      FoundWithRole(c, PermissionsOf(markers, item.markers[from]), DataQuery(DataList, item.address), KeyOrOwner, r);
      ItemWithRole(c, markers, item, from + 1, r);
    }
  }

  lemma {:induction false} ListRoleWithRole(c: Case, markers: seq<MarkerPermission>, items: seq<Item>, r: JsString)
    ensures ListRole(WithRole(c, r), markers, items)
         == if ListNewly(c, markers, items, r) then Some(Named(r)) else ListRole(c, markers, items)
  {
    if items != [] {
      ItemWithRole(c, markers, items[0], 0, r);
      ListRoleWithRole(c, markers, items[1..], r);
    }
  }

  lemma {:induction false} ItemWithoutRole(c: Case, markers: seq<MarkerPermission>, item: Item, from: nat, r: JsString)
    requires from <= |item.markers|
    ensures var before := ItemPermission(c, markers, item, from, None);
            var after := ItemPermission(WithoutRole(c, r), markers, item, from, None);
            && (after.Some? ==> before.Some?)
            && (before.Some? && RoleKept(c, KeyOrOwner, before.value.role, r) ==> after == before)
    decreases |item.markers| - from
  {
    if from < |item.markers| {
      FoundWithoutRole(c, PermissionsOf(markers, item.markers[from]), DataQuery(DataList, item.address), KeyOrOwner, r);
      ItemWithoutRole(c, markers, item, from + 1, r);
    }
  }

  lemma {:induction false} ListRoleWithoutRole(c: Case, markers: seq<MarkerPermission>, items: seq<Item>, r: JsString)
    requires ListRole(c, markers, items).Some? && RoleKept(c, KeyOrOwner, ListRole(c, markers, items).value, r)
    ensures ListRole(WithoutRole(c, r), markers, items) == ListRole(c, markers, items)
  {
    ItemWithoutRole(c, markers, items[0], 0, r);
    if ItemPermission(c, markers, items[0], 0, None).None? { ListRoleWithoutRole(c, markers, items[1..], r); }
  }

  /** The item survives the subject's gaining, or losing, role r. */
  predicate ItemSurvives(c: Case, markers: seq<MarkerPermission>, items: seq<Item>, item: Item, r: JsString, gained: bool) {
    if gained then ListNewly(c, markers, items, r) ==> ListableBy(c, markers, item, Named(r))
    else
      var now, next := ListRole(c, markers, items), ListRole(WithoutRole(c, r), markers, items);
      || (now.Some? && RoleKept(c, KeyOrOwner, now.value, r))
      || (next.Some? && ListableBy(c, markers, item, next.value))
  }

  lemma ItemSurvivesExact(c: Case, markers: seq<MarkerPermission>, items: seq<Item>, item: Item, r: JsString, gained: bool)
    requires item in SeenBy(c, markers, items)
    ensures item in SeenBy(if gained then WithRole(c, r) else WithoutRole(c, r), markers, items)
        <==> ItemSurvives(c, markers, items, item, r, gained)
  {
    var d := if gained then WithRole(c, r) else WithoutRole(c, r);
    SeenExact(c, markers, items, item);
    SeenExact(d, markers, items, item);
    if gained { ListRoleWithRole(c, markers, items, r); }
    else if RoleKept(c, KeyOrOwner, ListRole(c, markers, items).value, r) { ListRoleWithoutRole(c, markers, items, r); }
    var role := ListRole(d, markers, items);
    if role.Some? { ListableAlike(c, d, markers, item, role.value); }
  }

  predicate SubjectStillLists(s: Setting, op: RoleOp, kind: SubjectKind, who: Option<JsString>, items: seq<Item>, item: Item) {
    Grantee(s, op, who) ==>
      ItemSurvives(s.CaseOf(kind, who), MarkersOf(s.st, s.ctx.recordName, ListData(items).Markers()), items, item, op.role,
                   Lasting(s, op))
  }

  lemma ListsAfterRole(s: Setting, op: RoleOp, kind: SubjectKind, who: Option<JsString>, items: seq<Item>, item: Item)
    requires op.now <= s.now && SubjectLists(s, kind, who, items, item)
    ensures SubjectLists(AfterRole(s, op), kind, who, items, item) <==> SubjectStillLists(s, op, kind, who, items, item)
  {
    var names := ListData(items).Markers();
    CasesAfter(s, op, kind, who);
    SameMarkers(s.st, Apply(s.st, op), s.ctx.recordName, names);
    if Grantee(s, op, who) {
      ItemSurvivesExact(s.CaseOf(kind, who), MarkersOf(s.st, s.ctx.recordName, names), items, item, op.role, Lasting(s, op));
    }
  }

  /** A listed item is still listed after a role was granted or revoked exactly
      when it survives for the grantee as the user and as a checked instance. */
  lemma ListAfterRoleExact(s: Setting, op: RoleOp, who: Requester, items: seq<Item>, item: Item)
    requires op.now <= s.now && KeysDistinct(items, AddressOf()) && item in ListedItems(s, who, items)
    ensures Authorize(AfterRole(s, op), who, ListData(items)).Allowed?
    ensures item in ListedItems(AfterRole(s, op), who, items)
        <==> && SubjectStillLists(s, op, User, who.userId, items, item)
             && forall inst | inst in Checked(s, who, ListData(items)) ::
                  SubjectStillLists(s, op, Inst, Some(inst), items, item)
  {
    var t := AfterRole(s, op);
    ListExact(s, who, items);
    ListExact(t, who, items);
    ListedMeans(s, who, items, item);
    ListedMeans(t, who, items, item);
    ListsAfterRole(s, op, User, who.userId, items, item);
    forall inst | inst in Checked(s, who, ListData(items))
      ensures SubjectLists(t, Inst, Some(inst), items, item) <==> SubjectStillLists(s, op, Inst, Some(inst), items, item)
    {
      assert SubjectLists(s, Inst, Some(inst), items, item);
      ListsAfterRole(s, op, Inst, Some(inst), items, item);
    }
  }

  lemma AllowedAlone(s: Setting, who: Requester, req: Request)
    requires Admissible(who, req) && OrEmpty(who.instances) == [] && SubjectGranted(s, User, who.userId, req)
    ensures Authorize(s, who, req).Allowed?
  {
    AllowedExact(s, who, req);
  }

  lemma DeniedLoggedIn(s: Setting, who: Requester, req: Request)
    requires Given(who.userId) && !Authorize(s, who, req).Allowed?
    ensures Authorize(s, who, req).NotAuthorized?
  {}

  // ----- a role grant that takes a creation away -----

  function Creates(r: JsString): Permission { DataPermission(DataCreate, Named(r), All) }

  /** Roles a and b may create under m, only b may assign it; an outsider holds b. */
  predicate CreateScene(s: Setting, who: Requester, a: JsString, b: JsString, m: JsString) {
    && Outsider(s, who.userId) && OrEmpty(who.instances) == []
    && a != b && b != [] && a != ADMIN_ROLE_NAME && b != ADMIN_ROLE_NAME && m != PUBLIC_READ_MARKER
    && Holds(s.st, s.ctx.recordName, who.userId.value, b, s.now)
    && !Holds(s.st, s.ctx.recordName, who.userId.value, a, s.now)
    && s.st.DocumentOf(s.ctx.recordName, m) == [Creates(a), Creates(b), Assigns(b)]
  }

  lemma CreateSceneOffers(s: Setting, who: Requester, a: JsString, b: JsString, m: JsString, address: JsString)
    requires CreateScene(s, who, a, b, m)
    ensures var c, perms, q := s.CaseOf(User, who.userId), s.st.PermissionsFor(s.ctx.recordName, m),
            DataQuery(DataCreate, address);
            && FindPermission(c, perms, q, FirstChoice(KeyOrOwner)) == Some(Creates(b))
            && Has(c, perms, q, Fixed(Named(b))) && Has(c, perms, PolicyQuery(PolicyAssign, m), EveryoneOr(Named(b)))
            && !Has(c, perms, PolicyQuery(PolicyAssign, m), EveryoneOr(Named(a)))
            && FindPermission(WithRole(c, a), perms, q, FirstChoice(KeyOrOwner)) == Some(Creates(a))
  {
    var c, record, q, need := s.CaseOf(User, who.userId), s.ctx.recordName, DataQuery(DataCreate, address),
        PolicyQuery(PolicyAssign, m);
    var d := [Creates(a), Creates(b), Assigns(b)];
    assert d[1..] == [Creates(b), Assigns(b)] && [Creates(b), Assigns(b)][1..] == [Assigns(b)] && [Assigns(b)][1..] == [];
    DefaultsSkipped(c, s.st, record, m, q, FirstChoice(KeyOrOwner));
    DefaultsSkipped(WithRole(c, a), s.st, record, m, q, FirstChoice(KeyOrOwner));
    DefaultsSkipped(c, s.st, record, m, q, Fixed(Named(b)));
    DefaultsSkipped(c, s.st, record, m, need, EveryoneOr(Named(b)));
    DefaultsSkipped(c, s.st, record, m, need, EveryoneOr(Named(a)));
    assert d[2] in d;
    HasMeaning(c, d, need, EveryoneOr(Named(b)));
    HasMeaning(c, d, need, EveryoneOr(Named(a)));
  }

  lemma OneMarker(st: Store, record: JsString, m: JsString)
    ensures MarkersOf(st, record, [m]) == [Entry(st, record, m)]
  {
    assert [m][1..] == [];
    assert MarkersOf(st, record, [m]) == [Entry(st, record, m)] + MarkersOf(st, record, []);
  }

  /** In every such store, granting the user role a turns the allowed creation into
      a denied one: the search now settles on a, which may not assign the marker. */
  lemma RoleGrantCanDenyCreate(s: Setting, who: Requester, a: JsString, b: JsString, m: JsString, address: JsString,
                               expire: Milliseconds)
    requires CreateScene(s, who, a, b, m) && Unexpired(expire, s.now)
    ensures var req := Create(DataQuery(DataCreate, address), [m]);
            && Authorize(s, who, req).Allowed?
            && Authorize(AfterRole(s, Grant(s.ctx.recordName, who.userId.value, a, expire, s.now)), who, req).NotAuthorized?
  {
    var op, req := Grant(s.ctx.recordName, who.userId.value, a, expire, s.now), Create(DataQuery(DataCreate, address), [m]);
    CreateSceneSpoiled(s, who, a, b, m, address);
    AllowedAlone(s, who, req);
    RoleChangeExact(s, op, who, req);
    SpoiledCreation(s, op, who.userId, req);
    DeniedLoggedIn(AfterRole(s, op), who, req);
  }

  lemma CreateSceneSpoiled(s: Setting, who: Requester, a: JsString, b: JsString, m: JsString, address: JsString)
    requires CreateScene(s, who, a, b, m)
    ensures var req := Create(DataQuery(DataCreate, address), [m]);
            && SubjectGranted(s, User, who.userId, req)
            && !Unspoiled(s.CaseOf(User, who.userId), MarkersOf(s.st, s.ctx.recordName, [m]), req, a)
  {
    CreateSceneOffers(s, who, a, b, m, address);
    OneMarker(s.st, s.ctx.recordName, m);
    OneMarkerCreated(s.CaseOf(User, who.userId), Entry(s.st, s.ctx.recordName, m),
                     Create(DataQuery(DataCreate, address), [m]), a, b);
  }

  lemma SpoiledCreation(s: Setting, op: RoleOp, who: Option<JsString>, req: Request)
    requires Grantee(s, op, who) && Lasting(s, op) && req.Create?
    requires !Unspoiled(s.CaseOf(User, who), MarkersOf(s.st, s.ctx.recordName, req.Markers()), req, op.role)
    ensures !SubjectSurvives(s, op, User, who, req)
  {}

  lemma OneMarkerCreated(c: Case, entry: MarkerPermission, req: Request, a: JsString, b: JsString)
    requires req.Create? && a != b && b != []
    requires FindPermission(c, entry.permissions, req.query, FirstChoice(KeyOrOwner)) == Some(Creates(b))
    requires Has(c, entry.permissions, req.query, Fixed(Named(b)))
    requires Has(c, entry.permissions, PolicyQuery(PolicyAssign, entry.marker), EveryoneOr(Named(b)))
    requires !Has(c, entry.permissions, PolicyQuery(PolicyAssign, entry.marker), EveryoneOr(Named(a)))
    requires FindPermission(WithRole(c, a), entry.permissions, req.query, FirstChoice(KeyOrOwner)) == Some(Creates(a))
    ensures AuthorizeSubject(c, [entry], req).Granted? && !Unspoiled(c, [entry], req, a)
  {
    var markers := [entry];
    assert markers[0] in markers && markers[..1] == markers;
    CreateExact(c, markers, req.query, Creating);
    FoundWithRole(c, entry.permissions, req.query, KeyOrOwner, a);
  }

  /** Such a store: the user holds role b for good, and one document is stored. */
  function CreateSceneStore(record: JsString, user: JsString, a: JsString, b: JsString, m: JsString): Store {
    Store(map[(record, m) := PolicyEntry([Creates(a), Creates(b), Assigns(b)], [ACCOUNT_MARKER])],
          map[(record, user) := [b]], map[])
  }

  lemma CreateSceneArises(re: Regex, record: JsString, owner: JsString, user: JsString, a: JsString, b: JsString,
                          m: JsString, now: int)
    requires user != [] && user != owner && m != PUBLIC_READ_MARKER
    requires a != b && b != [] && a != ADMIN_ROLE_NAME && b != ADMIN_ROLE_NAME
    ensures CreateScene(Setting(re, CreateSceneStore(record, user, a, b, m), now, Context(record, owner, None)),
                        Requester(Some(user), None), a, b, m)
  {
    var st := CreateSceneStore(record, user, a, b, m);
    HoldsMeaning(st, record, user, a, now);
    HoldsMeaning(st, record, user, b, now);
    HoldsMeaning(st, record, user, ADMIN_ROLE_NAME, now);
    assert [b][0] == b;
  }

  // ----- a role grant that takes a reading away -----

  function Reads(r: JsString): Permission { DataPermission(DataRead, Named(r), All) }

  /** Only role b may read under m; an outsider holds b, but not for good. */
  predicate ReadScene(s: Setting, who: Requester, b: JsString, m: JsString) {
    && Outsider(s, who.userId) && OrEmpty(who.instances) == []
    && b != ADMIN_ROLE_NAME && m != PUBLIC_READ_MARKER
    && Holds(s.st, s.ctx.recordName, who.userId.value, b, s.now)
    && b !in s.st.StaticRoles(s.ctx.recordName, who.userId.value)
    && s.st.DocumentOf(s.ctx.recordName, m) == [Reads(b)]
  }

  lemma ReadSceneSubject(s: Setting, who: Requester, b: JsString, m: JsString)
    requires ReadScene(s, who, b, m)
    ensures var c := s.CaseOf(User, who.userId);
            && !Eligible(c, KeyOrOwner, ADMIN) && Eligible(c, KeyOrOwner, Named(b))
            && !RoleKept(c, KeyOrOwner, Named(b), b)
  {}

  lemma ReadersRead(c: Case, st: Store, record: JsString, b: JsString, m: JsString, q: Query)
    requires !Eligible(c, KeyOrOwner, ADMIN) && m != PUBLIC_READ_MARKER && st.DocumentOf(record, m) == [Reads(b)]
    ensures Has(c, st.PermissionsFor(record, m), q, FirstChoice(KeyOrOwner)) <==> Grants(c, q, FirstChoice(KeyOrOwner), Reads(b))
  {
    DefaultsSkipped(c, st, record, m, q, FirstChoice(KeyOrOwner));
    assert [Reads(b)][1..] == [];
  }

  /** For a subject who may use role b and not the administrator's, only through holding it. */
  lemma OnlyThroughRole(c: Case, st: Store, record: JsString, b: JsString, m: JsString, address: JsString)
    requires !Eligible(c, KeyOrOwner, ADMIN) && Eligible(c, KeyOrOwner, Named(b)) && !RoleKept(c, KeyOrOwner, Named(b), b)
    requires m != PUBLIC_READ_MARKER && st.DocumentOf(record, m) == [Reads(b)]
    ensures Has(c, st.PermissionsFor(record, m), DataQuery(DataRead, address), FirstChoice(KeyOrOwner))
    ensures !KeepsMatch(c, st.PermissionsFor(record, m), DataQuery(DataRead, address), KeyOrOwner, b)
  {
    EligibleWithout(c, KeyOrOwner, ADMIN, b);
    EligibleWithout(c, KeyOrOwner, Named(b), b);
    ReadersRead(c, st, record, b, m, DataQuery(DataRead, address));
    ReadersRead(WithoutRole(c, b), st, record, b, m, DataQuery(DataRead, address));
    Dependent(c, st.PermissionsFor(record, m), DataQuery(DataRead, address), b);
  }

  lemma Dependent(c: Case, permissions: seq<Permission>, q: Query, b: JsString)
    requires Has(c, permissions, q, FirstChoice(KeyOrOwner)) && !Has(WithoutRole(c, b), permissions, q, FirstChoice(KeyOrOwner))
    ensures !KeepsMatch(c, permissions, q, KeyOrOwner, b)
  {
    KeptMatchExact(c, permissions, q, KeyOrOwner, b);
  }

  lemma OneMarkerRead(c: Case, entry: MarkerPermission, q: Query, r: JsString)
    requires Has(c, entry.permissions, q, FirstChoice(KeyOrOwner)) && !KeepsMatch(c, entry.permissions, q, KeyOrOwner, r)
    ensures AuthorizeAny(c, KeyOrOwner, [entry], q, MissingRole).Granted? && !SomeKept(c, [entry], q, KeyOrOwner, r)
  {}

  lemma ReadSceneAllowed(s: Setting, who: Requester, b: JsString, m: JsString, address: JsString)
    requires ReadScene(s, who, b, m)
    ensures SubjectGranted(s, User, who.userId, Use(DataQuery(DataRead, address), [m]))
    ensures var markers := MarkersOf(s.st, s.ctx.recordName, [m]);
            !SomeKept(s.CaseOf(User, who.userId), markers, DataQuery(DataRead, address), KeyOrOwner, b)
  {
    var c := s.CaseOf(User, who.userId);
    ReadSceneSubject(s, who, b, m);
    OnlyThroughRole(c, s.st, s.ctx.recordName, b, m, address);
    OneMarker(s.st, s.ctx.recordName, m);
    OneMarkerRead(c, Entry(s.st, s.ctx.recordName, m), DataQuery(DataRead, address), b);
  }

  lemma ReadSceneLapses(s: Setting, who: Requester, b: JsString, m: JsString, expire: int, at: int)
    requires ReadScene(s, who, b, m) && expire <= s.now
    ensures var op := Grant(s.ctx.recordName, who.userId.value, b, Some(expire), at);
            Grantee(s, op, who.userId) && !Lasting(s, op)
  {}

  /** In every such store, granting the user the role it holds, until a time that
      is past when it reads, turns the allowed reading into a denied one: the grant
      has dropped the assignment that would still run. */
  lemma LapsedGrantDeniesRead(s: Setting, who: Requester, b: JsString, m: JsString, address: JsString, expire: int, at: int)
    requires ReadScene(s, who, b, m) && at <= s.now && expire <= s.now
    ensures var req := Use(DataQuery(DataRead, address), [m]);
            && Authorize(s, who, req).Allowed?
            && Authorize(AfterRole(s, Grant(s.ctx.recordName, who.userId.value, b, Some(expire), at)), who, req).NotAuthorized?
  {
    var op, req := Grant(s.ctx.recordName, who.userId.value, b, Some(expire), at), Use(DataQuery(DataRead, address), [m]);
    ReadSceneAllowed(s, who, b, m, address);
    ReadSceneLapses(s, who, b, m, expire, at);
    AllowedAlone(s, who, req);
    RoleChangeExact(s, op, who, req);
    SpoiledRead(s, op, who.userId, req);
    DeniedLoggedIn(AfterRole(s, op), who, req);
  }

  lemma SpoiledRead(s: Setting, op: RoleOp, who: Option<JsString>, req: Request)
    requires Grantee(s, op, who) && !Lasting(s, op) && req.Use?
    requires !SomeKept(s.CaseOf(User, who), MarkersOf(s.st, s.ctx.recordName, req.Markers()), req.query, KeyOrOwner, op.role)
    ensures !SubjectSurvives(s, op, User, who, req)
  {}

  /** Such a store: the user holds role b until a later time, and one document is stored. */
  function ReadSceneStore(record: JsString, user: JsString, b: JsString, m: JsString, until: int): Store {
    Store(map[(record, m) := PolicyEntry([Reads(b)], [ACCOUNT_MARKER])], map[],
          map[(record, user) := [AssignedRole(b, Some(until))]])
  }

  lemma ReadSceneArises(re: Regex, record: JsString, owner: JsString, user: JsString, b: JsString, m: JsString,
                        now: int, until: int)
    requires user != [] && user != owner && m != PUBLIC_READ_MARKER && b != ADMIN_ROLE_NAME && now < until
    ensures ReadScene(Setting(re, ReadSceneStore(record, user, b, m, until), now, Context(record, owner, None)),
                      Requester(Some(user), None), b, m)
  {
    var st := ReadSceneStore(record, user, b, m, until);
    assert [AssignedRole(b, Some(until))][0].role == b;
    LiveBy(st.Assignments(record, user), AssignedRole(b, Some(until)), now);
    HoldsMeaning(st, record, user, b, now);
    HoldsMeaning(st, record, user, ADMIN_ROLE_NAME, now);
  }
}
