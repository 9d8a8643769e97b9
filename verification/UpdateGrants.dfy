/** Updates of data and events after grants: exactly when an allowed update
    stays allowed, and that a grant can take one away. */
module UpdateGrants {
  import opened JsStrings
  import opened Options
  import opened Permissions
  import opened PolicyStore
  import opened PolicyChanges
  import opened Authorization
  import opened AuthorizationLaws
  import opened GrantLaws

  // ----- any number of grants -----

  lemma {:induction false} PassesMonotone(c: Case, a: seq<MarkerPermission>, b: seq<MarkerPermission>, q: Query,
                                          change: Change, r: Role,
                                          has: bool, has': bool, clean: bool, clean': bool)
    requires Longer(a, b) && Passes(c, a, q, change, r, has, clean) && (has ==> has') && (clean ==> clean')
    ensures Passes(c, b, q, change, r, has', clean')
  {
    if a != [] {
      var m, n := a[0], b[0];
      var granted := Has(c, m.permissions, q, Fixed(r));
      if granted { FoundStays(c, m.permissions, n.permissions, q, Fixed(r)); }
      var need := change.PolicyNeed(m.marker);
      if change.Touches(m.marker) { FoundStays(c, m.permissions, n.permissions, need.value, EveryoneOr(r)); }
      var granted' := Has(c, n.permissions, q, Fixed(r));
      PassesMonotone(c, a[1..], b[1..], q, change, r, has || (change.Exists(m.marker) && granted),
                     has' || (change.Exists(n.marker) && granted'), clean && granted, clean' && granted');
    }
  }

  /** Role r satisfies what an update asks of the markers. */
  predicate Serves(c: Case, markers: seq<MarkerPermission>, q: Query, change: Change, r: Role) {
    && r.Truthy() && TouchedAllow(c, markers, q, change, r)
    && (ExistingAllows(c, markers, q, change, r) || AllGrant(c, markers, q, r))
  }

  /** What served before a grant serves after it. */
  lemma ServesLonger(c: Case, a: seq<MarkerPermission>, b: seq<MarkerPermission>, q: Query, change: Change, r: Role)
    requires Longer(a, b) && Serves(c, a, q, change, r)
    ensures Serves(c, b, q, change, r)
  {
    PassesMeaning(c, a, q, change, r);
    PassesAnyway(c, a, q, change, r, true);
    PassesMonotone(c, a, b, q, change, r, false, false, true, true);
    PassesMeaning(c, b, q, change, r);
    PassesAnyway(c, b, q, change, r, true);
  }

  /** The grants left the subject the role it had chosen, or gave it one that will do. */
  predicate StillServed(c: Case, a: seq<MarkerPermission>, b: seq<MarkerPermission>, q: Query, change: Change) {
    ChosenRole(c, b, q) == ChosenRole(c, a, q)
        || (ChosenRole(c, b, q).Some? && Serves(c, b, q, change, ChosenRole(c, b, q).value))
  }

  lemma StillServedExact(c: Case, a: seq<MarkerPermission>, b: seq<MarkerPermission>, q: Query, change: Change)
    requires Longer(a, b) && AuthorizeUpdate(c, a, q, change, START).Granted?
    ensures AuthorizeUpdate(c, b, q, change, START).Granted? <==> StillServed(c, a, b, q, change)
  {
    UpdateExact(c, a, q, change);
    UpdateExact(c, b, q, change);
    ServesLonger(c, a, b, q, change, ChosenRole(c, a, q).value);
  }

  function ChangeOf(req: Request): Change
    requires req.Update?
  {
    Changing(req.existing, req.added, req.removed)
  }

  predicate SubjectServed(s: Setting, to: Store, kind: SubjectKind, id: Option<JsString>, req: Request)
    requires req.Update?
  {
    StillServed(s.CaseOf(kind, id), MarkersOf(s.st, s.ctx.recordName, req.Markers()),
                MarkersOf(to, s.ctx.recordName, req.Markers()), req.query, ChangeOf(req))
  }

  lemma SubjectServedExact(s: Setting, to: Store, kind: SubjectKind, id: Option<JsString>, req: Request)
    requires req.Update? && Extends(s.st, to) && SubjectGranted(s, kind, id, req)
    ensures SubjectGranted(s.(st := to), kind, id, req) <==> SubjectServed(s, to, kind, id, req)
  {
    var names := req.Markers();
    MarkersLonger(s.st, to, s.ctx.recordName, names);
    SameCases(s, to, kind, id);
    StillServedExact(s.CaseOf(kind, id), MarkersOf(s.st, s.ctx.recordName, names), MarkersOf(to, s.ctx.recordName, names),
                     req.query, ChangeOf(req));
  }

  lemma ServedExact(s: Setting, to: Store, who: Requester, req: Request)
    requires req.Update? && Extends(s.st, to) && Authorize(s, who, req).Allowed?
    ensures Authorize(s.(st := to), who, req).Allowed?
        <==> && SubjectServed(s, to, User, who.userId, req)
             && forall inst | inst in Checked(s, who, req) :: SubjectServed(s, to, Inst, Some(inst), req)
  {
    var t := s.(st := to);
    AllowedExact(s, who, req);
    AllowedExact(t, who, req);
    SubjectServedExact(s, to, User, who.userId, req);
    forall inst | inst in Checked(s, who, req)
      ensures SubjectGranted(t, Inst, Some(inst), req) <==> SubjectServed(s, to, Inst, Some(inst), req)
    {
      assert SubjectGranted(s, Inst, Some(inst), req);
      SubjectServedExact(s, to, Inst, Some(inst), req);
    }
  }

  /** An allowed update is still allowed after any grants exactly when, for the
      user and for every checked instance, the search settles on the same role
      as before or on one that serves the update. */
  lemma UpdateAfterGrantsExact(s: Setting, grants: seq<PermissionGrant>, who: Requester, req: Request)
    requires req.Update? && Authorize(s, who, req).Allowed?
    ensures var to := GrantAll(s.st, grants);
            Authorize(s.(st := to), who, req).Allowed?
            <==> && SubjectServed(s, to, User, who.userId, req)
                 && forall inst | inst in Checked(s, who, req) :: SubjectServed(s, to, Inst, Some(inst), req)
  {
    GrantsExtend(s.st, grants);
    ServedExact(s, GrantAll(s.st, grants), who, req);
  }

  // ----- one grant, judged before it is made -----

  lemma FoundBehind(c: Case, a: seq<Permission>, b: seq<Permission>, q: Query, mode: Mode)
    requires !Has(c, a, q, mode)
    ensures FindPermission(c, a + b, q, mode) == FindPermission(c, b, q, mode)
  {
    if a == [] {
      assert a + b == b;
    } else {
      assert (a + b)[1..] == a[1..] + b;
      FoundBehind(c, a[1..], b, q, mode);
    }
  }

  /** What a search finds at marker x after permission p was granted at marker m. */
  lemma FoundAfterGrant(c: Case, st: Store, record: JsString, x: JsString, q: Query, mode: Mode, m: JsString, p: Permission)
    ensures FindPermission(c, AddPermission(st, record, m, p).PermissionsFor(record, x), q, mode)
         == if Has(c, st.PermissionsFor(record, x), q, mode) then FindPermission(c, st.PermissionsFor(record, x), q, mode)
            else if x == m && Grants(c, q, mode, p) then Some(p)
            else None
  {
    var before, after := st.PermissionsFor(record, x), AddPermission(st, record, m, p).PermissionsFor(record, x);
    if x == m && p !in st.DocumentOf(record, m) {
      assert after == before + [p];
      if Has(c, before, q, mode) { FoundInPrefix(c, before, [p], q, mode); } else { FoundBehind(c, before, [p], q, mode); }
    } else {
      assert after == before;
      if x == m && Grants(c, q, mode, p) {
        assert p in before;
        HasMeaning(c, before, q, mode);
      }
    }
  }

  /** The first of several grants, in their order, that answers the query at marker x. */
  function GrantedMatch(c: Case, grants: seq<PermissionGrant>, record: JsString, x: JsString, q: Query, mode: Mode)
    : Option<Permission>
  {
    if grants == [] then None
    else
      var g := grants[|grants| - 1];
      var earlier := GrantedMatch(c, grants[..|grants| - 1], record, x, q, mode);
      if earlier.Some? then earlier
      else if g.record == record && g.marker == x && Grants(c, q, mode, g.permission) then Some(g.permission)
      else None
  }

  /** What a search at marker x will find after the grants, told from the store before them. */
  function FoundThen(c: Case, st: Store, grants: seq<PermissionGrant>, record: JsString, x: JsString, q: Query, mode: Mode)
    : Option<Permission>
  {
    if Has(c, st.PermissionsFor(record, x), q, mode) then FindPermission(c, st.PermissionsFor(record, x), q, mode)
    else GrantedMatch(c, grants, record, x, q, mode)
  }

  lemma {:induction false} FoundAfterGrants(c: Case, st: Store, grants: seq<PermissionGrant>, record: JsString, x: JsString,
                                            q: Query, mode: Mode)
    ensures FindPermission(c, GrantAll(st, grants).PermissionsFor(record, x), q, mode)
         == FoundThen(c, st, grants, record, x, q, mode)
  {
    if grants != [] {
      var g, init := grants[|grants| - 1], grants[..|grants| - 1];
      FoundAfterGrants(c, st, init, record, x, q, mode);
      if g.record == record {
        FoundAfterGrant(c, GrantAll(st, init), record, x, q, mode, g.marker, g.permission);
      } else {
        assert GrantAll(st, grants).DocumentOf(record, x) == GrantAll(st, init).DocumentOf(record, x);
      }
    }
  }

  /** No marker up to and including m has an eligible match. */
  predicate NoMatchThrough(c: Case, st: Store, record: JsString, names: seq<JsString>, q: Query, m: JsString) {
    && names != [] && !Has(c, st.PermissionsFor(record, names[0]), q, FirstChoice(KeyOrOwner))
    && (names[0] == m || NoMatchThrough(c, st, record, names[1..], q, m))
  }

  /** The granted permission is the match the search will now come to first. */
  predicate Overtakes(c: Case, st: Store, record: JsString, names: seq<JsString>, q: Query, m: JsString, p: Permission) {
    Grants(c, q, FirstChoice(KeyOrOwner), p) && NoMatchThrough(c, st, record, names, q, m)
  }

  /** A grant changes the chosen role exactly when it overtakes the first match. */
  lemma {:induction false} RoleAfterGrant(c: Case, st: Store, record: JsString, names: seq<JsString>, q: Query,
                                          m: JsString, p: Permission)
    ensures ChosenRole(c, MarkersOf(AddPermission(st, record, m, p), record, names), q)
         == if Overtakes(c, st, record, names, q, m, p) then Some(p.role) else ChosenRole(c, MarkersOf(st, record, names), q)
  {
    if names != [] {
      var to := AddPermission(st, record, m, p);
      FoundAfterGrant(c, st, record, names[0], q, FirstChoice(KeyOrOwner), m, p);
      RoleAfterGrant(c, st, record, names[1..], q, m, p);
      assert MarkersOf(st, record, names)[1..] == MarkersOf(st, record, names[1..]);
      assert MarkersOf(to, record, names)[1..] == MarkersOf(to, record, names[1..]);
    }
  }

  /** Marker x lets role r make the update, counting a grant of it at m. */
  predicate WouldGrant(c: Case, st: Store, record: JsString, x: JsString, q: Query, r: Role, m: JsString) {
    x == m || Has(c, st.PermissionsFor(record, x), q, Fixed(r))
  }

  predicate WouldAllow(c: Case, st: Store, record: JsString, x: JsString, q: Query, change: Change, r: Role, m: JsString) {
    && WouldGrant(c, st, record, x, q, r, m)
    && (change.PolicyNeed(x).Some? ==> Has(c, st.PermissionsFor(record, x), change.PolicyNeed(x).value, EveryoneOr(r)))
  }

  predicate TouchedWouldAllow(c: Case, st: Store, record: JsString, names: seq<JsString>, q: Query, change: Change,
                              r: Role, m: JsString) {
    forall x | x in names && change.Touches(x) :: WouldAllow(c, st, record, x, q, change, r, m)
  }

  predicate ExistingWouldGrant(c: Case, st: Store, record: JsString, names: seq<JsString>, q: Query, change: Change,
                               r: Role, m: JsString) {
    exists x | x in names :: change.Exists(x) && WouldGrant(c, st, record, x, q, r, m)
  }

  predicate AllWouldGrant(c: Case, st: Store, record: JsString, names: seq<JsString>, q: Query, r: Role, m: JsString) {
    forall x | x in names :: WouldGrant(c, st, record, x, q, r, m)
  }

  /** Role r would serve the update if it were granted the action at m, as far as
      the store now says. */
  predicate WouldServe(c: Case, st: Store, record: JsString, names: seq<JsString>, q: Query, change: Change, r: Role,
                       m: JsString) {
    && r.Truthy() && TouchedWouldAllow(c, st, record, names, q, change, r, m)
    && (ExistingWouldGrant(c, st, record, names, q, change, r, m) || AllWouldGrant(c, st, record, names, q, r, m))
  }

  /** The queries of data.update and event.update. */
  predicate UpdateQuery(q: Query) { q.DataQuery? || q.EventQuery? }

  lemma HasAfterGrant(c: Case, st: Store, record: JsString, x: JsString, q: Query, change: Change, m: JsString, p: Permission)
    requires UpdateQuery(q) && Matches(c.re, q, p)
    ensures var to := AddPermission(st, record, m, p);
            && (Has(c, to.PermissionsFor(record, x), q, Fixed(p.role)) <==> WouldGrant(c, st, record, x, q, p.role, m))
            && (MarkerAllows(c, MarkerPermission(x, to.PermissionsFor(record, x)), q, change, p.role)
                <==> WouldAllow(c, st, record, x, q, change, p.role, m))
  {
    FoundAfterGrant(c, st, record, x, q, Fixed(p.role), m, p);
    var need := change.PolicyNeed(x);
    if need.Some? { FoundAfterGrant(c, st, record, x, need.value, EveryoneOr(p.role), m, p); }
  }

  lemma {:induction false} ServesAfterGrant(c: Case, st: Store, record: JsString, names: seq<JsString>, q: Query, change: Change,
                                            m: JsString, p: Permission)
    requires UpdateQuery(q) && Matches(c.re, q, p)
    ensures var markers := MarkersOf(AddPermission(st, record, m, p), record, names);
            && (TouchedAllow(c, markers, q, change, p.role) <==> TouchedWouldAllow(c, st, record, names, q, change, p.role, m))
            && (ExistingAllows(c, markers, q, change, p.role) <==> ExistingWouldGrant(c, st, record, names, q, change, p.role, m))
            && (AllGrant(c, markers, q, p.role) <==> AllWouldGrant(c, st, record, names, q, p.role, m))
  {
    if names != [] {
      var to := AddPermission(st, record, m, p);
      var markers := MarkersOf(to, record, names);
      assert markers[1..] == MarkersOf(to, record, names[1..]);
      ServesAfterGrant(c, st, record, names[1..], q, change, m, p);
      HasAfterGrant(c, st, record, names[0], q, change, m, p);
      GrantsCons(c, markers, q, change, p.role);
      TouchedCons(c, markers, q, change, p.role);
      TouchedWouldCons(c, st, record, names, q, change, p.role, m);
      ExistingWouldCons(c, st, record, names, q, change, p.role, m);
      AllWouldCons(c, st, record, names, q, p.role, m);
    }
  }

  lemma TouchedCons(c: Case, markers: seq<MarkerPermission>, q: Query, change: Change, r: Role)
    requires markers != []
    ensures TouchedAllow(c, markers, q, change, r)
        <==> (change.Touches(markers[0].marker) ==> MarkerAllows(c, markers[0], q, change, r))
             && TouchedAllow(c, markers[1..], q, change, r)
  {
    assert forall x | x in markers :: x == markers[0] || x in markers[1..];
  }

  lemma TouchedWouldCons(c: Case, st: Store, record: JsString, names: seq<JsString>, q: Query, change: Change,
                         r: Role, m: JsString)
    requires names != []
    ensures TouchedWouldAllow(c, st, record, names, q, change, r, m)
        <==> (change.Touches(names[0]) ==> WouldAllow(c, st, record, names[0], q, change, r, m))
             && TouchedWouldAllow(c, st, record, names[1..], q, change, r, m)
  {
    assert forall x | x in names :: x == names[0] || x in names[1..];
  }

  lemma ExistingWouldCons(c: Case, st: Store, record: JsString, names: seq<JsString>, q: Query, change: Change,
                          r: Role, m: JsString)
    requires names != []
    ensures ExistingWouldGrant(c, st, record, names, q, change, r, m)
        <==> (change.Exists(names[0]) && WouldGrant(c, st, record, names[0], q, r, m))
             || ExistingWouldGrant(c, st, record, names[1..], q, change, r, m)
  {
    assert forall x | x in names :: x == names[0] || x in names[1..];
  }

  lemma AllWouldCons(c: Case, st: Store, record: JsString, names: seq<JsString>, q: Query, r: Role, m: JsString)
    requires names != []
    ensures AllWouldGrant(c, st, record, names, q, r, m)
        <==> WouldGrant(c, st, record, names[0], q, r, m) && AllWouldGrant(c, st, record, names[1..], q, r, m)
  {
    assert forall x | x in names :: x == names[0] || x in names[1..];
  }

  /** The subject keeps its role, or the one that overtakes it would do. */
  predicate Undisturbed(s: Setting, kind: SubjectKind, id: Option<JsString>, req: Request, m: JsString, p: Permission)
    requires req.Update?
  {
    var c, record, names := s.CaseOf(kind, id), s.ctx.recordName, req.Markers();
    Overtakes(c, s.st, record, names, req.query, m, p) ==> WouldServe(c, s.st, record, names, req.query, ChangeOf(req), p.role, m)
  }

  lemma UndisturbedExact(s: Setting, kind: SubjectKind, id: Option<JsString>, req: Request, m: JsString, p: Permission)
    requires req.Update? && UpdateQuery(req.query) && SubjectGranted(s, kind, id, req)
    ensures SubjectServed(s, AddPermission(s.st, s.ctx.recordName, m, p), kind, id, req) <==> Undisturbed(s, kind, id, req, m, p)
  {
    var c, record, names := s.CaseOf(kind, id), s.ctx.recordName, req.Markers();
    var to := AddPermission(s.st, record, m, p);
    RoleAfterGrant(c, s.st, record, names, req.query, m, p);
    if Overtakes(c, s.st, record, names, req.query, m, p) {
      ServesAfterGrant(c, s.st, record, names, req.query, ChangeOf(req), m, p);
      AddExtends(s.st, record, m, p);
      MarkersLonger(s.st, to, record, names);
      UpdateExact(c, MarkersOf(s.st, record, names), req.query, ChangeOf(req));
      if ChosenRole(c, MarkersOf(s.st, record, names), req.query) == Some(p.role) {
        ServesLonger(c, MarkersOf(s.st, record, names), MarkersOf(to, record, names), req.query, ChangeOf(req), p.role);
      }
    }
  }

  lemma AddExtends(st: Store, record: JsString, m: JsString, p: Permission)
    ensures Extends(st, AddPermission(st, record, m, p))
  {
    GrantsExtend(st, [PermissionGrant(record, m, p)]);
    assert [PermissionGrant(record, m, p)][..0] == [];
  }

  /** An allowed update is still allowed after one more grant exactly when, for the
      user and for every checked instance, the permission does not match the
      action under an eligible role at a marker before the first match, or its
      role would serve the update. All of it can be checked before the grant. */
  lemma UpdateAfterGrantExact(s: Setting, who: Requester, req: Request, m: JsString, p: Permission)
    requires req.Update? && UpdateQuery(req.query) && Authorize(s, who, req).Allowed?
    ensures Authorize(s.(st := AddPermission(s.st, s.ctx.recordName, m, p)), who, req).Allowed?
        <==> && Undisturbed(s, User, who.userId, req, m, p)
             && forall inst | inst in Checked(s, who, req) :: Undisturbed(s, Inst, Some(inst), req, m, p)
  {
    var to := AddPermission(s.st, s.ctx.recordName, m, p);
    AllowedExact(s, who, req);
    AddExtends(s.st, s.ctx.recordName, m, p);
    ServedExact(s, to, who, req);
    UndisturbedExact(s, User, who.userId, req, m, p);
    forall inst | inst in Checked(s, who, req)
      ensures SubjectServed(s, to, Inst, Some(inst), req) <==> Undisturbed(s, Inst, Some(inst), req, m, p)
    {
      assert SubjectGranted(s, Inst, Some(inst), req);
      UndisturbedExact(s, Inst, Some(inst), req, m, p);
    }
  }

  // ----- a grant that takes an update away -----

  /** A logged-in user who is not the record's owner, is no administrator and has no key. */
  predicate Outsider(s: Setting, userId: Option<JsString>) {
    && Given(userId) && userId.value != s.ctx.recordOwnerId && s.ctx.recordKey.None?
    && !Holds(s.st, s.ctx.recordName, userId.value, ADMIN_ROLE_NAME, s.now)
  }

  /** The default documents do not help an outsider: the search goes on to the stored document. */
  lemma DefaultsSkipped(c: Case, st: Store, record: JsString, marker: JsString, q: Query, mode: Mode)
    requires !Accepts(c, mode, ADMIN)
    requires marker != PUBLIC_READ_MARKER || q.PolicyQuery? || (q.DataQuery? && q.dataType.DataUpdate?)
    ensures FindPermission(c, st.PermissionsFor(record, marker), q, mode)
            == FindPermission(c, st.DocumentOf(record, marker), q, mode)
  {
    var d := DEFAULT_ANY_RESOURCE_POLICY_DOCUMENT;
    var open := if marker == PUBLIC_READ_MARKER then DEFAULT_PUBLIC_READ_POLICY_DOCUMENT else [];
    HasMeaning(c, d, q, mode);
    forall p | p in d ensures !Grants(c, q, mode, p) {
      if Matches(c.re, q, p) { DefaultIsAdmins(c.re, q, p); }
    }
    HasMeaning(c, open, q, mode);
    FoundBehind(c, d, open + st.DocumentOf(record, marker), q, mode);
    FoundBehind(c, open, st.DocumentOf(record, marker), q, mode);
    assert st.PermissionsFor(record, marker) == d + (open + st.DocumentOf(record, marker));
  }

  function Updates(r: JsString): Permission { DataPermission(DataUpdate, Named(r), All) }
  function Assigns(r: JsString): Permission { PolicyPermission(PolicyAssign, Named(r), All) }

  /** Three markers: nothing is said about m1, role b may update under m2, and
      update under and assign m3. An outsider holds roles a and b. */
  predicate Scene(s: Setting, who: Requester, a: JsString, b: JsString, m1: JsString, m2: JsString, m3: JsString) {
    && Outsider(s, who.userId) && OrEmpty(who.instances) == []
    && a != b && b != [] && a != ADMIN_ROLE_NAME && b != ADMIN_ROLE_NAME
    && Holds(s.st, s.ctx.recordName, who.userId.value, a, s.now) && Holds(s.st, s.ctx.recordName, who.userId.value, b, s.now)
    && m1 != m2 && m1 != m3 && m2 != m3
    && s.st.DocumentOf(s.ctx.recordName, m1) == []
    && s.st.DocumentOf(s.ctx.recordName, m2) == [Updates(b)]
    && s.st.DocumentOf(s.ctx.recordName, m3) == [Updates(b)] + [Assigns(b)]
  }

  function SceneRequest(address: JsString, m1: JsString, m2: JsString, m3: JsString): Request {
    Update(DataQuery(DataUpdate, address), [m1, m2], Some([m3]), None)
  }

  lemma SceneMarkers(address: JsString, m1: JsString, m2: JsString, m3: JsString)
    requires m1 != m2 && m1 != m3 && m2 != m3
    ensures SceneRequest(address, m1, m2, m3).Markers() == [m1, m2, m3]
  {
    assert [m1, m2] + [m3] + [] == [m1, m2, m3];
    var all := [m1, m2, m3];
    assert all[..2] == [m1, m2] && [m1, m2][..1] == [m1] && [m1][..0] == [];
    assert Union([m1]) == [m1];
    assert Union([m1, m2]) == [m1, m2];
  }

  lemma SceneSubject(s: Setting, who: Requester, a: JsString, b: JsString, m1: JsString, m2: JsString, m3: JsString)
    requires Scene(s, who, a, b, m1, m2, m3)
    ensures var c := s.CaseOf(User, who.userId);
            && !Eligible(c, KeyOrOwner, ADMIN)
            && Eligible(c, KeyOrOwner, Named(a)) && Eligible(c, KeyOrOwner, Named(b))
  {}

  /** What the three markers offer: nothing at m1, role b at m2 and at m3. */
  lemma SceneOffers(s: Setting, who: Requester, a: JsString, b: JsString, m1: JsString, m2: JsString, m3: JsString,
                    address: JsString)
    requires Scene(s, who, a, b, m1, m2, m3)
    ensures var c, record, q := s.CaseOf(User, who.userId), s.ctx.recordName, DataQuery(DataUpdate, address);
            && !Has(c, s.st.PermissionsFor(record, m1), q, FirstChoice(KeyOrOwner))
            && FindPermission(c, s.st.PermissionsFor(record, m2), q, FirstChoice(KeyOrOwner)) == Some(Updates(b))
            && Has(c, s.st.PermissionsFor(record, m2), q, Fixed(Named(b)))
            && Has(c, s.st.PermissionsFor(record, m3), q, Fixed(Named(b)))
            && Has(c, s.st.PermissionsFor(record, m3), PolicyQuery(PolicyAssign, m3), EveryoneOr(Named(b)))
            && !Has(c, s.st.PermissionsFor(record, m3), q, Fixed(Named(a)))
  {
    var c, record, q := s.CaseOf(User, who.userId), s.ctx.recordName, DataQuery(DataUpdate, address);
    SceneSubject(s, who, a, b, m1, m2, m3);
    DefaultsSkipped(c, s.st, record, m1, q, FirstChoice(KeyOrOwner));
    DefaultsSkipped(c, s.st, record, m2, q, FirstChoice(KeyOrOwner));
    DefaultsSkipped(c, s.st, record, m2, q, Fixed(Named(b)));
    DefaultsSkipped(c, s.st, record, m3, q, Fixed(Named(b)));
    DefaultsSkipped(c, s.st, record, m3, q, Fixed(Named(a)));
    DefaultsSkipped(c, s.st, record, m3, PolicyQuery(PolicyAssign, m3), EveryoneOr(Named(b)));
    HasMeaning(c, [Updates(b)] + [Assigns(b)], q, Fixed(Named(a)));
    assert ([Updates(b)] + [Assigns(b)])[1..] == [Assigns(b)] && [Assigns(b)][1..] == [] && [Updates(b)][1..] == [];
  }

  function Entry(st: Store, record: JsString, m: JsString): MarkerPermission { MarkerPermission(m, st.PermissionsFor(record, m)) }

  lemma ThreeMarkers(st: Store, record: JsString, m1: JsString, m2: JsString, m3: JsString)
    ensures MarkersOf(st, record, [m1, m2, m3]) == [Entry(st, record, m1), Entry(st, record, m2), Entry(st, record, m3)]
    ensures MarkersOf(st, record, [m1, m2, m3])[1..] == [Entry(st, record, m2), Entry(st, record, m3)]
  {
    assert [m1, m2, m3][1..] == [m2, m3] && [m2, m3][1..] == [m3] && [m3][1..] == [];
    assert MarkersOf(st, record, [m3]) == [Entry(st, record, m3)];
    assert MarkersOf(st, record, [m2, m3]) == [Entry(st, record, m2)] + [Entry(st, record, m3)];
  }

  /** Role b serves the update of such markers. */
  lemma PairServes(c: Case, x: MarkerPermission, y: MarkerPermission, z: MarkerPermission, q: Query, change: Change, r: Role)
    requires !change.Touches(x.marker) && !change.Touches(y.marker) && change.Exists(y.marker) && r.Truthy()
    requires Has(c, y.permissions, q, Fixed(r)) && MarkerAllows(c, z, q, change, r)
    ensures Serves(c, [x, y, z], q, change, r)
  {
    var markers := [x, y, z];
    assert markers[1] in markers;
    assert forall m | m in markers :: m == x || m == y || m == z;
  }

  lemma SceneAllowed(s: Setting, who: Requester, a: JsString, b: JsString, m1: JsString, m2: JsString, m3: JsString,
                     address: JsString)
    requires Scene(s, who, a, b, m1, m2, m3)
    ensures Authorize(s, who, SceneRequest(address, m1, m2, m3)).Allowed?
  {
    var c, record, q := s.CaseOf(User, who.userId), s.ctx.recordName, DataQuery(DataUpdate, address);
    var req := SceneRequest(address, m1, m2, m3);
    SceneMarkers(address, m1, m2, m3);
    SceneOffers(s, who, a, b, m1, m2, m3, address);
    ThreeMarkers(s.st, record, m1, m2, m3);
    PairServes(c, Entry(s.st, record, m1), Entry(s.st, record, m2), Entry(s.st, record, m3), q, ChangeOf(req), Named(b));
    UpdateExact(c, MarkersOf(s.st, record, [m1, m2, m3]), q, ChangeOf(req));
    AllowedExact(s, who, req);
  }

  /** In every such store, granting role a the update of marker m1 turns the
      user's allowed update into a denied one: the search now settles on a,
      which may not touch the added marker m3. */
  lemma GrantCanDenyUpdate(s: Setting, who: Requester, a: JsString, b: JsString, m1: JsString, m2: JsString,
                           m3: JsString, address: JsString)
    requires Scene(s, who, a, b, m1, m2, m3)
    ensures var req := SceneRequest(address, m1, m2, m3);
            && Authorize(s, who, req).Allowed?
            && Authorize(s.(st := AddPermission(s.st, s.ctx.recordName, m1, Updates(a))), who, req).NotAuthorized?
  {
    var c, record, q := s.CaseOf(User, who.userId), s.ctx.recordName, DataQuery(DataUpdate, address);
    var req := SceneRequest(address, m1, m2, m3);
    SceneAllowed(s, who, a, b, m1, m2, m3, address);
    SceneOffers(s, who, a, b, m1, m2, m3, address);
    SceneMarkers(address, m1, m2, m3);
    SceneSubject(s, who, a, b, m1, m2, m3);
    assert [m1, m2, m3][2] in [m1, m2, m3];
    assert !WouldAllow(c, s.st, record, m3, q, ChangeOf(req), Named(a), m1);
    assert ChangeOf(req).Touches(m3);
    UpdateAfterGrantExact(s, who, req, m1, Updates(a));
  }

  /** Such a store: the user holds roles a and b for good, and two documents are stored. */
  function SceneStore(record: JsString, user: JsString, a: JsString, b: JsString, m2: JsString, m3: JsString): Store {
    Store(map[(record, m2) := PolicyEntry([Updates(b)], [ACCOUNT_MARKER]),
              (record, m3) := PolicyEntry([Updates(b)] + [Assigns(b)], [ACCOUNT_MARKER])],
          map[(record, user) := [a, b]], map[])
  }

  lemma SceneArises(re: Regex, record: JsString, owner: JsString, user: JsString, a: JsString, b: JsString,
                    m1: JsString, m2: JsString, m3: JsString, now: int)
    requires user != [] && user != owner && m1 != m2 && m1 != m3 && m2 != m3
    requires a != b && b != [] && a != ADMIN_ROLE_NAME && b != ADMIN_ROLE_NAME
    ensures Scene(Setting(re, SceneStore(record, user, a, b, m2, m3), now, Context(record, owner, None)),
                  Requester(Some(user), None), a, b, m1, m2, m3)
  {
    var st := SceneStore(record, user, a, b, m2, m3);
    assert [a, b][0] == a && [a, b][1] == b;
    HoldsMeaning(st, record, user, a, now);
    HoldsMeaning(st, record, user, b, now);
    HoldsMeaning(st, record, user, ADMIN_ROLE_NAME, now);
  }
}
