/** Revoking permissions: a revocation undoes a grant, never turns a denied read
    into an allowed one, and decides other requests exactly as told here. */
module Revocations {
  import opened JsStrings
  import opened Options
  import opened Sequences
  import opened Permissions
  import opened PolicyStore
  import opened PolicyChanges
  import opened Authorization
  import opened AuthorizationLaws
  import opened GrantLaws
  import opened UpdateGrants
  import opened ListingLaws
  import opened ListGrants
  import opened RoleGrants

  // ----- what a revocation does to the documents -----

  lemma RevokedDocument(st: Store, record: JsString, m: JsString, p: Permission, x: JsString)
    ensures RemovePermission(st, record, m, p).DocumentOf(record, x)
         == if x == m then Filter(st.DocumentOf(record, x), Differs(p)) else st.DocumentOf(record, x)
  {
    if x == m && p !in st.DocumentOf(record, m) {
      forall y | y in st.DocumentOf(record, m) ensures Differs(p)(y) {}
      FilterAll(st.DocumentOf(record, m), Differs(p));
    }
  }

  /** Revoking a permission that was not there before undoes its grant: every
      document is what it was. */
  lemma RevocationUndoesGrant(st: Store, record: JsString, m: JsString, p: Permission, x: JsString)
    requires p !in st.DocumentOf(record, m)
    ensures RemovePermission(AddPermission(st, record, m, p), record, m, p).DocumentOf(record, x) == st.DocumentOf(record, x)
  {
    var granted := AddPermission(st, record, m, p);
    RevokedDocument(granted, record, m, p, x);
    if x == m {
      var d := st.DocumentOf(record, m);
      forall y | y in d ensures Differs(p)(y) {}
      FilterAll(d, Differs(p));
      FilterAppend(d, [p], Differs(p));
      assert [p][1..] == [];
      assert Filter([p], Differs(p)) == [];
    }
  }

  lemma {:induction false} FilterAppend<T>(a: seq<T>, b: seq<T>, p: T -> bool)
    ensures Filter(a + b, p) == Filter(a, p) + Filter(b, p)
  {
    if a == [] {
      assert a + b == b;
    } else {
      assert (a + b)[1..] == a[1..] + b;
      FilterAppend(a[1..], b, p);
    }
  }

  /** The default part of a marker's permissions, which no revocation touches. */
  function Defaults(x: JsString): PolicyDocument {
    DEFAULT_ANY_RESOURCE_POLICY_DOCUMENT + (if x == PUBLIC_READ_MARKER then DEFAULT_PUBLIC_READ_POLICY_DOCUMENT else [])
  }

  // ----- searches, told from the store before -----

  lemma {:induction false} FoundFiltered(c: Case, d: seq<Permission>, q: Query, mode: Mode, p: Permission)
    requires FindPermission(c, d, q, mode) != Some(p)
    ensures FindPermission(c, Filter(d, Differs(p)), q, mode) == FindPermission(c, d, q, mode)
  {
    if d != [] && !Grants(c, q, mode, d[0]) { FoundFiltered(c, d[1..], q, mode, p); }
  }

  /** What a search at x will find once p is revoked at m: the same as now, unless
      it finds p itself and not by default; then the next match. */
  function FoundLess(c: Case, st: Store, record: JsString, x: JsString, q: Query, mode: Mode, m: JsString, p: Permission)
    : Option<Permission>
  {
    var found := FindPermission(c, st.PermissionsFor(record, x), q, mode);
    if x == m && found == Some(p) && !Has(c, Defaults(x), q, mode) then
      FindPermission(c, Filter(st.DocumentOf(record, x), Differs(p)), q, mode)
    else found
  }

  lemma FoundAfterRevocation(c: Case, st: Store, record: JsString, x: JsString, q: Query, mode: Mode, m: JsString, p: Permission)
    ensures FindPermission(c, RemovePermission(st, record, m, p).PermissionsFor(record, x), q, mode)
         == FoundLess(c, st, record, x, q, mode, m, p)
  {
    var d := Defaults(x);
    var before, after := st.DocumentOf(record, x), RemovePermission(st, record, m, p).DocumentOf(record, x);
    RevokedDocument(st, record, m, p, x);
    if Has(c, d, q, mode) {
      FoundInPrefix(c, d, before, q, mode);
      FoundInPrefix(c, d, after, q, mode);
    } else {
      FoundBehind(c, d, before, q, mode);
      FoundBehind(c, d, after, q, mode);
      if x == m && FindPermission(c, before, q, mode) != Some(p) { FoundFiltered(c, before, q, mode, p); }
    }
  }

  predicate HasLess(c: Case, st: Store, record: JsString, x: JsString, q: Query, mode: Mode, m: JsString, p: Permission) {
    FoundLess(c, st, record, x, q, mode, m, p).Some?
  }

  /** The role an update will settle on. */
  function ChosenLess(c: Case, st: Store, record: JsString, names: seq<JsString>, q: Query, m: JsString,
                      p: Permission): Option<Role> {
    if names == [] then None
    else
      match FoundLess(c, st, record, names[0], q, FirstChoice(KeyOrOwner), m, p)
      case Some(found) => Some(found.role)
      case None => ChosenLess(c, st, record, names[1..], q, m, p)
  }

  lemma {:induction false} ChosenAfterRevocation(c: Case, st: Store, record: JsString, names: seq<JsString>, q: Query,
                                                 m: JsString, p: Permission)
    ensures ChosenRole(c, MarkersOf(RemovePermission(st, record, m, p), record, names), q)
         == ChosenLess(c, st, record, names, q, m, p)
  {
    if names != [] {
      var to := RemovePermission(st, record, m, p);
      FoundAfterRevocation(c, st, record, names[0], q, FirstChoice(KeyOrOwner), m, p);
      ChosenAfterRevocation(c, st, record, names[1..], q, m, p);
      assert MarkersOf(to, record, names)[1..] == MarkersOf(to, record, names[1..]);
    }
  }

  predicate AllowsLess(c: Case, st: Store, record: JsString, x: JsString, q: Query, change: Change, r: Role,
                       m: JsString, p: Permission) {
    && HasLess(c, st, record, x, q, Fixed(r), m, p)
    && (change.PolicyNeed(x).Some? ==> HasLess(c, st, record, x, change.PolicyNeed(x).value, EveryoneOr(r), m, p))
  }

  lemma MarkerAfterRevocation(c: Case, st: Store, record: JsString, x: JsString, q: Query, change: Change, r: Role,
                              m: JsString, p: Permission)
    ensures var entry := Entry(RemovePermission(st, record, m, p), record, x);
            && Has(c, entry.permissions, q, Fixed(r)) == HasLess(c, st, record, x, q, Fixed(r), m, p)
            && MarkerAllows(c, entry, q, change, r) == AllowsLess(c, st, record, x, q, change, r, m, p)
  {
    FoundAfterRevocation(c, st, record, x, q, Fixed(r), m, p);
    var need := change.PolicyNeed(x);
    if need.Some? { FoundAfterRevocation(c, st, record, x, need.value, EveryoneOr(r), m, p); }
  }

  predicate TouchedLess(c: Case, st: Store, record: JsString, names: seq<JsString>, q: Query, change: Change, r: Role,
                        m: JsString, p: Permission)
  {
    forall x | x in names && change.Touches(x) :: AllowsLess(c, st, record, x, q, change, r, m, p)
  }

  predicate ExistingLess(c: Case, st: Store, record: JsString, names: seq<JsString>, q: Query, change: Change, r: Role,
                         m: JsString, p: Permission)
  {
    exists x | x in names :: change.Exists(x) && HasLess(c, st, record, x, q, Fixed(r), m, p)
  }

  predicate AllLess(c: Case, st: Store, record: JsString, names: seq<JsString>, q: Query, r: Role, m: JsString, p: Permission) {
    forall x | x in names :: HasLess(c, st, record, x, q, Fixed(r), m, p)
  }

  /** Role r will do for the update. */
  predicate ServesLess(c: Case, st: Store, record: JsString, names: seq<JsString>, q: Query, change: Change, r: Role,
                       m: JsString, p: Permission)
  {
    && r.Truthy() && TouchedLess(c, st, record, names, q, change, r, m, p)
    && (ExistingLess(c, st, record, names, q, change, r, m, p) || AllLess(c, st, record, names, q, r, m, p))
  }

  lemma {:induction false} TouchedAfterRevocation(c: Case, st: Store, record: JsString, names: seq<JsString>, q: Query,
      change: Change, r: Role, m: JsString, p: Permission)
    ensures TouchedAllow(c, MarkersOf(RemovePermission(st, record, m, p), record, names), q, change, r)
        <==> TouchedLess(c, st, record, names, q, change, r, m, p)
  {
    if names != [] {
      var to := RemovePermission(st, record, m, p);
      var markers := MarkersOf(to, record, names);
      assert markers[0] == Entry(to, record, names[0]) && markers[1..] == MarkersOf(to, record, names[1..]);
      TouchedAfterRevocation(c, st, record, names[1..], q, change, r, m, p);
      MarkerAfterRevocation(c, st, record, names[0], q, change, r, m, p);
      TouchedCons(c, markers, q, change, r);
      assert forall x | x in names :: x == names[0] || x in names[1..];
    }
  }

  lemma {:induction false} ExistingAfterRevocation(c: Case, st: Store, record: JsString, names: seq<JsString>, q: Query,
      change: Change, r: Role, m: JsString, p: Permission)
    ensures ExistingAllows(c, MarkersOf(RemovePermission(st, record, m, p), record, names), q, change, r)
        <==> ExistingLess(c, st, record, names, q, change, r, m, p)
  {
    if names != [] {
      var to := RemovePermission(st, record, m, p);
      var markers := MarkersOf(to, record, names);
      assert markers[0] == Entry(to, record, names[0]) && markers[1..] == MarkersOf(to, record, names[1..]);
      ExistingAfterRevocation(c, st, record, names[1..], q, change, r, m, p);
      MarkerAfterRevocation(c, st, record, names[0], q, change, r, m, p);
      GrantsCons(c, markers, q, change, r);
      assert forall x | x in names :: x == names[0] || x in names[1..];
    }
  }

  lemma {:induction false} AllAfterRevocation(c: Case, st: Store, record: JsString, names: seq<JsString>, q: Query,
      change: Change, r: Role, m: JsString, p: Permission)
    ensures AllGrant(c, MarkersOf(RemovePermission(st, record, m, p), record, names), q, r)
        <==> AllLess(c, st, record, names, q, r, m, p)
  {
    if names != [] {
      var to := RemovePermission(st, record, m, p);
      var markers := MarkersOf(to, record, names);
      assert markers[0] == Entry(to, record, names[0]) && markers[1..] == MarkersOf(to, record, names[1..]);
      AllAfterRevocation(c, st, record, names[1..], q, change, r, m, p);
      MarkerAfterRevocation(c, st, record, names[0], q, change, r, m, p);
      GrantsCons(c, markers, q, change, r);
      assert forall x | x in names :: x == names[0] || x in names[1..];
    }
  }

  lemma ServesAfterRevocation(c: Case, st: Store, record: JsString, names: seq<JsString>, q: Query, change: Change, r: Role,
                              m: JsString, p: Permission)
    ensures Serves(c, MarkersOf(RemovePermission(st, record, m, p), record, names), q, change, r)
        <==> ServesLess(c, st, record, names, q, change, r, m, p)
  {
    TouchedAfterRevocation(c, st, record, names, q, change, r, m, p);
    ExistingAfterRevocation(c, st, record, names, q, change, r, m, p);
    AllAfterRevocation(c, st, record, names, q, change, r, m, p);
  }

  // ----- requests -----

  /** The request's record after the revocation. */
  function Revoking(s: Setting, m: JsString, p: Permission): Setting {
    s.(st := RemovePermission(s.st, s.ctx.recordName, m, p))
  }

  /** Revoking a permission leaves everyone's roles alone. */
  lemma SameSubjects(s: Setting, m: JsString, p: Permission, kind: SubjectKind, id: Option<JsString>)
    ensures Revoking(s, m, p).CaseOf(kind, id) == s.CaseOf(kind, id)
  {}

  /** The role the search will settle on: for updates at any marker, otherwise at the first. */
  function ChoiceLess(c: Case, st: Store, record: JsString, req: Request, m: JsString, p: Permission): Option<Role>
    requires RoleBound(req)
  {
    var names := req.Markers();
    ChosenLess(c, st, record, if req.Update? || names == [] then names else names[..1], req.query, m, p)
  }

  /** The role will do for the request. */
  predicate SuitsLess(c: Case, st: Store, record: JsString, req: Request, role: Role, m: JsString, p: Permission)
    requires RoleBound(req)
  {
    if req.Update? then ServesLess(c, st, record, req.Markers(), req.query, ChangeIn(req), role, m, p)
    else role.Truthy() && EveryLess(c, st, record, req.Markers(), req.query, ChangeIn(req), role, m, p)
  }

  predicate EveryLess(c: Case, st: Store, record: JsString, names: seq<JsString>, q: Query, change: Change, r: Role,
                      m: JsString, p: Permission)
  {
    forall x | x in names :: AllowsLess(c, st, record, x, q, change, r, m, p)
  }

  lemma {:induction false} EveryAfterRevocation(c: Case, st: Store, record: JsString, names: seq<JsString>, q: Query,
      change: Change, r: Role, m: JsString, p: Permission)
    ensures AllAllow(c, MarkersOf(RemovePermission(st, record, m, p), record, names), q, change, r)
        <==> EveryLess(c, st, record, names, q, change, r, m, p)
  {
    if names != [] {
      var to := RemovePermission(st, record, m, p);
      var markers := MarkersOf(to, record, names);
      assert markers[0] == Entry(to, record, names[0]) && markers[1..] == MarkersOf(to, record, names[1..]);
      EveryAfterRevocation(c, st, record, names[1..], q, change, r, m, p);
      MarkerAfterRevocation(c, st, record, names[0], q, change, r, m, p);
      assert forall e | e in markers :: e == markers[0] || e in markers[1..];
      assert forall x | x in names :: x == names[0] || x in names[1..];
    }
  }

  lemma FirstMarker(st: Store, record: JsString, names: seq<JsString>)
    requires names != []
    ensures MarkersOf(st, record, names[..1]) == MarkersOf(st, record, names)[..1] && MarkersOf(st, record, names) != []
  {
    assert names[..1][0] == names[0] && names[..1][1..] == [];
    assert MarkersOf(st, record, names[..1]) == [Entry(st, record, names[0])] + MarkersOf(st, record, names[..1][1..]);
  }

  lemma ChoiceAfterRevocation(c: Case, st: Store, record: JsString, req: Request, m: JsString, p: Permission)
    requires RoleBound(req)
    ensures Choice(c, MarkersOf(RemovePermission(st, record, m, p), record, req.Markers()), req)
         == ChoiceLess(c, st, record, req, m, p)
  {
    var names := req.Markers();
    ChosenAfterRevocation(c, st, record, if req.Update? || names == [] then names else names[..1], req.query, m, p);
    if names != [] { FirstMarker(RemovePermission(st, record, m, p), record, names); }
  }

  predicate SubjectLess(s: Setting, kind: SubjectKind, id: Option<JsString>, req: Request, m: JsString, p: Permission)
    requires RoleBound(req)
  {
    var c, record := s.CaseOf(kind, id), s.ctx.recordName;
    var role := ChoiceLess(c, s.st, record, req, m, p);
    Changes(req) && role.Some? && SuitsLess(c, s.st, record, req, role.value, m, p)
  }

  lemma SuitsAfterRevocation(c: Case, st: Store, record: JsString, req: Request, role: Role, m: JsString, p: Permission)
    requires RoleBound(req)
    ensures Suits(c, MarkersOf(RemovePermission(st, record, m, p), record, req.Markers()), req, role)
        <==> SuitsLess(c, st, record, req, role, m, p)
  {
    if req.Update? { ServesAfterRevocation(c, st, record, req.Markers(), req.query, ChangeIn(req), role, m, p); }
    else { EveryAfterRevocation(c, st, record, req.Markers(), req.query, ChangeIn(req), role, m, p); }
  }

  lemma SubjectAfterRevocation(s: Setting, kind: SubjectKind, id: Option<JsString>, req: Request, m: JsString, p: Permission)
    requires RoleBound(req)
    ensures SubjectGranted(Revoking(s, m, p), kind, id, req) <==> SubjectLess(s, kind, id, req, m, p)
  {
    var c, record := s.CaseOf(kind, id), s.ctx.recordName;
    var role := ChoiceLess(c, s.st, record, req, m, p);
    SameSubjects(s, m, p, kind, id);
    if Changes(req) {
      ChoiceDecides(c, MarkersOf(Revoking(s, m, p).st, record, req.Markers()), req);
      ChoiceAfterRevocation(c, s.st, record, req, m, p);
      if role.Some? { SuitsAfterRevocation(c, s.st, record, req, role.value, m, p); }
    }
  }

  /** Whether it was allowed before or not, a creation, file update or update is
      allowed after a revocation exactly when, for the user and for every checked
      instance, the role that the search will settle on will do. All of it is told
      from the store before. */
  lemma AllowedAfterRevocationExact(s: Setting, who: Requester, req: Request, m: JsString, p: Permission)
    requires RoleBound(req)
    ensures Authorize(Revoking(s, m, p), who, req).Allowed?
        <==> && Admissible(who, req) && SubjectLess(s, User, who.userId, req, m, p)
             && forall inst | inst in Checked(s, who, req) :: SubjectLess(s, Inst, Some(inst), req, m, p)
  {
    AllowedExact(Revoking(s, m, p), who, req);
    SubjectAfterRevocation(s, User, who.userId, req, m, p);
    forall inst | inst in Checked(s, who, req)
      ensures SubjectGranted(Revoking(s, m, p), Inst, Some(inst), req) <==> SubjectLess(s, Inst, Some(inst), req, m, p)
    {
      SubjectAfterRevocation(s, Inst, Some(inst), req, m, p);
    }
  }

  lemma {:induction false} AnyAfterRevocation(c: Case, st: Store, record: JsString, names: seq<JsString>, style: Style, q: Query,
                                              d: DenialReason, e: DenialReason, m: JsString, p: Permission)
    requires AuthorizeAny(c, style, MarkersOf(RemovePermission(st, record, m, p), record, names), q, d).Granted?
    ensures AuthorizeAny(c, style, MarkersOf(st, record, names), q, e).Granted?
  {
    var to := RemovePermission(st, record, m, p);
    var after, before := MarkersOf(to, record, names), MarkersOf(st, record, names);
    AnyExact(c, style, after, q, d);
    AnyExact(c, style, before, q, e);
    var entry :| entry in after && Has(c, entry.permissions, q, FirstChoice(style));
    MarkersOfMembers(to, record, names, entry);
    MarkersOfMembers(st, record, names, Entry(st, record, entry.marker));
    FoundAfterRevocation(c, st, record, entry.marker, q, FirstChoice(style), m, p);
    assert Has(c, Entry(st, record, entry.marker).permissions, q, FirstChoice(style));
  }

  lemma ReadAfterRevocation(s: Setting, kind: SubjectKind, id: Option<JsString>, req: Request, m: JsString, p: Permission)
    requires (req.Use? || req.Manage?) && SubjectGranted(Revoking(s, m, p), kind, id, req)
    ensures SubjectGranted(s, kind, id, req)
  {
    SameSubjects(s, m, p, kind, id);
    AnyAfterRevocation(s.CaseOf(kind, id), s.st, s.ctx.recordName, req.Markers(), StyleOf(req), req.query,
                       MissingRole, MissingRole, m, p);
  }

  /** Revoking a permission never turns a denied read, delete, count, increment,
      policy or role request into an allowed one. */
  lemma RevocationNeverAllows(s: Setting, who: Requester, req: Request, m: JsString, p: Permission)
    requires (req.Use? || req.Manage?) && Authorize(Revoking(s, m, p), who, req).Allowed?
    ensures Authorize(s, who, req).Allowed?
  {
    AllowedExact(Revoking(s, m, p), who, req);
    AllowedExact(s, who, req);
    ReadAfterRevocation(s, User, who.userId, req, m, p);
    forall inst | inst in Checked(s, who, req) ensures SubjectGranted(s, Inst, Some(inst), req) {
      assert SubjectGranted(Revoking(s, m, p), Inst, Some(inst), req);
      ReadAfterRevocation(s, Inst, Some(inst), req, m, p);
    }
  }

  // ----- lists -----

  /** What the search through the item's markers will find. */
  function ItemLess(c: Case, st: Store, record: JsString, item: Item, from: nat, role: Option<Role>, m: JsString, p: Permission)
    : Option<Permission>
    requires from <= |item.markers|
    decreases |item.markers| - from
  {
    if from == |item.markers| then None
    else
      match FoundLess(c, st, record, item.markers[from], DataQuery(DataList, item.address), ModeFor(role), m, p)
      case Some(found) => Some(found)
      case None => ItemLess(c, st, record, item, from + 1, role, m, p)
  }

  /** The role the subject will list under. */
  function ListRoleLess(c: Case, st: Store, record: JsString, items: seq<Item>, m: JsString, p: Permission): Option<Role> {
    if items == [] then None
    else
      match ItemLess(c, st, record, items[0], 0, None, m, p)
      case Some(found) => Some(found.role)
      case None => ListRoleLess(c, st, record, items[1..], m, p)
  }

  lemma {:induction false} ItemAfterRevocation(c: Case, st: Store, record: JsString, names: seq<JsString>, item: Item,
      from: nat, role: Option<Role>, m: JsString, p: Permission)
    requires from <= |item.markers| && forall x | x in item.markers :: x in names
    ensures ItemPermission(c, MarkersOf(RemovePermission(st, record, m, p), record, names), item, from, role)
         == ItemLess(c, st, record, item, from, role, m, p)
    decreases |item.markers| - from
  {
    if from < |item.markers| {
      var name := item.markers[from];
      PermissionsOfMember(RemovePermission(st, record, m, p), record, names, name);
      FoundAfterRevocation(c, st, record, name, DataQuery(DataList, item.address), ModeFor(role), m, p);
      ItemAfterRevocation(c, st, record, names, item, from + 1, role, m, p);
    }
  }

  lemma {:induction false} ListRoleAfterRevocation(c: Case, st: Store, record: JsString, names: seq<JsString>,
      items: seq<Item>, m: JsString, p: Permission)
    requires Covers(names, items)
    ensures ListRole(c, MarkersOf(RemovePermission(st, record, m, p), record, names), items)
         == ListRoleLess(c, st, record, items, m, p)
  {
    if items != [] {
      assert items[0] in items;
      ItemAfterRevocation(c, st, record, names, items[0], 0, None, m, p);
      assert forall i, x | i in items[1..] && x in i.markers :: i in items;
      ListRoleAfterRevocation(c, st, record, names, items[1..], m, p);
    }
  }

  /** The subject will list the item. */
  predicate ListsLess(s: Setting, kind: SubjectKind, id: Option<JsString>, items: seq<Item>, item: Item, m: JsString,
                      p: Permission) {
    var c, record := s.CaseOf(kind, id), s.ctx.recordName;
    var role := ListRoleLess(c, s.st, record, items, m, p);
    role.Some? && ItemLess(c, s.st, record, item, 0, role, m, p).Some?
  }

  lemma ListsAfterRevocation(s: Setting, kind: SubjectKind, id: Option<JsString>, items: seq<Item>, item: Item,
                             m: JsString, p: Permission)
    requires item in items
    ensures SubjectLists(Revoking(s, m, p), kind, id, items, item) <==> ListsLess(s, kind, id, items, item, m, p)
  {
    var c, record, names := s.CaseOf(kind, id), s.ctx.recordName, ListData(items).Markers();
    var markers := MarkersOf(Revoking(s, m, p).st, record, names);
    var role := ListRoleLess(c, s.st, record, items, m, p);
    SameSubjects(s, m, p, kind, id);
    RequestCovers(items);
    ListRoleAfterRevocation(c, s.st, record, names, items, m, p);
    SeenExact(c, markers, items, item);
    if role.Some? {
      VisibleMeaning(c, markers, item, role.value);
      ItemAfterRevocation(c, s.st, record, names, item, 0, role, m, p);
    }
  }

  /** An item of an allowed list is listed after a revocation exactly when the user
      and every checked instance will list it under the role each will list under. */
  lemma ListAfterRevocationExact(s: Setting, who: Requester, items: seq<Item>, item: Item, m: JsString, p: Permission)
    requires KeysDistinct(items, AddressOf()) && item in items && Authorize(s, who, ListData(items)).Allowed?
    ensures Authorize(Revoking(s, m, p), who, ListData(items)).Allowed?
    ensures item in ListedItems(Revoking(s, m, p), who, items)
        <==> && ListsLess(s, User, who.userId, items, item, m, p)
             && forall inst | inst in Checked(s, who, ListData(items)) :: ListsLess(s, Inst, Some(inst), items, item, m, p)
  {
    var t := Revoking(s, m, p);
    ListExact(s, who, items);
    ListExact(t, who, items);
    ListedMeans(t, who, items, item);
    ListsAfterRevocation(s, User, who.userId, items, item, m, p);
    forall inst | inst in Checked(s, who, ListData(items))
      ensures SubjectLists(t, Inst, Some(inst), items, item) <==> ListsLess(s, Inst, Some(inst), items, item, m, p)
    {
      ListsAfterRevocation(s, Inst, Some(inst), items, item, m, p);
    }
  }

  // ----- a revocation that allows an update -----

  lemma {:induction false} SameDocuments(a: Store, b: Store, record: JsString, names: seq<JsString>)
    requires forall x | x in names :: a.DocumentOf(record, x) == b.DocumentOf(record, x)
    ensures MarkersOf(a, record, names) == MarkersOf(b, record, names)
  {
    if names != [] {
      assert names[0] in names;
      SameDocuments(a, b, record, names[1..]);
    }
  }

  /** Requests are decided as before the grant. */
  lemma UndoneAlike(s: Setting, who: Requester, req: Request, m: JsString, p: Permission)
    requires p !in s.st.DocumentOf(s.ctx.recordName, m)
    ensures var t := s.(st := AddPermission(s.st, s.ctx.recordName, m, p));
            Authorize(Revoking(t, m, p), who, req).Allowed? <==> Authorize(s, who, req).Allowed?
  {
    var record := s.ctx.recordName;
    var u := Revoking(s.(st := AddPermission(s.st, record, m, p)), m, p);
    forall x | x in req.Markers() ensures u.st.DocumentOf(record, x) == s.st.DocumentOf(record, x) {
      RevocationUndoesGrant(s.st, record, m, p, x);
    }
    SameDocuments(u.st, s.st, record, req.Markers());
    AllowedExact(u, who, req);
    AllowedExact(s, who, req);
    assert u.st.roles == s.st.roles && u.st.assignments == s.st.assignments;
    forall kind, id ensures SubjectGranted(u, kind, id, req) == SubjectGranted(s, kind, id, req) {
      assert u.CaseOf(kind, id) == s.CaseOf(kind, id);
    }
  }

  /** In every such store, once role a has been granted the update of marker m1,
      revoking that permission turns the user's denied update into an allowed one. */
  lemma RevocationCanAllowUpdate(s: Setting, who: Requester, a: JsString, b: JsString, m1: JsString, m2: JsString,
                                 m3: JsString, address: JsString)
    requires Scene(s, who, a, b, m1, m2, m3)
    ensures var req, t := SceneRequest(address, m1, m2, m3), s.(st := AddPermission(s.st, s.ctx.recordName, m1, Updates(a)));
            && Authorize(t, who, req).NotAuthorized?
            && Authorize(Revoking(t, m1, Updates(a)), who, req).Allowed?
  {
    GrantCanDenyUpdate(s, who, a, b, m1, m2, m3, address);
    UndoneAlike(s, who, SceneRequest(address, m1, m2, m3), m1, Updates(a));
  }
}
