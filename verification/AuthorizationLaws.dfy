/** Which requests the authorization engine allows, exactly, and how that
    changes as permissions are granted. */
module AuthorizationLaws {
  import opened JsStrings
  import opened Options
  import opened Permissions
  import opened PolicyStore
  import opened Authorization

  // ----- searching one permission list -----

  /** The search finds a permission: some permission of the list grants the query (HasMeaning). */
  predicate Has(c: Case, permissions: seq<Permission>, q: Query, mode: Mode) {
    FindPermission(c, permissions, q, mode).Some?
  }

  lemma {:induction false} HasMeaning(c: Case, permissions: seq<Permission>, q: Query, mode: Mode)
    ensures Has(c, permissions, q, mode) <==> exists p | p in permissions :: Grants(c, q, mode, p)
  {
    if permissions != [] {
      HasMeaning(c, permissions[1..], q, mode);
      assert forall p | p in permissions :: p == permissions[0] || p in permissions[1..];
    }
  }

  lemma {:induction false} FoundGrants(c: Case, permissions: seq<Permission>, q: Query, mode: Mode)
    requires Has(c, permissions, q, mode)
    ensures var found := FindPermission(c, permissions, q, mode);
            found.value in permissions && Grants(c, q, mode, found.value)
  {
    if !Grants(c, q, mode, permissions[0]) { FoundGrants(c, permissions[1..], q, mode); }
  }

  lemma {:induction false} FoundInPrefix(c: Case, a: seq<Permission>, b: seq<Permission>, q: Query, mode: Mode)
    requires FindPermission(c, a, q, mode).Some?
    ensures FindPermission(c, a + b, q, mode) == FindPermission(c, a, q, mode)
  {
    assert (a + b)[1..] == a[1..] + b;
    if !Grants(c, q, mode, a[0]) { FoundInPrefix(c, a[1..], b, q, mode); }
  }

  /** Without an eligible match there is no match under any eligible role. */
  lemma FixedNeedsEligible(c: Case, permissions: seq<Permission>, q: Query, style: Style, r: Role)
    requires Eligible(c, style, r) && Has(c, permissions, q, Fixed(r))
    ensures Has(c, permissions, q, FirstChoice(style))
  {
    FoundGrants(c, permissions, q, Fixed(r));
    assert Grants(c, q, FirstChoice(style), FindPermission(c, permissions, q, Fixed(r)).value);
    HasMeaning(c, permissions, q, FirstChoice(style));
  }

  lemma FirstChoiceRole(c: Case, permissions: seq<Permission>, q: Query, style: Style)
    requires Has(c, permissions, q, FirstChoice(style))
    ensures var r := FindPermission(c, permissions, q, FirstChoice(style)).value.role;
            Eligible(c, style, r) && Has(c, permissions, q, Fixed(r))
  {
    FoundGrants(c, permissions, q, FirstChoice(style));
    var p := FindPermission(c, permissions, q, FirstChoice(style)).value;
    assert Grants(c, q, Fixed(p.role), p);
    HasMeaning(c, permissions, q, Fixed(p.role));
  }

  // ----- read-like requests -----

  /** Read-like requests are allowed exactly when some marker grants the action. */
  lemma {:induction false} AnyExact(c: Case, style: Style, markers: seq<MarkerPermission>, q: Query, denial: DenialReason)
    ensures AuthorizeAny(c, style, markers, q, denial).Granted?
        <==> exists m | m in markers :: Has(c, m.permissions, q, FirstChoice(style))
  {
    if markers != [] {
      AnyExact(c, style, markers[1..], q, Missing(c, markers[0].marker, q, None));
      assert forall m | m in markers :: m == markers[0] || m in markers[1..];
    }
  }

  // ----- create-like requests -----

  /** The marker grants the action under the role, and its own change if it has one. */
  predicate MarkerAllows(c: Case, m: MarkerPermission, q: Query, change: Change, r: Role) {
    && Has(c, m.permissions, q, Fixed(r))
    && (change.PolicyNeed(m.marker).Some? ==> Has(c, m.permissions, change.PolicyNeed(m.marker).value, EveryoneOr(r)))
  }

  lemma AcceptExact(c: Case, m: MarkerPermission, q: Query, change: Change, at: Progress, p: Permission)
    requires Has(c, m.permissions, q, Fixed(p.role))
    ensures Accept(c, m, q, change, at, p).GoOn? <==> MarkerAllows(c, m, q, change, p.role)
  {}

  predicate AllAllow(c: Case, markers: seq<MarkerPermission>, q: Query, change: Change, r: Role) {
    forall m | m in markers :: MarkerAllows(c, m, q, change, r)
  }

  lemma {:induction false} EveryUnderRole(c: Case, markers: seq<MarkerPermission>, q: Query, change: Change,
                                          at: Progress, r: Role)
    requires at.role == Some(r)
    ensures var result := AuthorizeEvery(c, markers, q, change, at);
            if r.Truthy() && AllAllow(c, markers, q, change, r) then GrantedAs(result, r) else result.Denied?
  {
    if markers != [] {
      var m := markers[0];
      assert AllAllow(c, markers, q, change, r)
        <==> (MarkerAllows(c, m, q, change, r) && AllAllow(c, markers[1..], q, change, r)) by {
        assert forall x | x in markers :: x == m || x in markers[1..];
      }
      var found := FindPermission(c, m.permissions, q, Fixed(r));
      if found.Some? {
        FoundGrants(c, m.permissions, q, Fixed(r));
        AcceptExact(c, m, q, change, at, found.value);
        var turn := EveryTurn(c, m, q, change, at);
        if turn.GoOn? { EveryUnderRole(c, markers[1..], q, change, turn.at, r); }
      }
    }
  }

  /** Creation is allowed exactly when the first eligible match at the first
      marker gives a role that is not the empty name, and under that one role
      every marker grants the action and its own `policy.assign`. */
  lemma CreateExact(c: Case, markers: seq<MarkerPermission>, q: Query, change: Change)
    ensures var result := AuthorizeEvery(c, markers, q, change, START);
            var first := if markers == [] then None else FindPermission(c, markers[0].permissions, q, FirstChoice(KeyOrOwner));
            if first.Some? && first.value.role.Truthy() && AllAllow(c, markers, q, change, first.value.role)
            then GrantedAs(result, first.value.role) else result.Denied?
  {
    if markers != [] {
      var m := markers[0];
      assert forall x | x in markers :: x == m || x in markers[1..];
      var found := FindPermission(c, m.permissions, q, FirstChoice(KeyOrOwner));
      if found.Some? {
        FirstChoiceRole(c, m.permissions, q, KeyOrOwner);
        AcceptExact(c, m, q, change, START, found.value);
        var turn := EveryTurn(c, m, q, change, START);
        if turn.GoOn? { EveryUnderRole(c, markers[1..], q, change, turn.at, found.value.role); }
      }
    }
  }

  // ----- updates -----

  /** The role of the first eligible match in marker order, if there is one. */
  function ChosenRole(c: Case, markers: seq<MarkerPermission>, q: Query): Option<Role> {
    if markers == [] then None
    else
      match FindPermission(c, markers[0].permissions, q, FirstChoice(KeyOrOwner))
      case Some(p) => Some(p.role)
      case None => ChosenRole(c, markers[1..], q)
  }

  lemma {:induction false} ChosenRoleEligible(c: Case, markers: seq<MarkerPermission>, q: Query)
    requires ChosenRole(c, markers, q).Some?
    ensures Eligible(c, KeyOrOwner, ChosenRole(c, markers, q).value)
  {
    if FindPermission(c, markers[0].permissions, q, FirstChoice(KeyOrOwner)).Some? {
      FirstChoiceRole(c, markers[0].permissions, q, KeyOrOwner);
    } else {
      ChosenRoleEligible(c, markers[1..], q);
    }
  }

  /** Every added or removed marker grants the action and its own change. */
  predicate TouchedAllow(c: Case, markers: seq<MarkerPermission>, q: Query, change: Change, r: Role) {
    forall m | m in markers && change.Touches(m.marker) :: MarkerAllows(c, m, q, change, r)
  }

  predicate ExistingAllows(c: Case, markers: seq<MarkerPermission>, q: Query, change: Change, r: Role) {
    exists m | m in markers :: change.Exists(m.marker) && Has(c, m.permissions, q, Fixed(r))
  }

  predicate AllGrant(c: Case, markers: seq<MarkerPermission>, q: Query, r: Role) {
    forall m | m in markers :: Has(c, m.permissions, q, Fixed(r))
  }

  /** The loop's verdict under role r, from flags saying whether an existing
      marker has granted the action and whether no marker has failed to. */
  predicate Passes(c: Case, markers: seq<MarkerPermission>, q: Query, change: Change, r: Role, has: bool, clean: bool) {
    if markers == [] then has || clean
    else
      var m := markers[0];
      var granted := Has(c, m.permissions, q, Fixed(r));
      && (change.Touches(m.marker) ==> MarkerAllows(c, m, q, change, r))
      && Passes(c, markers[1..], q, change, r, has || (change.Exists(m.marker) && granted), clean && granted)
  }

  lemma {:induction false} PassesAnyway(c: Case, markers: seq<MarkerPermission>, q: Query, change: Change, r: Role, clean: bool)
    ensures Passes(c, markers, q, change, r, true, clean) <==> TouchedAllow(c, markers, q, change, r)
  {
    if markers != [] {
      PassesAnyway(c, markers[1..], q, change, r, clean && Has(c, markers[0].permissions, q, Fixed(r)));
      assert forall x | x in markers :: x == markers[0] || x in markers[1..];
    }
  }

  lemma GrantsCons(c: Case, markers: seq<MarkerPermission>, q: Query, change: Change, r: Role)
    requires markers != []
    ensures var m, rest := markers[0], markers[1..];
            var granted := Has(c, m.permissions, q, Fixed(r));
            && (ExistingAllows(c, markers, q, change, r)
                <==> ((change.Exists(m.marker) && granted) || ExistingAllows(c, rest, q, change, r)))
            && (AllGrant(c, markers, q, r) <==> granted && AllGrant(c, rest, q, r))
  {
    assert forall x | x in markers :: x == markers[0] || x in markers[1..];
    assert markers[0] in markers;
  }

  lemma {:induction false} PassesByExisting(c: Case, markers: seq<MarkerPermission>, q: Query, change: Change, r: Role)
    ensures Passes(c, markers, q, change, r, false, false)
        <==> Passes(c, markers, q, change, r, true, false) && ExistingAllows(c, markers, q, change, r)
  {
    if markers != [] {
      PassesByExisting(c, markers[1..], q, change, r);
      GrantsCons(c, markers, q, change, r);
    }
  }

  lemma {:induction false} PassesMeaning(c: Case, markers: seq<MarkerPermission>, q: Query, change: Change, r: Role)
    ensures Passes(c, markers, q, change, r, false, true)
        <==> Passes(c, markers, q, change, r, true, true)
             && (ExistingAllows(c, markers, q, change, r) || AllGrant(c, markers, q, r))
  {
    if markers != [] {
      GrantsCons(c, markers, q, change, r);
      PassesMeaning(c, markers[1..], q, change, r);
      PassesByExisting(c, markers[1..], q, change, r);
    }
  }

  predicate GrantedAs(result: GenericResult, r: Role) { result.Granted? && result.role == r }

  lemma TurnUnderRole(c: Case, m: MarkerPermission, q: Query, change: Change, at: Progress, r: Role)
    requires at.role == Some(r)
    ensures var turn := UpdateTurn(c, m, q, change, at);
            var granted := Has(c, m.permissions, q, Fixed(r));
            if change.Touches(m.marker) ==> MarkerAllows(c, m, q, change, r) then
              && turn.GoOn? && turn.at.role == Some(r)
              && turn.at.hasExisting == (at.hasExisting || (change.Exists(m.marker) && granted))
              && turn.at.denial.None? == (at.denial.None? && granted)
            else turn.Stop? && turn.result.Denied?
  {
    var found := FindPermission(c, m.permissions, q, Fixed(r));
    if found.Some? {
      FoundGrants(c, m.permissions, q, Fixed(r));
      AcceptExact(c, m, q, change, at, found.value);
    }
  }

  lemma {:induction false} UpdateUnderRole(c: Case, markers: seq<MarkerPermission>, q: Query, change: Change,
                                           at: Progress, r: Role)
    requires at.role == Some(r)
    ensures var result := AuthorizeUpdate(c, markers, q, change, at);
            if r.Truthy() && Passes(c, markers, q, change, r, at.hasExisting, at.denial.None?) then GrantedAs(result, r)
            else result.Denied?
  {
    if markers != [] {
      TurnUnderRole(c, markers[0], q, change, at, r);
      var turn := UpdateTurn(c, markers[0], q, change, at);
      if turn.GoOn? { UpdateUnderRole(c, markers[1..], q, change, turn.at, r); }
    }
  }

  lemma {:induction false} UpdateBeforeRole(c: Case, markers: seq<MarkerPermission>, q: Query, change: Change, at: Progress)
    requires at.role.None? && !at.hasExisting
    ensures var result := AuthorizeUpdate(c, markers, q, change, at);
            var role := ChosenRole(c, markers, q);
            if role.Some? && role.value.Truthy() && Passes(c, markers, q, change, role.value, false, at.denial.None?)
            then GrantedAs(result, role.value) else result.Denied?
  {
    if markers != [] {
      var m, rest := markers[0], markers[1..];
      var found := FindPermission(c, m.permissions, q, FirstChoice(KeyOrOwner));
      var turn := UpdateTurn(c, m, q, change, at);
      if found.Some? {
        FirstChoiceRole(c, m.permissions, q, KeyOrOwner);
        AcceptExact(c, m, q, change, at, found.value);
        if turn.GoOn? { UpdateUnderRole(c, rest, q, change, turn.at, found.value.role); }
      } else {
        if ChosenRole(c, rest, q).Some? { NotUsable(c, m, rest, q); }
        if turn.GoOn? { UpdateBeforeRole(c, rest, q, change, turn.at); }
      }
    }
  }

  /** A marker before the first match grants nothing under the role chosen later. */
  lemma NotUsable(c: Case, m: MarkerPermission, rest: seq<MarkerPermission>, q: Query)
    requires FindPermission(c, m.permissions, q, FirstChoice(KeyOrOwner)).None? && ChosenRole(c, rest, q).Some?
    ensures !Has(c, m.permissions, q, Fixed(ChosenRole(c, rest, q).value))
  {
    var r := ChosenRole(c, rest, q).value;
    ChosenRoleEligible(c, rest, q);
    if Has(c, m.permissions, q, Fixed(r)) { FixedNeedsEligible(c, m.permissions, q, KeyOrOwner, r); }
  }

  /** An update is allowed exactly when the first eligible match gives a role
      that is not the empty name, and under it every added or removed marker
      grants the update and its own change, and an existing marker (or every
      marker) grants the update. */
  lemma UpdateExact(c: Case, markers: seq<MarkerPermission>, q: Query, change: Change)
    ensures var result := AuthorizeUpdate(c, markers, q, change, START);
            var role := ChosenRole(c, markers, q);
            if role.Some? && role.value.Truthy() && TouchedAllow(c, markers, q, change, role.value)
               && (ExistingAllows(c, markers, q, change, role.value) || AllGrant(c, markers, q, role.value))
            then GrantedAs(result, role.value) else result.Denied?
  {
    UpdateBeforeRole(c, markers, q, change, START);
    var role := ChosenRole(c, markers, q);
    if role.Some? {
      PassesMeaning(c, markers, q, change, role.value);
      PassesAnyway(c, markers, q, change, role.value, true);
    }
  }

  // ----- whole requests -----

  lemma {:induction false} UnionMembers(xs: seq<JsString>, x: JsString)
    ensures x in Union(xs) <==> x in xs
  {
    if xs != [] {
      UnionMembers(xs[..|xs| - 1], x);
      assert xs == xs[..|xs| - 1] + [xs[|xs| - 1]];
    }
  }

  lemma {:induction false} MarkersOfMembers(st: Store, record: JsString, names: seq<JsString>, m: MarkerPermission)
    ensures m in MarkersOf(st, record, names) <==> m.marker in names && m.permissions == st.PermissionsFor(record, m.marker)
  {
    if names != [] {
      MarkersOfMembers(st, record, names[1..], m);
      assert m.marker in names <==> m.marker == names[0] || m.marker in names[1..];
    }
  }

  /** The instances whose own permissions count. */
  function Checked(s: Setting, who: Requester, req: Request): seq<JsString> {
    if req.SkipsInstancesWithKey() && s.ctx.recordKey.Some? then [] else OrEmpty(who.instances)
  }

  lemma {:induction false} InstancesExact(s: Setting, markers: seq<MarkerPermission>, req: Request, insts: seq<JsString>,
                                          items: Option<seq<Item>>, done: seq<InstAuthorization>)
    ensures AuthorizeInstances(s, markers, req, insts, items, done).InstsAllowed?
        <==> (req.SkipsInstancesWithKey() && s.ctx.recordKey.Some?)
             || forall inst | inst in insts :: AuthorizeSubject(s.CaseOf(Inst, Some(inst)), markers, req).Granted?
  {
    if insts != [] {
      assert forall inst | inst in insts :: inst == insts[0] || inst in insts[1..];
      if req.SkipsInstancesWithKey() && s.ctx.recordKey.Some? {
        InstancesExact(s, markers, req, insts[1..], items, done + [NotRequired(insts[0])]);
      } else {
        var c := s.CaseOf(Inst, Some(insts[0]));
        var r := AuthorizeSubject(c, markers, req);
        assert insts[0] in insts;
        if r.Granted? {
          InstancesExact(s, markers, req, insts[1..], Narrow(items, AllowedItems(c, markers, req)),
                         done + [InstAllowed(insts[0], r.role, r.markers)]);
        }
      }
    }
  }

  /** What is asked of a request before anybody's permissions. */
  predicate Admissible(who: Requester, req: Request) {
    && (req.Update? ==> WillMarkersBeRemaining(req.existing, req.removed, req.added))
    && |OrEmpty(who.instances)| <= MAX_ALLOWED_INSTANCES && req.Markers() != []
  }

  predicate SubjectGranted(s: Setting, kind: SubjectKind, id: Option<JsString>, req: Request) {
    AuthorizeSubject(s.CaseOf(kind, id), MarkersOf(s.st, s.ctx.recordName, req.Markers()), req).Granted?
  }

  /** A request is allowed exactly when it is admissible and granted to the user
      and to every checked instance, each on its own. */
  lemma AllowedExact(s: Setting, who: Requester, req: Request)
    ensures Authorize(s, who, req).Allowed?
        <==> && Admissible(who, req) && SubjectGranted(s, User, who.userId, req)
             && forall inst | inst in Checked(s, who, req) :: SubjectGranted(s, Inst, Some(inst), req)
  {
    var markers := MarkersOf(s.st, s.ctx.recordName, req.Markers());
    InstancesExact(s, markers, req, OrEmpty(who.instances), AllowedItems(s.CaseOf(User, who.userId), markers, req), []);
  }
}
