/** What permissions match, whose roles count, and what a request's answer
    says, in terms of the request and the stored roles alone. */
module RequestLaws {
  import opened JsStrings
  import opened Options
  import opened Sequences
  import opened Permissions
  import opened PolicyStore
  import opened PolicyChanges
  import opened Authorization
  import opened AuthorizationLaws

  // ----- what a permission matches -----

  /** A pattern covers exactly the addresses that it accepts. */
  lemma ScopeExact(re: Regex, t: DataType, role: Role, address: JsString, q: Query, pattern: JsString)
    ensures Matches(re, q, DataPermission(t, role, Pattern(pattern)))
        <==> q.DataQuery? && q.dataType == t && re(pattern, q.address)
    ensures Matches(re, q, DataPermission(t, role, All)) <==> q.DataQuery? && q.dataType == t
  {}

  /** A size limit covers exactly the files no larger, and a list of types exactly those of a listed type. */
  lemma FileLimitExact(re: Regex, t: FileType, role: Role, limit: int, mimes: seq<JsString>, q: Query)
    ensures Matches(re, q, FilePermission(t, role, Some(limit), Some(mimes)))
        <==> Matches(re, q, FilePermission(t, role, None, None)) && q.sizeInBytes <= limit && q.mimeType in mimes
    ensures Matches(re, q, FilePermission(t, role, Some(limit), None))
        <==> Matches(re, q, FilePermission(t, role, None, None)) && q.sizeInBytes <= limit
    ensures Matches(re, q, FilePermission(t, role, None, Some(mimes)))
        <==> Matches(re, q, FilePermission(t, role, None, None)) && q.mimeType in mimes
    ensures Matches(re, q, FilePermission(t, role, None, None)) <==> q.FileQuery? && q.fileType == t
  {}

  /** Users are covered by a list that names them, instances by a pattern that accepts them. */
  lemma TargetExact(re: Regex, user: JsString, ids: seq<JsString>, instances: Instances, inst: JsString, users: UserIds,
                    pattern: JsString)
    requires user != [] && inst != []
    ensures CoversTarget(re, Users(ids), instances, Some(user), None) <==> user in ids
    ensures CoversTarget(re, users, InstancePattern(pattern), None, Some(inst)) <==> re(pattern, inst)
    ensures CoversTarget(re, AnyUser, instances, Some(user), None) && CoversTarget(re, users, AnyInstance, None, Some(inst))
    ensures !CoversTarget(re, NoUser, instances, Some(user), None) && !CoversTarget(re, users, NoInstance, None, Some(inst))
  {}

  // ----- whose roles count -----

  /** A role may be used by everyone, by whoever holds it, and - if it is the
      administrator's - with a valid key; the record's owner, as a user, may use
      any role wherever no key speaks instead. */
  lemma EligibleExact(s: Setting, kind: SubjectKind, id: Option<JsString>, style: Style, role: JsString)
    ensures Eligible(s.CaseOf(kind, id), style, Everyone)
    ensures Eligible(s.CaseOf(kind, id), style, Named(role))
        <==> || (id.Some? && id.value != [] && Holds(s.st, s.ctx.recordName, id.value, role, s.now))
             || (style.KeyOrOwner? && s.ctx.recordKey.Some? && role == Text("admin"))
             || (!(style.KeyOrOwner? && s.ctx.recordKey.Some?) && kind.User? && id == Some(s.ctx.recordOwnerId))
  {}

  /** A key never helps with policies and roles: such a request is allowed with one exactly when it is without. */
  lemma ManageIgnoresKey(s: Setting, key: KeyGrant, who: Requester, q: Query)
    ensures Authorize(s.(ctx := s.ctx.(recordKey := Some(key))), who, Manage(q)).Allowed?
        <==> Authorize(s.(ctx := s.ctx.(recordKey := None)), who, Manage(q)).Allowed?
  {
    var a, b := s.(ctx := s.ctx.(recordKey := Some(key))), s.(ctx := s.ctx.(recordKey := None));
    var markers := MarkersOf(s.st, s.ctx.recordName, [ACCOUNT_MARKER]);
    AllowedExact(a, who, Manage(q));
    AllowedExact(b, who, Manage(q));
    SameOwnerOnly(a.CaseOf(User, who.userId), b.CaseOf(User, who.userId), markers, q);
    forall inst | inst in OrEmpty(who.instances)
      ensures SubjectGranted(a, Inst, Some(inst), Manage(q)) <==> SubjectGranted(b, Inst, Some(inst), Manage(q))
    {
      SameOwnerOnly(a.CaseOf(Inst, Some(inst)), b.CaseOf(Inst, Some(inst)), markers, q);
    }
  }

  lemma SameOwnerOnly(a: Case, b: Case, markers: seq<MarkerPermission>, q: Query)
    requires a.re == b.re && a.subject == b.subject && a.ctx.recordOwnerId == b.ctx.recordOwnerId
    ensures AuthorizeAny(a, OwnerOnly, markers, q, MissingRole).Granted?
        <==> AuthorizeAny(b, OwnerOnly, markers, q, MissingRole).Granted?
  {
    AnyExact(a, OwnerOnly, markers, q, MissingRole);
    AnyExact(b, OwnerOnly, markers, q, MissingRole);
    forall m | m in markers
      ensures Has(a, m.permissions, q, FirstChoice(OwnerOnly)) <==> Has(b, m.permissions, q, FirstChoice(OwnerOnly))
    {
      HasMeaning(a, m.permissions, q, FirstChoice(OwnerOnly));
      HasMeaning(b, m.permissions, q, FirstChoice(OwnerOnly));
      assert forall p | p in m.permissions :: Grants(a, q, FirstChoice(OwnerOnly), p) == Grants(b, q, FirstChoice(OwnerOnly), p);
    }
  }

  /** Whoever is refused is asked to log in exactly when neither a user nor a key
      was named and the user's own authorization is what failed. */
  lemma NotLoggedInExact(s: Setting, who: Requester, req: Request)
    ensures Authorize(s, who, req).NotLoggedIn?
        <==> && Admissible(who, req) && !SubjectGranted(s, User, who.userId, req)
             && (who.userId.None? || who.userId.value == []) && s.ctx.recordKey.None?
  {}

  /** Putting a marker on, or taking it off, may be granted under the role in force or to everyone. */
  lemma ChangeUnderRole(c: Case, permissions: seq<Permission>, q: Query, r: Role)
    ensures Has(c, permissions, q, EveryoneOr(r)) <==> Has(c, permissions, q, Fixed(r)) || Has(c, permissions, q, Fixed(Everyone))
  {
    HasMeaning(c, permissions, q, EveryoneOr(r));
    HasMeaning(c, permissions, q, Fixed(r));
    HasMeaning(c, permissions, q, Fixed(Everyone));
    assert forall p :: Grants(c, q, EveryoneOr(r), p) <==> Grants(c, q, Fixed(r), p) || Grants(c, q, Fixed(Everyone), p);
  }

  /** A permission under the empty role name lets nobody create anything. */
  lemma EmptyRoleCreatesNothing(c: Case, markers: seq<MarkerPermission>, q: Query, change: Change)
    requires markers != []
    requires var first := FindPermission(c, markers[0].permissions, q, FirstChoice(KeyOrOwner));
             first.Some? && first.value.role == Named([])
    ensures AuthorizeEvery(c, markers, q, change, START).Denied?
  {
    CreateExact(c, markers, q, change);
  }

  /** The role of a read-like answer is that of the first eligible match in marker order. */
  lemma {:induction false} AnyRole(c: Case, markers: seq<MarkerPermission>, q: Query, denial: DenialReason)
    ensures var result := AuthorizeAny(c, KeyOrOwner, markers, q, denial);
            var role := ChosenRole(c, markers, q);
            if role.Some? then GrantedAs(result, role.value) else result.Denied?
  {
    if markers != [] { AnyRole(c, markers[1..], q, Missing(c, markers[0].marker, q, None)); }
  }

  // ----- what the answer rests on -----

  /** The permission stands at that marker, matches, and is everyone's or the role's. */
  predicate Justifies(c: Case, m: MarkerPermission, role: Role, a: ActionAuthorization) {
    && a.grantingPermission in m.permissions && Matches(c.re, a.query, a.grantingPermission)
    && (a.grantingPermission.role == role || a.grantingPermission.role.Everyone?)
  }

  predicate EntryJustified(c: Case, markers: seq<MarkerPermission>, role: Role, e: MarkerAuthorization) {
    exists m | m in markers :: m.marker == e.marker && forall a | a in e.actions :: Justifies(c, m, role, a)
  }

  predicate AllJustified(c: Case, markers: seq<MarkerPermission>, role: Role, done: seq<MarkerAuthorization>) {
    forall e | e in done :: EntryJustified(c, markers, role, e)
  }

  lemma AcceptJustified(c: Case, all: seq<MarkerPermission>, m: MarkerPermission, q: Query, change: Change, at: Progress,
                        p: Permission)
    requires m in all && Accept(c, m, q, change, at, p).GoOn?
    requires FindPermission(c, m.permissions, q, ModeFor(at.role)) == Some(p)
    requires AllJustified(c, all, p.role, at.done)
    ensures var next := Accept(c, m, q, change, at, p).at;
            next.role == Some(p.role) && AllJustified(c, all, p.role, next.done)
  {
    FoundGrants(c, m.permissions, q, ModeFor(at.role));
    var check := AuthorizeChange(c, m, change, p.role);
    if check.Covered? { FoundGrants(c, m.permissions, change.PolicyNeed(m.marker).value, EveryoneOr(p.role)); }
    var e := MarkerAuthorization(m.marker, Actions(q, p, check));
    assert forall a | a in e.actions :: Justifies(c, m, p.role, a);
    assert EntryJustified(c, all, p.role, e);
  }

  lemma {:induction false} EveryJustified(c: Case, all: seq<MarkerPermission>, markers: seq<MarkerPermission>, q: Query,
                                          change: Change, at: Progress)
    requires (forall m | m in markers :: m in all)
    requires if at.role.Some? then AllJustified(c, all, at.role.value, at.done) else at.done == []
    ensures var result := AuthorizeEvery(c, markers, q, change, at);
            result.Granted? ==> AllJustified(c, all, result.role, result.markers)
  {
    if markers != [] {
      assert markers[0] in markers;
      var found := FindPermission(c, markers[0].permissions, q, ModeFor(at.role));
      var turn := EveryTurn(c, markers[0], q, change, at);
      if turn.GoOn? {
        FoundGrants(c, markers[0].permissions, q, ModeFor(at.role));
        AcceptJustified(c, all, markers[0], q, change, at, found.value);
        EveryJustified(c, all, markers[1..], q, change, turn.at);
      }
    }
  }

  lemma {:induction false} UpdateJustified(c: Case, all: seq<MarkerPermission>, markers: seq<MarkerPermission>, q: Query,
                                           change: Change, at: Progress)
    requires (forall m | m in markers :: m in all)
    requires if at.role.Some? then AllJustified(c, all, at.role.value, at.done) else at.done == []
    ensures var result := AuthorizeUpdate(c, markers, q, change, at);
            result.Granted? ==> AllJustified(c, all, result.role, result.markers)
  {
    if markers != [] {
      assert markers[0] in markers;
      var found := FindPermission(c, markers[0].permissions, q, ModeFor(at.role));
      var turn := UpdateTurn(c, markers[0], q, change, at);
      if turn.GoOn? {
        if found.Some? {
          FoundGrants(c, markers[0].permissions, q, ModeFor(at.role));
          AcceptJustified(c, all, markers[0], q, change, at, found.value);
        }
        UpdateJustified(c, all, markers[1..], q, change, turn.at);
      }
    }
  }

  lemma {:induction false} AnyJustified(c: Case, style: Style, markers: seq<MarkerPermission>, q: Query, denial: DenialReason)
    ensures var result := AuthorizeAny(c, style, markers, q, denial);
            result.Granted? ==> AllJustified(c, markers, result.role, result.markers)
  {
    if markers != [] {
      var found := FindPermission(c, markers[0].permissions, q, FirstChoice(style));
      if found.Some? {
        FoundGrants(c, markers[0].permissions, q, FirstChoice(style));
        assert Justifies(c, markers[0], found.value.role, ActionAuthorization(q, found.value));
      } else {
        AnyJustified(c, style, markers[1..], q, Missing(c, markers[0].marker, q, None));
        assert forall m | m in markers[1..] :: m in markers;
      }
    }
  }

  /** Whatever an allowed request is answered with, every permission it cites
      stands at the marker it is cited for, matches the action, and belongs to
      everyone or to the one role answered. (Lists: ListAuthorizationsExact.) */
  lemma AnswerJustified(s: Setting, who: Requester, req: Request)
    requires !req.ListData? && Authorize(s, who, req).Allowed?
    ensures var r := Authorize(s, who, req);
            AllJustified(s.CaseOf(User, who.userId), MarkersOf(s.st, s.ctx.recordName, req.Markers()), r.role, r.markers)
  {
    var c, markers := s.CaseOf(User, who.userId), MarkersOf(s.st, s.ctx.recordName, req.Markers());
    var own := AuthorizeSubject(c, markers, req);
    assert own.Granted? && Authorize(s, who, req).markers == own.markers && Authorize(s, who, req).role == own.role;
    match req
    case Use(q, _) => AnyJustified(c, KeyOrOwner, markers, q, MissingRole);
    case Manage(q) => AnyJustified(c, OwnerOnly, markers, q, MissingRole);
    case Create(q, _) => EveryJustified(c, markers, markers, q, Creating, START);
    case Update(q, e, a, r) => UpdateJustified(c, markers, markers, q, Changing(e, a, r), START);
    case UpdateFile(q, e, a, r) => EveryJustified(c, markers, markers, q, Changing(e, a, r), START);
  }

  /** The instances are answered for one by one, in order: let through under a key, or with the role each was granted. */
  lemma {:induction false} InstancesAnswered(s: Setting, markers: seq<MarkerPermission>, req: Request, insts: seq<JsString>,
                                             items: Option<seq<Item>>, done: seq<InstAuthorization>, i: nat)
    requires i < |insts| && AuthorizeInstances(s, markers, req, insts, items, done).InstsAllowed?
    ensures var answered := AuthorizeInstances(s, markers, req, insts, items, done).instances;
            && |answered| == |done| + |insts| && done <= answered
            && answered[|done| + i].inst == insts[i]
            && (answered[|done| + i].NotRequired? <==> !req.Manage? && s.ctx.recordKey.Some?)
            && (answered[|done| + i].InstAllowed? ==>
                  GrantedAs(AuthorizeSubject(s.CaseOf(Inst, Some(insts[i])), markers, req), answered[|done| + i].role))
  {
    var skip := req.SkipsInstancesWithKey() && s.ctx.recordKey.Some?;
    var c := s.CaseOf(Inst, Some(insts[0]));
    var r := AuthorizeSubject(c, markers, req);
    var first := if skip || r.Denied? then NotRequired(insts[0]) else InstAllowed(insts[0], r.role, r.markers);
    var narrowed := if skip then items else Narrow(items, AllowedItems(c, markers, req));
    var rest := AuthorizeInstances(s, markers, req, insts[1..], narrowed, done + [first]);
    assert AuthorizeInstances(s, markers, req, insts, items, done) == rest;
    if |insts| > 1 {
      InstancesAnswered(s, markers, req, insts[1..], narrowed, done + [first], if i > 0 then i - 1 else 0);
    }
  }

  // ----- what a refusal says -----

  /** The marker is one of those asked about, and there nothing grants the action under the role (or under any eligible one). */
  predicate Lacks(c: Case, style: Style, markers: seq<MarkerPermission>, marker: JsString, q: Query, role: Option<Role>) {
    exists m | m in markers :: m.marker == marker
      && !Has(c, m.permissions, q, if role.Some? then Fixed(role.value) else FirstChoice(style))
  }

  predicate TrueDenial(c: Case, style: Style, markers: seq<MarkerPermission>, d: DenialReason) {
    d.MissingPermission? ==>
      && d.kind == c.subject.kind && d.id == c.subject.id && Lacks(c, style, markers, d.marker, d.query, d.role)
  }

  lemma LacksHere(c: Case, style: Style, markers: seq<MarkerPermission>, m: MarkerPermission, q: Query, role: Option<Role>)
    requires m in markers && !Has(c, m.permissions, q, if role.Some? then Fixed(role.value) else FirstChoice(style))
    ensures TrueDenial(c, style, markers, Missing(c, m.marker, q, role))
  {}

  lemma {:induction false} AnyDenial(c: Case, style: Style, all: seq<MarkerPermission>, markers: seq<MarkerPermission>, q: Query,
                                     denial: DenialReason)
    requires (forall m | m in markers :: m in all) && TrueDenial(c, style, all, denial)
    ensures var result := AuthorizeAny(c, style, markers, q, denial); result.Denied? ==> TrueDenial(c, style, all, result.reason)
  {
    if markers != [] {
      assert markers[0] in markers;
      if !Has(c, markers[0].permissions, q, FirstChoice(style)) {
        LacksHere(c, style, all, markers[0], q, None);
        AnyDenial(c, style, all, markers[1..], q, Missing(c, markers[0].marker, q, None));
      }
    }
  }

  lemma AcceptDenial(c: Case, all: seq<MarkerPermission>, m: MarkerPermission, q: Query, change: Change, at: Progress,
                     p: Permission)
    requires m in all && FindPermission(c, m.permissions, q, ModeFor(at.role)) == Some(p)
    ensures var turn := Accept(c, m, q, change, at, p);
            if turn.Stop? then turn.result.Denied? && TrueDenial(c, KeyOrOwner, all, turn.result.reason)
            else turn.at.denial == at.denial
  {
    FoundGrants(c, m.permissions, q, ModeFor(at.role));
    var check := AuthorizeChange(c, m, change, p.role);
    if check.Lacking? {
      HasMeaning(c, m.permissions, check.query, EveryoneOr(p.role));
      HasMeaning(c, m.permissions, check.query, Fixed(p.role));
      assert forall x | Grants(c, check.query, Fixed(p.role), x) :: Grants(c, check.query, EveryoneOr(p.role), x);
      LacksHere(c, KeyOrOwner, all, m, check.query, Some(p.role));
    }
  }

  lemma {:induction false} EveryDenial(c: Case, all: seq<MarkerPermission>, markers: seq<MarkerPermission>, q: Query,
                                       change: Change, at: Progress)
    requires forall m | m in markers :: m in all
    ensures var result := AuthorizeEvery(c, markers, q, change, at);
            result.Denied? ==> TrueDenial(c, KeyOrOwner, all, result.reason)
  {
    if markers != [] {
      assert markers[0] in markers;
      var found := FindPermission(c, markers[0].permissions, q, ModeFor(at.role));
      if found.Some? {
        AcceptDenial(c, all, markers[0], q, change, at, found.value);
        var turn := EveryTurn(c, markers[0], q, change, at);
        if turn.GoOn? { EveryDenial(c, all, markers[1..], q, change, turn.at); }
      } else {
        LacksHere(c, KeyOrOwner, all, markers[0], q, at.role);
      }
    }
  }

  lemma {:induction false} UpdateDenial(c: Case, all: seq<MarkerPermission>, markers: seq<MarkerPermission>, q: Query,
                                        change: Change, at: Progress)
    requires (forall m | m in markers :: m in all) && (at.denial.Some? ==> TrueDenial(c, KeyOrOwner, all, at.denial.value))
    ensures var result := AuthorizeUpdate(c, markers, q, change, at);
            result.Denied? ==> TrueDenial(c, KeyOrOwner, all, result.reason)
  {
    if markers != [] {
      assert markers[0] in markers;
      var found := FindPermission(c, markers[0].permissions, q, ModeFor(at.role));
      if found.Some? { AcceptDenial(c, all, markers[0], q, change, at, found.value); }
      else { LacksHere(c, KeyOrOwner, all, markers[0], q, at.role); }
      var turn := UpdateTurn(c, markers[0], q, change, at);
      if turn.GoOn? { UpdateDenial(c, all, markers[1..], q, change, turn.at); }
    }
  }

  /** A refusal that names a missing permission is true: it names the subject
      refused, and a marker of the request where nothing grants that action. */
  lemma RefusalTrue(c: Case, markers: seq<MarkerPermission>, req: Request)
    ensures var result := AuthorizeSubject(c, markers, req);
            result.Denied? ==> TrueDenial(c, if req.Manage? then OwnerOnly else KeyOrOwner, markers, result.reason)
  {
    match req
    case Use(q, _) => AnyDenial(c, KeyOrOwner, markers, markers, q, MissingRole);
    case Manage(q) => AnyDenial(c, OwnerOnly, markers, markers, q, MissingRole);
    case Create(q, _) => EveryDenial(c, markers, markers, q, Creating, START);
    case Update(q, e, a, r) => UpdateDenial(c, markers, markers, q, Changing(e, a, r), START);
    case UpdateFile(q, e, a, r) => EveryDenial(c, markers, markers, q, Changing(e, a, r), START);
    case ListData(_) =>
  }

  // ----- the markers of a request -----

  /** Both kinds of update ask about the existing, the added and the removed markers, each once. */
  lemma MarkersExact(q: Query, e: seq<JsString>, a: Option<seq<JsString>>, r: Option<seq<JsString>>, x: JsString)
    ensures x in Update(q, e, a, r).Markers() <==> x in e || (a.Some? && x in a.value) || (r.Some? && x in r.value)
    ensures UpdateFile(q, e, a, r).Markers() == Update(q, e, a, r).Markers()
    ensures NoRepeats(Update(q, e, a, r).Markers())
  {
    UnionMembers(e + OrEmpty(a) + OrEmpty(r), x);
    UnionNoRepeats(e + OrEmpty(a) + OrEmpty(r));
  }

  ghost predicate NoRepeats(xs: seq<JsString>) { forall i, j | 0 <= i < j < |xs| :: xs[i] != xs[j] }

  lemma {:induction false} UnionNoRepeats(xs: seq<JsString>)
    ensures NoRepeats(Union(xs))
  {
    if xs != [] { UnionNoRepeats(xs[..|xs| - 1]); }
  }

  /** They come in the order in which they first occur: what is listed later comes later. */
  lemma {:induction false} UnionOrder(xs: seq<JsString>, more: seq<JsString>)
    ensures Union(xs) <= Union(xs + more)
  {
    if more == [] {
      assert xs + more == xs;
    } else {
      var all := xs + more;
      assert all[..|all| - 1] == xs + more[..|more| - 1];
      UnionOrder(xs, more[..|more| - 1]);
    }
  }

  // ----- which updates leave a marker -----

  lemma {:induction false} DistinctFits(xs: seq<JsString>, ys: seq<JsString>)
    requires NoRepeats(xs) && forall x | x in xs :: x in ys
    ensures |xs| <= |ys|
  {
    if xs != [] {
      var n := |xs| - 1;
      assert xs[n] in xs;
      var i :| 0 <= i < |ys| && ys[i] == xs[n];
      forall x | x in xs[..n] ensures x in RemoveAt(ys, i) {
        assert x in xs && x != xs[n];
        var j :| 0 <= j < |ys| && ys[j] == x;
        assert RemoveAt(ys, i)[if j < i then j else j - 1] == x;
      }
      DistinctFits(xs[..n], RemoveAt(ys, i));
    }
  }

  /** With no marker listed twice, an update is admissible exactly when some
      existing marker stays, or some marker is added - or some marker is to be
      taken off that was not there. */
  lemma RemainingMeaning(e: seq<JsString>, removed: seq<JsString>, added: Option<seq<JsString>>)
    requires NoRepeats(e) && NoRepeats(removed)
    ensures WillMarkersBeRemaining(e, Some(removed), added)
        <==> || (exists m | m in e :: m !in removed) || (added.Some? && exists m :: m in added.value)
             || (exists m | m in removed :: m !in e)
  {
    if forall m | m in e :: m in removed {
      DistinctFits(e, removed);
      if m :| m in removed && m !in e {
        OneLess(e, removed, m);
      } else {
        DistinctFits(removed, e);
      }
    }
    if added.Some? && added.value != [] { assert added.value[0] in added.value; }
  }

  lemma OneLess(xs: seq<JsString>, ys: seq<JsString>, y: JsString)
    requires NoRepeats(xs) && y in ys && y !in xs && forall x | x in xs :: x in ys
    ensures |xs| < |ys|
  {
    var i :| 0 <= i < |ys| && ys[i] == y;
    forall x | x in xs ensures x in RemoveAt(ys, i) {
      var j :| 0 <= j < |ys| && ys[j] == x;
      assert RemoveAt(ys, i)[if j < i then j else j - 1] == x;
    }
    DistinctFits(xs, RemoveAt(ys, i));
  }

  /** So taking off everything and a marker that was not there leaves nothing, and is admissible. */
  lemma NothingRemains(e: seq<JsString>, absent: JsString)
    requires NoRepeats(e) && absent !in e
    ensures WillMarkersBeRemaining(e, Some(e + [absent]), None)
    ensures forall m | m in e :: m in e + [absent]
  {}

  // ----- updating files, and stored documents -----

  /** A file update is granted exactly when it adds or takes off some marker, is
      admissible, and the first marker's role serves every marker named. */
  lemma FileUpdateExact(c: Case, markers: seq<MarkerPermission>, q: Query, e: seq<JsString>, a: Option<seq<JsString>>,
                        r: Option<seq<JsString>>)
    ensures AuthorizeSubject(c, markers, UpdateFile(q, e, a, r)).Granted?
        <==> && ((a.Some? && a.value != []) || (r.Some? && r.value != [])) && WillMarkersBeRemaining(e, r, a)
             && markers != [] && var first := FindPermission(c, markers[0].permissions, q, FirstChoice(KeyOrOwner));
             first.Some? && first.value.role.Truthy() && AllAllow(c, markers, q, Changing(e, a, r), first.value.role)
  {
    CreateExact(c, markers, q, Changing(e, a, r));
  }

  /** A grant puts the permission into its document, once; a new document is itself marked with the account marker. */
  lemma GrantStores(st: Store, record: JsString, marker: JsString, p: Permission)
    ensures var after := AddPermission(st, record, marker, p);
            && p in after.DocumentOf(record, marker)
            && (p in st.DocumentOf(record, marker) ==> after == st)
            && (p !in st.DocumentOf(record, marker) ==>
                  && (record, marker) in after.policies && after.DocumentOf(record, marker) == st.DocumentOf(record, marker) + [p]
                  && after.policies[(record, marker)].markers
                     == if (record, marker) in st.policies then st.policies[(record, marker)].markers else [Text("account")])
  {}

  /** A revocation takes every copy of the permission out of its document, and
      nothing else: what is left keeps its order. */
  lemma RevocationStores(st: Store, record: JsString, marker: JsString, p: Permission, r: JsString, m: JsString)
    ensures var after := RemovePermission(st, record, marker, p);
            && p !in after.DocumentOf(record, marker)
            && ((r, m) != (record, marker) ==> after.DocumentOf(r, m) == st.DocumentOf(r, m))
            && after.DocumentOf(record, marker) == Filter(st.DocumentOf(record, marker), Differs(p))
            && after.roles == st.roles && after.assignments == st.assignments
  {
    var document := st.DocumentOf(record, marker);
    FilterMember(document, Differs(p), p);
    if p !in document { FilterAll(document, Differs(p)); }
  }
}
