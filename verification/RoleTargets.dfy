/** Granting and revoking roles through the controller: who is changed, until
    when, and which durations a permission covers. */
module RoleTargets {
  import opened JsStrings
  import opened Options
  import opened Permissions
  import opened PolicyStore
  import opened PolicyChanges
  import opened Authorization
  import opened AuthorizationLaws
  import opened PolicyControllers

  /** The one target that is given. */
  function TargetOf(user: Option<JsString>, inst: Option<JsString>): JsString
    requires Given(user) != Given(inst)
  {
    if Given(user) then user.value else inst.value
  }

  /** The named user or instance holds the granted role at exactly the later
      times before its expiry, and always if permanently. */
  lemma TargetGranted(st: Store, record: JsString, user: Option<JsString>, inst: Option<JsString>, expire: Milliseconds,
                      role: JsString, now: int, t: int)
    requires t >= now && Given(user) != Given(inst)
    ensures var id := TargetOf(user, inst);
            Holds(OnTarget(st, record, user, inst, Some(expire), role, now), record, id, role, t)
            <==> role in st.StaticRoles(record, id) || expire.None? || t < expire.value
  {
    GrantTiming(st, record, TargetOf(user, inst), role, expire, now, t);
  }

  /** And no longer holds it after a revocation, unless permanently. */
  lemma TargetRevoked(st: Store, record: JsString, user: Option<JsString>, inst: Option<JsString>, role: JsString,
                      now: int, t: int)
    requires t >= now && Given(user) != Given(inst)
    ensures var id := TargetOf(user, inst);
            Holds(OnTarget(st, record, user, inst, None, role, now), record, id, role, t) <==> role in st.StaticRoles(record, id)
  {
    RevokeTiming(st, record, TargetOf(user, inst), role, now, t);
  }

  /** Nobody else gains or loses a role, and the target no other one. */
  lemma TargetOnly(st: Store, record: JsString, user: Option<JsString>, inst: Option<JsString>, expire: Option<Milliseconds>,
                   role: JsString, now: int, r: JsString, id: JsString, other: JsString, t: int)
    requires t >= now && Given(user) != Given(inst)
    requires r != record || id != TargetOf(user, inst) || other != role
    ensures Holds(OnTarget(st, record, user, inst, expire, role, now), r, id, other, t) <==> Holds(st, r, id, other, t)
  {
    var target := TargetOf(user, inst);
    var op := if expire.Some? then RoleOp.Grant(record, target, role, expire.value, now)
              else RoleOp.Revoke(record, target, role, now);
    OthersUntouched(st, op, r, id, other, t);
  }

  // ----- which requests are allowed -----

  function GrantRequest(role: JsString, user: Option<JsString>, inst: Option<JsString>, expire: Milliseconds, now: int): Request {
    Manage(RoleGrantQuery(role, user, inst, Duration(expire, now)))
  }

  /** A permission with a longest duration covers exactly the grants that end by then. */
  lemma DurationExact(re: Regex, role: JsString, user: Option<JsString>, inst: Option<JsString>, expire: Milliseconds, now: int,
                      p: Permission, longest: int)
    requires p.RoleGrantPermission?
    ensures Matches(re, GrantRequest(role, user, inst, expire, now).query, p.(maxDurationMs := Some(longest)))
        <==> && Matches(re, GrantRequest(role, user, inst, expire, now).query, p.(maxDurationMs := None))
             && expire.Some? && expire.value <= now + longest
  {}

  /** What matches the one query matches the other. */
  ghost predicate Wider(q: Query, wider: Query) {
    forall re: Regex, p: Permission :: Matches(re, q, p) ==> Matches(re, wider, p)
  }

  lemma AnyWider(c: Case, style: Style, markers: seq<MarkerPermission>, q: Query, wider: Query, a: DenialReason, b: DenialReason)
    requires Wider(q, wider) && AuthorizeAny(c, style, markers, q, a).Granted?
    ensures AuthorizeAny(c, style, markers, wider, b).Granted?
  {
    AnyExact(c, style, markers, q, a);
    AnyExact(c, style, markers, wider, b);
    var m :| m in markers && Has(c, m.permissions, q, FirstChoice(style));
    FoundGrants(c, m.permissions, q, FirstChoice(style));
    var p := FindPermission(c, m.permissions, q, FirstChoice(style)).value;
    assert Matches(c.re, wider, p);
    assert Grants(c, wider, FirstChoice(style), p);
    HasMeaning(c, m.permissions, wider, FirstChoice(style));
  }

  /** Whoever may grant a role until some time may grant it until any earlier time. */
  lemma ShorterGrantAllowed(s: Setting, who: Requester, role: JsString, user: Option<JsString>, inst: Option<JsString>,
                            shorter: Milliseconds, longer: Milliseconds)
    requires longer.None? || (shorter.Some? && shorter.value <= longer.value)
    requires Authorize(s, who, GrantRequest(role, user, inst, longer, s.now)).Allowed?
    ensures Authorize(s, who, GrantRequest(role, user, inst, shorter, s.now)).Allowed?
  {
    var a, b := GrantRequest(role, user, inst, longer, s.now), GrantRequest(role, user, inst, shorter, s.now);
    AllowedExact(s, who, a);
    AllowedExact(s, who, b);
    var markers := MarkersOf(s.st, s.ctx.recordName, [ACCOUNT_MARKER]);
    assert Wider(a.query, b.query);
    AnyWider(s.CaseOf(User, who.userId), OwnerOnly, markers, a.query, b.query, MissingRole, MissingRole);
    forall inst | inst in Checked(s, who, b) ensures SubjectGranted(s, Inst, Some(inst), b) {
      assert SubjectGranted(s, Inst, Some(inst), a);
      AnyWider(s.CaseOf(Inst, Some(inst)), OwnerOnly, markers, a.query, b.query, MissingRole, MissingRole);
    }
  }

  lemma AnyNeedsMatch(c: Case, style: Style, markers: seq<MarkerPermission>, q: Query, denial: DenialReason)
    requires forall p :: !Matches(c.re, q, p)
    ensures AuthorizeAny(c, style, markers, q, denial).Denied?
  {
    AnyExact(c, style, markers, q, denial);
    forall m | m in markers ensures !Has(c, m.permissions, q, FirstChoice(style)) {
      HasMeaning(c, m.permissions, q, FirstChoice(style));
    }
  }

  /** A role is granted to, and taken from, exactly one target: with none or two
      the request is refused to everyone. */
  lemma OneTarget(s: Setting, who: Requester, role: JsString, user: Option<JsString>, inst: Option<JsString>,
                  duration: Milliseconds)
    requires Given(user) == Given(inst)
    ensures !Authorize(s, who, Manage(RoleGrantQuery(role, user, inst, duration))).Allowed?
    ensures !Authorize(s, who, Manage(RoleRevokeQuery(role, user, inst))).Allowed?
  {
    var c, markers := s.CaseOf(User, who.userId), MarkersOf(s.st, s.ctx.recordName, [ACCOUNT_MARKER]);
    AnyNeedsMatch(c, OwnerOnly, markers, RoleGrantQuery(role, user, inst, duration), MissingRole);
    AnyNeedsMatch(c, OwnerOnly, markers, RoleRevokeQuery(role, user, inst), MissingRole);
    AllowedExact(s, who, Manage(RoleGrantQuery(role, user, inst, duration)));
    AllowedExact(s, who, Manage(RoleRevokeQuery(role, user, inst)));
  }
}
