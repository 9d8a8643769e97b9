/** The controller of PolicyController.ts: loops over markers, permissions,
    items and instances, with the role caches of one request. Every method is
    proved to compute the function of Authorization or PolicyChanges that
    specifies it; in particular the caches never change an answer. */
module PolicyControllers {
  import opened JsStrings
  import opened Options
  import opened Sequences
  import opened Permissions
  import opened PolicyStore
  import opened Authorization
  import opened PolicyChanges

  /** `RolesContext`: one request's context, caches and list results. */
  class RolesContext {
    const ctx: Context
    const userId: Option<JsString>
    const markers: seq<MarkerPermission>
    var userRoles: Option<set<JsString>>
    var instRoles: map<JsString, set<JsString>>
    var allowedDataItems: Option<seq<Item>>

    constructor (ctx: Context, userId: Option<JsString>, markers: seq<MarkerPermission>)
      ensures this.ctx == ctx && this.userId == userId && this.markers == markers
      ensures userRoles == None && instRoles == map[] && allowedDataItems == None
    {
      this.ctx, this.userId, this.markers := ctx, userId, markers;
      userRoles, instRoles, allowedDataItems := None, map[], None;
    }

    /** What is cached is what the store says. */
    ghost predicate Coherent(s: Setting)
      reads this
    {
      && ctx == s.ctx
      && (userRoles.Some? ==> userRoles.value == s.CaseOf(User, userId).subject.roles)
      && (forall i | i in instRoles :: instRoles[i] == s.CaseOf(Inst, Some(i)).subject.roles)
    }
  }

  class PolicyController {
    const policies: MemoryPolicyStore
    const testRegex: Regex

    constructor (policies: MemoryPolicyStore, testRegex: Regex)
      ensures this.policies == policies && this.testRegex == testRegex
    {
      this.policies, this.testRegex := policies, testRegex;
    }

    ghost function SettingAt(ctx: Context, now: int): Setting
      reads policies
    {
      Setting(testRegex, policies.State(), now, ctx)
    }

    /** The request is this one, and `id` is the subject's: the user's own id for the user. */
    ghost predicate Ready(rc: RolesContext, kind: SubjectKind, id: Option<JsString>, now: int)
      reads policies, rc
    {
      && rc.Coherent(SettingAt(rc.ctx, now))
      && (if kind.User? then id == rc.userId else id.Some?)
    }

    ghost function CaseAt(rc: RolesContext, kind: SubjectKind, id: Option<JsString>, now: int): Case
      reads policies
    {
      SettingAt(rc.ctx, now).CaseOf(kind, id)
    }

    /** `_bySubjectRole`, with the lazily filled caches of `_byUserRole` and `_byInstRole`. */
    method BySubjectRole(rc: RolesContext, kind: SubjectKind, id: Option<JsString>, role: Role, now: int) returns (r: bool)
      requires Ready(rc, kind, id, now)
      modifies rc`userRoles, rc`instRoles
      ensures Ready(rc, kind, id, now)
      ensures r == (Given(id) && role.Named? && role.name in CaseAt(rc, kind, id, now).subject.roles)
    {
      if !Given(id) {
        return false;
      }
      if kind.User? {
        if rc.userRoles.None? {
          var roles := policies.ListRolesFor(rc.ctx.recordName, id.value, now);
          rc.userRoles := Some(Names(roles));
        }
        r := role.Named? && role.name in rc.userRoles.value;
      } else {
        if id.value !in rc.instRoles {
          var roles := policies.ListRolesFor(rc.ctx.recordName, id.value, now);
          rc.instRoles := rc.instRoles[id.value := Names(roles)];
        }
        r := role.Named? && role.name in rc.instRoles[id.value];
      }
    }

    /** The role half of a filter, tried in the source's order. */
    method ByRoleMode(rc: RolesContext, mode: Mode, kind: SubjectKind, id: Option<JsString>, role: Role, now: int)
        returns (r: bool)
      requires Ready(rc, kind, id, now)
      modifies rc`userRoles, rc`instRoles
      ensures Ready(rc, kind, id, now)
      ensures r == Accepts(CaseAt(rc, kind, id, now), mode, role)
    {
      match mode
      case Fixed(chosen) => r := role == chosen;
      case EveryoneOr(chosen) => r := role.Everyone? || role == chosen;
      case FirstChoice(style) =>
        if role.Everyone? {
          return true;
        }
        var isOwner := kind.User? && id == Some(rc.ctx.recordOwnerId);
        if style.KeyOrOwner? {
          if if rc.ctx.recordKey.Some? then role == ADMIN else isOwner {
            return true;
          }
          r := BySubjectRole(rc, kind, id, role, now);
        } else {
          r := BySubjectRole(rc, kind, id, role, now);
          r := r || isOwner;
        }
    }

    /** `_findPermissionByFilter` over `_every(query filter, role filter)` */
    method FindPermissionByFilter(rc: RolesContext, permissions: seq<Permission>, q: Query, mode: Mode,
                                  kind: SubjectKind, id: Option<JsString>, now: int) returns (r: Option<Permission>)
      requires Ready(rc, kind, id, now)
      modifies rc`userRoles, rc`instRoles
      ensures Ready(rc, kind, id, now)
      ensures r == FindPermission(CaseAt(rc, kind, id, now), permissions, q, mode)
    {
      ghost var c := CaseAt(rc, kind, id, now);
      ghost var goal := FindPermission(c, permissions, q, mode);
      for i := 0 to |permissions|
        invariant Ready(rc, kind, id, now) && c == CaseAt(rc, kind, id, now)
        invariant goal == FindPermission(c, permissions[i..], q, mode)
      {
        assert permissions[i..][1..] == permissions[i + 1..];
        if Matches(testRegex, q, permissions[i]) {
          var accepted := ByRoleMode(rc, mode, kind, id, permissions[i].role, now);
          if accepted {
            return Some(permissions[i]);
          }
        }
      }
      return None;
    }

    /** The loop of `_authorizeDataRead`, `_authorizeDataDelete`, `_authorizeFileRead`, ... */
    method AuthorizeAnyMarker(rc: RolesContext, style: Style, q: Query, kind: SubjectKind, id: Option<JsString>, now: int)
      returns (r: GenericResult)
      requires Ready(rc, kind, id, now)
      modifies rc`userRoles, rc`instRoles
      ensures Ready(rc, kind, id, now)
      ensures r == AuthorizeAny(CaseAt(rc, kind, id, now), style, rc.markers, q, MissingRole)
    {
      ghost var c := CaseAt(rc, kind, id, now);
      ghost var goal := AuthorizeAny(c, style, rc.markers, q, MissingRole);
      var denialReason := MissingRole;
      for i := 0 to |rc.markers|
        invariant Ready(rc, kind, id, now) && c == CaseAt(rc, kind, id, now)
        invariant goal == AuthorizeAny(c, style, rc.markers[i..], q, denialReason)
      {
        assert rc.markers[i..][1..] == rc.markers[i + 1..];
        var m := rc.markers[i];
        var actionPermission := FindPermissionByFilter(rc, m.permissions, q, FirstChoice(style), kind, id, now);
        if actionPermission.None? {
          denialReason := MissingPermission(kind, id, m.marker, q, None);
          continue;
        }
        return Granted(actionPermission.value.role,
                       [MarkerAuthorization(m.marker, [ActionAuthorization(q, actionPermission.value)])]);
      }
      return Denied(denialReason);
    }

    /** A marker that grants the action: fixes the role, and looks up the
        `policy.assign` / `policy.unassign` permission its own change needs. */
    method AcceptMarker(rc: RolesContext, m: MarkerPermission, q: Query, change: Change, at: Progress, p: Permission,
                        kind: SubjectKind, id: Option<JsString>, now: int) returns (r: Turn)
      requires Ready(rc, kind, id, now)
      modifies rc`userRoles, rc`instRoles
      ensures Ready(rc, kind, id, now)
      ensures r == Accept(CaseAt(rc, kind, id, now), m, q, change, at, p)
    {
      var hasExisting := at.hasExisting || change.Exists(m.marker);
      var role := if at.role.None? then p.role else at.role.value;
      var actions := [ActionAuthorization(q, p)];
      var need := change.PolicyNeed(m.marker);
      assert actions + [] == actions;
      if need.Some? {
        var policyPermission := FindPermissionByFilter(rc, m.permissions, need.value, EveryoneOr(p.role), kind, id, now);
        if policyPermission.None? {
          return Stop(Denied(MissingPermission(kind, id, m.marker, need.value, Some(role))));
        }
        actions := actions + [ActionAuthorization(need.value, policyPermission.value)];
      }
      r := GoOn(Progress(Some(role), hasExisting, at.denial, at.done + [MarkerAuthorization(m.marker, actions)]));
    }

    /** The loop of `_authorizeCreateData`, `_authorizeFileCreate` and `_authorizeFileUpdate`. */
    method AuthorizeEveryMarker(rc: RolesContext, q: Query, change: Change, kind: SubjectKind, id: Option<JsString>, now: int)
      returns (r: GenericResult)
      requires Ready(rc, kind, id, now)
      modifies rc`userRoles, rc`instRoles
      ensures Ready(rc, kind, id, now)
      ensures r == AuthorizeEvery(CaseAt(rc, kind, id, now), rc.markers, q, change, START)
    {
      ghost var c := CaseAt(rc, kind, id, now);
      ghost var goal := AuthorizeEvery(c, rc.markers, q, change, START);
      var at := START;
      for i := 0 to |rc.markers|
        invariant Ready(rc, kind, id, now) && c == CaseAt(rc, kind, id, now)
        invariant goal == AuthorizeEvery(c, rc.markers[i..], q, change, at)
      {
        assert rc.markers[i..][1..] == rc.markers[i + 1..];
        var m := rc.markers[i];
        var actionPermission := FindPermissionByFilter(rc, m.permissions, q, ModeFor(at.role), kind, id, now);
        if actionPermission.None? {
          return Denied(MissingPermission(kind, id, m.marker, q, at.role));
        }
        var turn := AcceptMarker(rc, m, q, change, at, actionPermission.value, kind, id, now);
        if turn.Stop? {
          return turn.result;
        }
        at := turn.at;
      }
      r := RoleResult(at);
    }

    /** The loop of `_authorizeDataUpdate` and `_authorizeEventUpdate`. */
    method AuthorizeUpdateMarkers(rc: RolesContext, q: Query, change: Change, kind: SubjectKind, id: Option<JsString>, now: int)
      returns (r: GenericResult)
      requires Ready(rc, kind, id, now)
      modifies rc`userRoles, rc`instRoles
      ensures Ready(rc, kind, id, now)
      ensures r == AuthorizeUpdate(CaseAt(rc, kind, id, now), rc.markers, q, change, START)
    {
      ghost var c := CaseAt(rc, kind, id, now);
      ghost var goal := AuthorizeUpdate(c, rc.markers, q, change, START);
      var at := START;
      for i := 0 to |rc.markers|
        invariant Ready(rc, kind, id, now) && c == CaseAt(rc, kind, id, now)
        invariant goal == AuthorizeUpdate(c, rc.markers[i..], q, change, at)
      {
        assert rc.markers[i..][1..] == rc.markers[i + 1..];
        var m := rc.markers[i];
        var actionPermission := FindPermissionByFilter(rc, m.permissions, q, ModeFor(at.role), kind, id, now);
        if actionPermission.None? {
          var denial := MissingPermission(kind, id, m.marker, q, at.role);
          if change.Touches(m.marker) {
            return Denied(denial);
          }
          at := at.(denial := Some(denial));
          continue;
        }
        var turn := AcceptMarker(rc, m, q, change, at, actionPermission.value, kind, id, now);
        if turn.Stop? {
          return turn.result;
        }
        at := turn.at;
      }
      if !at.hasExisting && at.denial.Some? {
        return Denied(at.denial.value);
      }
      r := RoleResult(at);
    }

    /** The inner loop of `_authorizeDataList`. */
    method FindItemPermission(rc: RolesContext, item: Item, role: Option<Role>, kind: SubjectKind, id: Option<JsString>, now: int)
      returns (r: Option<Permission>, at: nat)
      requires Ready(rc, kind, id, now)
      modifies rc`userRoles, rc`instRoles
      ensures Ready(rc, kind, id, now)
      ensures r == ItemPermission(CaseAt(rc, kind, id, now), rc.markers, item, 0, role)
      ensures at == ItemMarker(CaseAt(rc, kind, id, now), rc.markers, item, 0, role)
    {
      ghost var c := CaseAt(rc, kind, id, now);
      ghost var goal := ItemPermission(c, rc.markers, item, 0, role);
      ghost var where := ItemMarker(c, rc.markers, item, 0, role);
      for i := 0 to |item.markers|
        invariant Ready(rc, kind, id, now) && c == CaseAt(rc, kind, id, now)
        invariant goal == ItemPermission(c, rc.markers, item, i, role)
        invariant where == ItemMarker(c, rc.markers, item, i, role)
      {
        at := i;
        r := FindPermissionByFilter(rc, PermissionsOf(rc.markers, item.markers[i]),
                                    DataQuery(DataList, item.address), ModeFor(role), kind, id, now);
        if r.Some? {
          return;
        }
      }
      return None, |item.markers|;
    }

    /** `_authorizeDataList`: leaves the visible items in the context. */
    method AuthorizeDataList(rc: RolesContext, items: seq<Item>, kind: SubjectKind, id: Option<JsString>, now: int)
      returns (r: GenericResult)
      requires Ready(rc, kind, id, now)
      modifies rc
      ensures Ready(rc, kind, id, now)
      ensures r == AuthorizeSubject(CaseAt(rc, kind, id, now), rc.markers, ListData(items))
      ensures rc.allowedDataItems == AllowedItems(CaseAt(rc, kind, id, now), rc.markers, ListData(items))
    {
      ghost var c := CaseAt(rc, kind, id, now);
      ghost var goal := ListItems(c, rc.markers, items, Listing(None, []));
      var authorizations := NoActions(rc.markers);
      ghost var used := ListAuthorizations(c, rc.markers, items, None, authorizations);
      var role: Option<Role> := None;
      rc.allowedDataItems := Some([]);
      for i := 0 to |items|
        invariant Ready(rc, kind, id, now) && c == CaseAt(rc, kind, id, now)
        invariant rc.allowedDataItems.Some?
        invariant goal == ListItems(c, rc.markers, items[i..], Listing(role, rc.allowedDataItems.value))
        invariant used == ListAuthorizations(c, rc.markers, items[i..], role, authorizations)
      {
        assert items[i..][1..] == items[i + 1..];
        var itemPermission, at := FindItemPermission(rc, items[i], role, kind, id, now);
        if itemPermission.Some? {
          authorizations := Recorded(authorizations, items[i].markers[at], DataQuery(DataList, items[i].address),
                                     itemPermission.value);
          if role.None? {
            role := Some(itemPermission.value.role);
          }
          rc.allowedDataItems := Some(rc.allowedDataItems.value + [items[i]]);
        }
      }
      if role.None? || !role.value.Truthy() {
        role := Some(Everyone);
      }
      r := Granted(role.value, authorizations);
    }

    /** The authorize function `_authorizeRequestUsingContext` picks for the action. */
    method AuthorizeOne(rc: RolesContext, req: Request, kind: SubjectKind, id: Option<JsString>, now: int)
        returns (r: GenericResult)
      requires Ready(rc, kind, id, now)
      modifies rc
      ensures Ready(rc, kind, id, now)
      ensures r == AuthorizeSubject(CaseAt(rc, kind, id, now), rc.markers, req)
      ensures rc.allowedDataItems
           == if req.ListData? then AllowedItems(CaseAt(rc, kind, id, now), rc.markers, req) else old(rc.allowedDataItems)
    {
      match req
      case Use(q, _) => r := AuthorizeAnyMarker(rc, KeyOrOwner, q, kind, id, now);
      case Manage(q) => r := AuthorizeAnyMarker(rc, OwnerOnly, q, kind, id, now);
      case Create(q, _) => r := AuthorizeEveryMarker(rc, q, Creating, kind, id, now);
      case Update(q, e, a, d) => r := AuthorizeUpdateMarkers(rc, q, Changing(e, a, d), kind, id, now);
      case UpdateFile(q, e, a, d) =>
        if |OrEmpty(a)| == 0 && |OrEmpty(d)| == 0 {
          return Denied(NoMarkers);
        }
        if !WillMarkersBeRemaining(e, d, a) {
          return Denied(NoMarkersRemaining);
        }
        r := AuthorizeEveryMarker(rc, q, Changing(e, a, d), kind, id, now);
      case ListData(items) => r := AuthorizeDataList(rc, items, kind, id, now);
    }

    /** `_authorizeInstances` with the callback `_authorizeRequest` gives it. */
    method AuthorizeAllInstances(rc: RolesContext, req: Request, instances: seq<JsString>, now: int) returns (r: InstResult)
      requires rc.Coherent(SettingAt(rc.ctx, now))
      requires rc.allowedDataItems.Some? <==> req.ListData?
      modifies rc
      ensures r == AuthorizeInstances(SettingAt(rc.ctx, now), rc.markers, req, instances, old(rc.allowedDataItems), [])
    {
      var authorized: seq<InstAuthorization> := [];
      for i := 0 to |instances|
        invariant rc.Coherent(SettingAt(rc.ctx, now))
        invariant rc.allowedDataItems.Some? <==> req.ListData?
        invariant AuthorizeInstances(SettingAt(rc.ctx, now), rc.markers, req, instances, old(rc.allowedDataItems), [])
               == AuthorizeInstances(SettingAt(rc.ctx, now), rc.markers, req, instances[i..], rc.allowedDataItems, authorized)
      {
        assert instances[i..][1..] == instances[i + 1..];
        if req.SkipsInstancesWithKey() && rc.ctx.recordKey.Some? {
          authorized := authorized + [NotRequired(instances[i])];
          continue;
        }
        var currentItems := rc.allowedDataItems;
        var authorization := AuthorizeOne(rc, req, Inst, Some(instances[i]), now);
        if currentItems.Some? {
          rc.allowedDataItems := Some(IntersectByAddress(currentItems.value, rc.allowedDataItems.value));
        }
        if authorization.Denied? {
          return InstDenied(authorization.reason);
        }
        authorized := authorized + [InstAllowed(instances[i], authorization.role, authorization.markers)];
      }
      return InstsAllowed(authorized, rc.allowedDataItems);
    }

    /** `_listPermissionsForMarkers` */
    method ListPermissionsForMarkers(record: JsString, names: seq<JsString>) returns (r: seq<MarkerPermission>)
      ensures r == MarkersOf(policies.State(), record, names)
    {
      r := [];
      for i := 0 to |names|
        invariant r + MarkersOf(policies.State(), record, names[i..]) == MarkersOf(policies.State(), record, names)
      {
        var documents := policies.ListPoliciesForMarker(record, names[i]);
        var permissions: seq<Permission> := [];
        for j := 0 to |documents|
          invariant permissions + Flatten(documents[j..]) == Flatten(documents)
        {
          assert documents[j..][1..] == documents[j + 1..];
          permissions := permissions + documents[j];
        }
        assert permissions + Flatten([]) == permissions;
        assert names[i..][1..] == names[i + 1..];
        ghost var rest := MarkersOf(policies.State(), record, names[i + 1..]);
        Associative(r, [MarkerPermission(names[i], permissions)], rest);
        r := r + [MarkerPermission(names[i], permissions)];
      }
    }

    /** `authorizeRequestUsingContext` */
    method AuthorizeRequest(ctx: Context, who: Requester, req: Request, now: int) returns (r: AuthorizeResult)
      ensures r == Authorize(SettingAt(ctx, now), who, req)
    {
      if req.Update? && !WillMarkersBeRemaining(req.existing, req.removed, req.added) {
        return NotAuthorized(NoMarkersRemaining);
      }
      if |OrEmpty(who.instances)| > MAX_ALLOWED_INSTANCES {
        return NotAuthorized(TooManyInsts);
      }
      var names := req.Markers();
      if names == [] {
        return NotAuthorized(NoMarkers);
      }
      var markers := ListPermissionsForMarkers(ctx.recordName, names);
      var rc := new RolesContext(ctx, who.userId, markers);
      var user := AuthorizeOne(rc, req, User, who.userId, now);
      if user.Denied? {
        return if !Given(who.userId) && ctx.recordKey.None? then NotLoggedIn else NotAuthorized(user.reason);
      }
      var insts := AuthorizeAllInstances(rc, req, OrEmpty(who.instances), now);
      if insts.InstDenied? {
        return NotAuthorized(insts.reason);
      }
      var keyOwner := if ctx.recordKey.Some? then Some(ctx.recordKey.value.keyCreatorId) else None;
      r := Allowed(keyOwner, if keyOwner.Some? then keyOwner else who.userId,
                   user.role, user.markers, insts.instances, insts.items);
    }

    /** `grantMarkerPermission` */
    method GrantMarkerPermission(ctx: Context, who: Requester, marker: JsString, permission: Permission, now: int)
      returns (r: AuthorizeResult)
      modifies policies
      ensures r == Authorize(old(SettingAt(ctx, now)), who, Manage(PolicyQuery(PolicyGrantPermission, marker)))
      ensures policies.State() == if r.Allowed? then AddPermission(old(policies.State()), ctx.recordName, marker, permission)
                                  else old(policies.State())
    {
      r := AuthorizeRequest(ctx, who, Manage(PolicyQuery(PolicyGrantPermission, marker)), now);
      if !r.Allowed? {
        return;
      }
      var found := policies.GetUserPolicy(ctx.recordName, marker);
      var policy := if found.Some? then found.value else PolicyEntry([], [ACCOUNT_MARKER]);
      if permission !in policy.document {
        policies.UpdateUserPolicy(ctx.recordName, marker, policy.(document := policy.document + [permission]));
      }
    }

    /** `revokeMarkerPermission`: the loop splices every equal permission out. */
    method RevokeMarkerPermission(ctx: Context, who: Requester, marker: JsString, permission: Permission, now: int)
      returns (r: AuthorizeResult)
      modifies policies
      ensures r == Authorize(old(SettingAt(ctx, now)), who, Manage(PolicyQuery(PolicyRevokePermission, marker)))
      ensures policies.State() == if r.Allowed? then RemovePermission(old(policies.State()), ctx.recordName, marker, permission)
                                  else old(policies.State())
    {
      r := AuthorizeRequest(ctx, who, Manage(PolicyQuery(PolicyRevokePermission, marker)), now);
      if !r.Allowed? {
        return;
      }
      var found := policies.GetUserPolicy(ctx.recordName, marker);
      if found.None? {
        return;
      }
      var kept, hasUpdate := RemoveEqual(found.value.document, permission);
      if hasUpdate {
        policies.UpdateUserPolicy(ctx.recordName, marker, found.value.(document := kept));
      }
    }

    method RemoveEqual(document: PolicyDocument, permission: Permission) returns (r: PolicyDocument, hasUpdate: bool)
      ensures r == Filter(document, Differs(permission))
      ensures hasUpdate == (permission in document)
    {
      r := document;
      hasUpdate := false;
      var i := 0;
      while i < |r|
        invariant 0 <= i <= |r|
        invariant r[..i] + Filter(r[i..], Differs(permission)) == Filter(document, Differs(permission))
        invariant hasUpdate || permission in r[i..] <==> permission in document
        decreases |r| - i
      {
        assert r[i..][1..] == r[i + 1..];
        assert r[i..] == [r[i]] + r[i + 1..];
        if r[i] == permission {
          ghost var spliced := RemoveAt(r, i);
          assert spliced[..i] == r[..i] && spliced[i..] == r[i + 1..];
          hasUpdate := true;
          r := RemoveAt(r, i);
        } else {
          assert r[..i + 1] == r[..i] + [r[i]];
          i := i + 1;
        }
      }
    }

    /** `grantRole`. Without exactly one target the authorization refuses. */
    method GrantRoleTo(ctx: Context, who: Requester, role: JsString, targetUserId: Option<JsString>,
                       targetInstance: Option<JsString>,
                       expire: Milliseconds, now: int) returns (r: AuthorizeResult)
      modifies policies
      ensures r == Authorize(old(SettingAt(ctx, now)), who,
                             Manage(RoleGrantQuery(role, targetUserId, targetInstance, Duration(expire, now))))
      ensures policies.State() == if r.Allowed? then OnTarget(old(policies.State()), ctx.recordName, targetUserId, targetInstance,
                                                              Some(expire), role, now)
                                  else old(policies.State())
    {
      r := AuthorizeRequest(ctx, who, Manage(RoleGrantQuery(role, targetUserId, targetInstance, Duration(expire, now))), now);
      if !r.Allowed? {
        return;
      }
      if Given(targetUserId) {
        var roles := policies.ListRolesFor(ctx.recordName, targetUserId.value, now);
        policies.UpdateRolesOf(ctx.recordName, targetUserId.value,
                               Filter(roles, KeptBeside(role, expire)) + [AssignedRole(role, expire)], now);
      } else if Given(targetInstance) {
        var roles := policies.ListRolesFor(ctx.recordName, targetInstance.value, now);
        policies.UpdateRolesOf(ctx.recordName, targetInstance.value,
                               Filter(roles, KeptBeside(role, expire)) + [AssignedRole(role, expire)], now);
      }
    }

    /** `revokeRole` */
    method RevokeRoleFrom(ctx: Context, who: Requester, role: JsString, targetUserId: Option<JsString>,
                          targetInstance: Option<JsString>, now: int) returns (r: AuthorizeResult)
      modifies policies
      ensures r == Authorize(old(SettingAt(ctx, now)), who, Manage(RoleRevokeQuery(role, targetUserId, targetInstance)))
      ensures policies.State() == if r.Allowed? then OnTarget(old(policies.State()), ctx.recordName, targetUserId, targetInstance,
                                                              None, role, now)
                                  else old(policies.State())
    {
      r := AuthorizeRequest(ctx, who, Manage(RoleRevokeQuery(role, targetUserId, targetInstance)), now);
      if !r.Allowed? {
        return;
      }
      if Given(targetUserId) {
        var roles := policies.ListRolesFor(ctx.recordName, targetUserId.value, now);
        policies.UpdateRolesOf(ctx.recordName, targetUserId.value, Filter(roles, OtherRole(role)), now);
      } else if Given(targetInstance) {
        var roles := policies.ListRolesFor(ctx.recordName, targetInstance.value, now);
        policies.UpdateRolesOf(ctx.recordName, targetInstance.value, Filter(roles, OtherRole(role)), now);
      }
    }
  }

  /** `getExpireTime(expire) - now` */
  function Duration(expire: Milliseconds, now: int): Milliseconds {
    if expire.Some? then Some(expire.value - now) else None
  }

  /** A grant until `expire`, or a revocation for None, on whichever target is given. */
  function OnTarget(st: Store, record: JsString, targetUserId: Option<JsString>, targetInstance: Option<JsString>,
                    expire: Option<Milliseconds>, role: JsString, now: int): Store
  {
    if Given(targetUserId) then RoleChange(st, record, targetUserId.value, expire, role, now)
    else if Given(targetInstance) then RoleChange(st, record, targetInstance.value, expire, role, now)
    else st
  }

  function RoleChange(st: Store, record: JsString, id: JsString, expire: Option<Milliseconds>, role: JsString, now: int): Store {
    if expire.Some? then GrantRole(st, record, id, role, expire.value, now) else RevokeRole(st, record, id, role, now)
  }
}
