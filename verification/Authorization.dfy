/** What PolicyController.ts decides, as functions of the stored policies and
    roles. The class in PolicyController.dfy computes exactly these. */
module Authorization {
  import opened JsStrings
  import opened Options
  import opened Permissions
  import opened PolicyStore

  const MAX_ALLOWED_INSTANCES := 2

  datatype KeyPolicy = Subjectfull | Subjectless

  /** What a valid record key says. */
  datatype KeyGrant = KeyGrant(policy: KeyPolicy, keyCreatorId: JsString)

  /** `recordKey` is None when the request named the record without a key. */
  datatype Context = Context(recordName: JsString, recordOwnerId: JsString, recordKey: Option<KeyGrant>)

  datatype SubjectKind = User | Inst

  /** Who is being authorized, with the roles the store lists for it now. */
  datatype Subject = Subject(kind: SubjectKind, id: Option<JsString>, roles: set<JsString>)

  /** The fixed part of one subject's authorization. */
  datatype Case = Case(re: Regex, ctx: Context, subject: Subject)

  /** Which third of the role filter a request uses besides "everyone" and the subject's own roles. */
  datatype Style = KeyOrOwner | OwnerOnly

  predicate Owns(c: Case) {
    c.subject.kind.User? && c.subject.id == Some(c.ctx.recordOwnerId)
  }

  /** The role filter while no role is chosen yet. An owner may use any role's permission. */
  predicate Eligible(c: Case, style: Style, role: Role) {
    || role.Everyone?
    || (Given(c.subject.id) && role.Named? && role.name in c.subject.roles)
    || (if style.KeyOrOwner? && c.ctx.recordKey.Some? then role == ADMIN else Owns(c))
  }

  datatype Mode = FirstChoice(style: Style) | Fixed(role: Role) | EveryoneOr(role: Role)

  predicate Accepts(c: Case, mode: Mode, role: Role) {
    match mode
    case FirstChoice(style) => Eligible(c, style, role)
    case Fixed(r) => role == r
    case EveryoneOr(r) => role.Everyone? || role == r
  }

  predicate Grants(c: Case, q: Query, mode: Mode, p: Permission) {
    Matches(c.re, q, p) && Accepts(c, mode, p.role)
  }

  /** `_findPermissionByFilter`: the first permission of the list that grants the query. */
  function FindPermission(c: Case, permissions: seq<Permission>, q: Query, mode: Mode): Option<Permission> {
    if permissions == [] then None
    else if Grants(c, q, mode, permissions[0]) then Some(permissions[0])
    else FindPermission(c, permissions[1..], q, mode)
  }

  datatype MarkerPermission = MarkerPermission(marker: JsString, permissions: seq<Permission>)
  datatype ActionAuthorization = ActionAuthorization(query: Query, grantingPermission: Permission)
  datatype MarkerAuthorization = MarkerAuthorization(marker: JsString, actions: seq<ActionAuthorization>)

  datatype DenialReason =
    | MissingPermission(kind: SubjectKind, id: Option<JsString>, marker: JsString, query: Query, role: Option<Role>)
    | MissingRole
    | NoMarkers
    | NoMarkersRemaining
    | TooManyInsts

  datatype GenericResult = Granted(role: Role, markers: seq<MarkerAuthorization>) | Denied(reason: DenialReason)

  function Missing(c: Case, marker: JsString, q: Query, role: Option<Role>): DenialReason {
    MissingPermission(c.subject.kind, c.subject.id, marker, q, role)
  }

  /** Read-like actions: one marker that grants the action is enough. */
  function AuthorizeAny(c: Case, style: Style, markers: seq<MarkerPermission>, q: Query, denial: DenialReason): GenericResult {
    if markers == [] then Denied(denial)
    else
      match FindPermission(c, markers[0].permissions, q, FirstChoice(style))
      case Some(p) => Granted(p.role, [MarkerAuthorization(markers[0].marker, [ActionAuthorization(q, p)])])
      case None => AuthorizeAny(c, style, markers[1..], q, Missing(c, markers[0].marker, q, None))
  }

  /** How an action changes the resource's markers. */
  datatype Change = Creating | Changing(existing: seq<JsString>, added: Option<seq<JsString>>, removed: Option<seq<JsString>>) {
    predicate Adds(marker: JsString) { Creating? || (added.Some? && marker in added.value) }
    predicate Removes(marker: JsString) { Changing? && removed.Some? && marker in removed.value }
    predicate Exists(marker: JsString) { Changing? && marker in existing }
    predicate Touches(marker: JsString) { Adds(marker) || Removes(marker) }

    /** The policy permission that putting the marker on or taking it off needs. */
    function PolicyNeed(marker: JsString): Option<Query> {
      if Adds(marker) then Some(PolicyQuery(PolicyAssign, marker))
      else if Removes(marker) then Some(PolicyQuery(PolicyUnassign, marker))
      else None
    }
  }

  function ModeFor(role: Option<Role>): Mode {
    if role.None? then FirstChoice(KeyOrOwner) else Fixed(role.value)
  }

  /** The role in force after a match: the first match's role stays. */
  function Chosen(role: Option<Role>, p: Permission): Role {
    if role.None? then p.role else role.value
  }

  /** Progress over the markers of a request that needs more than one: the role
      in force, whether an existing marker granted the action, the last tolerated
      refusal, and the authorizations so far. */
  datatype Progress = Progress(role: Option<Role>, hasExisting: bool, denial: Option<DenialReason>,
                               done: seq<MarkerAuthorization>)

  const START := Progress(None, false, None, [])

  /** One marker either ends the loop or lets it go on. */
  datatype Turn = Stop(result: GenericResult) | GoOn(at: Progress)

  function RoleResult(at: Progress): GenericResult {
    if at.role.Some? && at.role.value.Truthy() then Granted(at.role.value, at.done) else Denied(MissingRole)
  }

  /** A marker that grants the action with permission p. */
  function Accept(c: Case, m: MarkerPermission, q: Query, change: Change, at: Progress, p: Permission): Turn {
    var role := Some(Chosen(at.role, p));
    var check := AuthorizeChange(c, m, change, p.role);
    if check.Lacking? then Stop(Denied(Missing(c, m.marker, check.query, role)))
    else GoOn(Progress(role, at.hasExisting || change.Exists(m.marker), at.denial,
                       at.done + [MarkerAuthorization(m.marker, Actions(q, p, check))]))
  }

  /** Create-like actions and file.update: every marker must grant the action under one role. */
  function EveryTurn(c: Case, m: MarkerPermission, q: Query, change: Change, at: Progress): Turn {
    match FindPermission(c, m.permissions, q, ModeFor(at.role))
    case None => Stop(Denied(Missing(c, m.marker, q, at.role)))
    case Some(p) => Accept(c, m, q, change, at, p)
  }

  function AuthorizeEvery(c: Case, markers: seq<MarkerPermission>, q: Query, change: Change, at: Progress): GenericResult {
    if markers == [] then RoleResult(at)
    else
      match EveryTurn(c, markers[0], q, change, at)
      case Stop(r) => r
      case GoOn(next) => AuthorizeEvery(c, markers[1..], q, change, next)
  }

  /** Updates: every added or removed marker must grant the action, and one existing marker. */
  function UpdateTurn(c: Case, m: MarkerPermission, q: Query, change: Change, at: Progress): Turn {
    match FindPermission(c, m.permissions, q, ModeFor(at.role))
    case None =>
      var denial := Missing(c, m.marker, q, at.role);
      if change.Touches(m.marker) then Stop(Denied(denial)) else GoOn(at.(denial := Some(denial)))
    case Some(p) => Accept(c, m, q, change, at, p)
  }

  function AuthorizeUpdate(c: Case, markers: seq<MarkerPermission>, q: Query, change: Change, at: Progress): GenericResult {
    if markers == [] then
      if !at.hasExisting && at.denial.Some? then Denied(at.denial.value) else RoleResult(at)
    else
      match UpdateTurn(c, markers[0], q, change, at)
      case Stop(r) => r
      case GoOn(next) => AuthorizeUpdate(c, markers[1..], q, change, next)
  }

  datatype ChangeCheck = NotNeeded | Lacking(query: Query) | Covered(authorization: ActionAuthorization)

  /** The `policy.assign` / `policy.unassign` part of one marker. */
  function AuthorizeChange(c: Case, m: MarkerPermission, change: Change, role: Role): ChangeCheck {
    match change.PolicyNeed(m.marker)
    case None => NotNeeded
    case Some(pq) =>
      match FindPermission(c, m.permissions, pq, EveryoneOr(role))
      case None => Lacking(pq)
      case Some(pp) => Covered(ActionAuthorization(pq, pp))
  }

  /** What one marker authorizes: the action, and its own change if it has one. */
  function Actions(q: Query, p: Permission, check: ChangeCheck): seq<ActionAuthorization> {
    [ActionAuthorization(q, p)] + if check.Covered? then [check.authorization] else []
  }

  datatype Item = Item(address: JsString, markers: seq<JsString>)

  /** `markers.get(name)` of the map built from the request's markers. */
  function PermissionsOf(markers: seq<MarkerPermission>, name: JsString): seq<Permission> {
    if markers == [] then []
    else if markers[0].marker == name then markers[0].permissions
    else PermissionsOf(markers[1..], name)
  }

  /** The permission that lets one item be listed: the first marker of the item that has one. */
  function ItemPermission(c: Case, markers: seq<MarkerPermission>, item: Item, from: nat, role: Option<Role>): Option<Permission>
    requires from <= |item.markers|
    decreases |item.markers| - from
  {
    if from == |item.markers| then None
    else
      match FindPermission(c, PermissionsOf(markers, item.markers[from]), DataQuery(DataList, item.address), ModeFor(role))
      case Some(p) => Some(p)
      case None => ItemPermission(c, markers, item, from + 1, role)
  }

  datatype Listing = Listing(role: Option<Role>, items: seq<Item>)

  /** Lists the items the subject may see; the first match fixes the role. */
  function ListItems(c: Case, markers: seq<MarkerPermission>, items: seq<Item>, at: Listing): Listing {
    if items == [] then at
    else
      match ItemPermission(c, markers, items[0], 0, at.role)
      case None => ListItems(c, markers, items[1..], at)
      case Some(p) => ListItems(c, markers, items[1..], Listing(Some(Chosen(at.role, p)), at.items + [items[0]]))
  }

  /** The index of the item's marker at which that permission is found. */
  function ItemMarker(c: Case, markers: seq<MarkerPermission>, item: Item, from: nat, role: Option<Role>): (r: nat)
    requires from <= |item.markers|
    ensures r <= |item.markers| && (ItemPermission(c, markers, item, from, role).Some? ==> r < |item.markers|)
    decreases |item.markers| - from
  {
    if from == |item.markers| then from
    else if FindPermission(c, PermissionsOf(markers, item.markers[from]), DataQuery(DataList, item.address),
                           ModeFor(role)).Some? then from
    else ItemMarker(c, markers, item, from + 1, role)
  }

  predicate Uses(m: MarkerAuthorization, p: Permission) {
    exists a | a in m.actions :: a.grantingPermission == p
  }

  /** Adds a permission to what was used at a marker, unless it is there already. */
  function Recorded(auths: seq<MarkerAuthorization>, name: JsString, q: Query, p: Permission): seq<MarkerAuthorization> {
    if auths == [] then []
    else if auths[0].marker != name then [auths[0]] + Recorded(auths[1..], name, q, p)
    else if Uses(auths[0], p) then auths
    else [auths[0].(actions := auths[0].actions + [ActionAuthorization(q, p)])] + auths[1..]
  }

  function NoActions(markers: seq<MarkerPermission>): seq<MarkerAuthorization> {
    if markers == [] then [] else [MarkerAuthorization(markers[0].marker, [])] + NoActions(markers[1..])
  }

  /** The permissions that the listing used, marker by marker. */
  function ListAuthorizations(c: Case, markers: seq<MarkerPermission>, items: seq<Item>, role: Option<Role>,
                              auths: seq<MarkerAuthorization>): seq<MarkerAuthorization>
  {
    if items == [] then auths
    else
      match ItemPermission(c, markers, items[0], 0, role)
      case None => ListAuthorizations(c, markers, items[1..], role, auths)
      case Some(p) =>
        var name := items[0].markers[ItemMarker(c, markers, items[0], 0, role)];
        ListAuthorizations(c, markers, items[1..], Some(Chosen(role, p)),
                           Recorded(auths, name, DataQuery(DataList, items[0].address), p))
  }

  /** `willMarkersBeRemaining` */
  predicate WillMarkersBeRemaining(existing: seq<JsString>, removed: Option<seq<JsString>>, added: Option<seq<JsString>>) {
    || removed.None?
    || (added.Some? && |added.value| > 0)
    || |existing| != |removed.value|
    || exists m | m in existing :: m !in removed.value
  }

  /** The requests, grouped by the shape of their authorization:
      Use      - data.read, data.delete, file.read, file.delete, event.count, event.increment
      Manage   - the policy.* and role.* actions, always on the account marker
      Create   - data.create, file.create
      Update   - data.update, event.update
      UpdateFile - file.update
      ListData - data.list */
  datatype Request =
    | Use(query: Query, resourceMarkers: seq<JsString>)
    | Manage(query: Query)
    | Create(query: Query, resourceMarkers: seq<JsString>)
    | Update(query: Query, existing: seq<JsString>, added: Option<seq<JsString>>, removed: Option<seq<JsString>>)
    | UpdateFile(query: Query, existing: seq<JsString>, added: Option<seq<JsString>>, removed: Option<seq<JsString>>)
    | ListData(items: seq<Item>)
  {
    function Markers(): seq<JsString> {
      match this
      case Use(_, markers) => markers
      case Manage(_) => [ACCOUNT_MARKER]
      case Create(_, markers) => markers
      case Update(_, e, a, r) => Union(e + OrEmpty(a) + OrEmpty(r))
      case UpdateFile(_, e, a, r) => Union(e + OrEmpty(a) + OrEmpty(r))
      case ListData(items) => Union(AllMarkers(items))
    }

    /** Whether a valid record key makes the instances' own permissions irrelevant. */
    predicate SkipsInstancesWithKey() { !Manage? }
  }

  function OrEmpty<T>(o: Option<seq<T>>): seq<T> {
    if o.Some? then o.value else []
  }

  function AllMarkers(items: seq<Item>): seq<JsString> {
    if items == [] then [] else items[0].markers + AllMarkers(items[1..])
  }

  /** lodash `union` of the concatenated lists: first occurrences, in order. */
  function Union(xs: seq<JsString>): seq<JsString> {
    if xs == [] then []
    else
      var init := Union(xs[..|xs| - 1]);
      var last := xs[|xs| - 1];
      if last in init then init else init + [last]
  }

  /** `_listPermissionsForMarkers` */
  function MarkersOf(st: Store, record: JsString, names: seq<JsString>): seq<MarkerPermission> {
    if names == [] then []
    else [MarkerPermission(names[0], st.PermissionsFor(record, names[0]))] + MarkersOf(st, record, names[1..])
  }

  function AuthorizeSubject(c: Case, markers: seq<MarkerPermission>, req: Request): GenericResult {
    match req
    case Use(q, _) => AuthorizeAny(c, KeyOrOwner, markers, q, MissingRole)
    case Manage(q) => AuthorizeAny(c, OwnerOnly, markers, q, MissingRole)
    case Create(q, _) => AuthorizeEvery(c, markers, q, Creating, START)
    case Update(q, e, a, r) => AuthorizeUpdate(c, markers, q, Changing(e, a, r), START)
    case UpdateFile(q, e, a, r) =>
      if |OrEmpty(a)| == 0 && |OrEmpty(r)| == 0 then Denied(NoMarkers)
      else if !WillMarkersBeRemaining(e, r, a) then Denied(NoMarkersRemaining)
      else AuthorizeEvery(c, markers, q, Changing(e, a, r), START)
    case ListData(items) =>
      var role := ListItems(c, markers, items, Listing(None, [])).role;
      Granted(if role.Some? && role.value.Truthy() then role.value else Everyone,
              ListAuthorizations(c, markers, items, None, NoActions(markers)))
  }

  /** The items one subject may list; None for requests that list nothing. */
  function AllowedItems(c: Case, markers: seq<MarkerPermission>, req: Request): Option<seq<Item>> {
    if req.ListData? then Some(ListItems(c, markers, req.items, Listing(None, [])).items) else None
  }

  function Addresses(items: seq<Item>): set<JsString> {
    set i | i in items :: i.address
  }

  /** lodash `intersectionBy` on addresses: order and duplicates as in `a`, one item an address. */
  function IntersectByAddress(a: seq<Item>, b: seq<Item>): seq<Item> {
    if a == [] then []
    else
      var init := IntersectByAddress(a[..|a| - 1], b);
      var last := a[|a| - 1];
      if last.address in Addresses(b) && last.address !in Addresses(init) then init + [last] else init
  }

  datatype InstAuthorization =
    | NotRequired(inst: JsString)
    | InstAllowed(inst: JsString, role: Role, markers: seq<MarkerAuthorization>)

  datatype InstResult =
    | InstsAllowed(instances: seq<InstAuthorization>, items: Option<seq<Item>>)
    | InstDenied(reason: DenialReason)

  /** Everything about a request except the subjects. */
  datatype Setting = Setting(re: Regex, st: Store, now: int, ctx: Context) {
    function CaseOf(kind: SubjectKind, id: Option<JsString>): Case {
      Case(re, ctx, Subject(kind, id, if id.Some? then st.RoleNames(ctx.recordName, id.value, now) else {}))
    }
  }

  function AuthorizeInstances(s: Setting, markers: seq<MarkerPermission>, req: Request, insts: seq<JsString>,
                              items: Option<seq<Item>>, done: seq<InstAuthorization>): InstResult
  {
    if insts == [] then InstsAllowed(done, items)
    else if req.SkipsInstancesWithKey() && s.ctx.recordKey.Some? then
      AuthorizeInstances(s, markers, req, insts[1..], items, done + [NotRequired(insts[0])])
    else
      var c := s.CaseOf(Inst, Some(insts[0]));
      match AuthorizeSubject(c, markers, req)
      case Denied(reason) => InstDenied(reason)
      case Granted(role, auths) =>
        AuthorizeInstances(s, markers, req, insts[1..], Narrow(items, AllowedItems(c, markers, req)),
                           done + [InstAllowed(insts[0], role, auths)])
  }

  function Narrow(current: Option<seq<Item>>, allowed: Option<seq<Item>>): Option<seq<Item>> {
    if current.Some? && allowed.Some? then Some(IntersectByAddress(current.value, allowed.value)) else current
  }

  datatype AuthorizeResult =
    | Allowed(recordKeyOwnerId: Option<JsString>, authorizerId: Option<JsString>, role: Role,
              markers: seq<MarkerAuthorization>, instances: seq<InstAuthorization>, items: Option<seq<Item>>)
    | NotAuthorized(reason: DenialReason)
    | NotLoggedIn

  datatype Requester = Requester(userId: Option<JsString>, instances: Option<seq<JsString>>)

  /** `_authorizeRequest`, and the check that updates make before it. */
  function Authorize(s: Setting, who: Requester, req: Request): AuthorizeResult {
    if req.Update? && !WillMarkersBeRemaining(req.existing, req.removed, req.added) then NotAuthorized(NoMarkersRemaining)
    else if |OrEmpty(who.instances)| > MAX_ALLOWED_INSTANCES then NotAuthorized(TooManyInsts)
    else if req.Markers() == [] then NotAuthorized(NoMarkers)
    else
      var markers := MarkersOf(s.st, s.ctx.recordName, req.Markers());
      var user := s.CaseOf(User, who.userId);
      match AuthorizeSubject(user, markers, req)
      case Denied(reason) =>
        if !Given(who.userId) && s.ctx.recordKey.None? then NotLoggedIn else NotAuthorized(reason)
      case Granted(role, auths) =>
        match AuthorizeInstances(s, markers, req, OrEmpty(who.instances), AllowedItems(user, markers, req), [])
        case InstDenied(reason) => NotAuthorized(reason)
        case InstsAllowed(instances, items) =>
          var keyOwner := if s.ctx.recordKey.Some? then Some(s.ctx.recordKey.value.keyCreatorId) else None;
          Allowed(keyOwner, if keyOwner.Some? then keyOwner else who.userId, role, auths, instances, items)
  }
}
