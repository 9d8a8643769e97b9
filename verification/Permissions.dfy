/** Permissions, the queries they answer, and the two default documents of PolicyPermissions.ts. */
module Permissions {
  import opened JsStrings
  import opened Options

  /** `true` (everyone) or a role name. */
  datatype Role = Everyone | Named(name: JsString) {
    /** JavaScript truthiness: only the empty name is falsy. */
    predicate Truthy() { Everyone? || name != [] }
  }

  /** `true` or the source of a regular expression. */
  datatype Scope = All | Pattern(regex: JsString)

  datatype DataType = DataCreate | DataRead | DataUpdate | DataDelete | DataList
  datatype FileType = FileCreate | FileRead | FileUpdate | FileDelete
  datatype EventType = EventIncrement | EventCount | EventUpdate
  datatype PolicyType = PolicyGrantPermission | PolicyRevokePermission | PolicyAssign | PolicyUnassign | PolicyList | PolicyRead
  datatype RoleType = RoleRead | RoleList | RoleUpdate
  datatype UserIds = AnyUser | NoUser | Users(ids: seq<JsString>)
  datatype Instances = AnyInstance | NoInstance | InstancePattern(regex: JsString)

  datatype Permission =
    | DataPermission(dataType: DataType, role: Role, addresses: Scope)
    | FilePermission(fileType: FileType, role: Role, maxFileSizeInBytes: Option<int>, allowedMimeTypes: Option<seq<JsString>>)
    | EventPermission(eventType: EventType, role: Role, events: Scope)
    | PolicyPermission(policyType: PolicyType, role: Role, policies: Scope)
    | RoleGrantPermission(role: Role, roles: Scope, userIds: UserIds, instances: Instances, maxDurationMs: Option<int>)
    | RoleRevokePermission(role: Role, roles: Scope, userIds: UserIds, instances: Instances)
    | RolePermission(roleType: RoleType, role: Role, roles: Scope)
    | RecordKeyPermission(role: Role, recordNames: Scope)

  type PolicyDocument = seq<Permission>

  /** A point in time or a span; None is the source's Infinity. */
  type Milliseconds = Option<int>

  /** What a request asks a permission list for: one per `_by*` filter. */
  datatype Query =
    | DataQuery(dataType: DataType, address: JsString)
    | FileQuery(fileType: FileType, sizeInBytes: int, mimeType: JsString)
    | EventQuery(eventType: EventType, eventName: JsString)
    | PolicyQuery(policyType: PolicyType, marker: JsString)
    | PolicyListQuery
    | RoleGrantQuery(role: JsString, targetUserId: Option<JsString>, targetInstance: Option<JsString>, durationMs: Milliseconds)
    | RoleRevokeQuery(role: JsString, targetUserId: Option<JsString>, targetInstance: Option<JsString>)
    | RoleReadQuery(role: JsString)
    | RoleListQuery

  /** `new RegExp(source).test(value)`, false for a malformed source. */
  type Regex = (JsString, JsString) -> bool

  predicate InScope(re: Regex, scope: Scope, value: JsString) {
    scope.All? || re(scope.regex, value)
  }

  predicate Given(s: Option<JsString>) { s.Some? && s.value != [] }

  /** Who a role may be given to or taken from. */
  predicate CoversTarget(re: Regex, userIds: UserIds, instances: Instances,
                         targetUserId: Option<JsString>, targetInstance: Option<JsString>) {
    if Given(targetUserId) && Given(targetInstance) then false
    else if Given(targetUserId) then
      userIds.AnyUser? || (userIds.Users? && targetUserId.value in userIds.ids)
    else if Given(targetInstance) then
      instances.AnyInstance? || (instances.InstancePattern? && re(instances.regex, targetInstance.value))
    else false
  }

  /** The `_by*` filter of a query, applied to one permission. */
  predicate Matches(re: Regex, q: Query, p: Permission) {
    match q
    case DataQuery(t, address) => p.DataPermission? && p.dataType == t && InScope(re, p.addresses, address)
    case FileQuery(t, size, mime) =>
      && p.FilePermission? && p.fileType == t
      && (p.maxFileSizeInBytes.Some? ==> size <= p.maxFileSizeInBytes.value)
      && (p.allowedMimeTypes.Some? ==> mime in p.allowedMimeTypes.value)
    case EventQuery(t, name) => p.EventPermission? && p.eventType == t && InScope(re, p.events, name)
    case PolicyQuery(t, marker) => p.PolicyPermission? && p.policyType == t && InScope(re, p.policies, marker)
    case PolicyListQuery => p.PolicyPermission? && p.policyType == PolicyList && p.policies.All?
    case RoleGrantQuery(role, user, inst, duration) =>
      && p.RoleGrantPermission?
      && (p.maxDurationMs.Some? ==> duration.Some? && duration.value <= p.maxDurationMs.value)
      && CoversTarget(re, p.userIds, p.instances, user, inst)
      && InScope(re, p.roles, role)
    case RoleRevokeQuery(role, user, inst) =>
      && p.RoleRevokePermission?
      && CoversTarget(re, p.userIds, p.instances, user, inst)
      && InScope(re, p.roles, role)
    case RoleReadQuery(role) => p.RolePermission? && p.roleType == RoleRead && InScope(re, p.roles, role)
    case RoleListQuery => p.RolePermission? && p.roleType == RoleList && p.roles.All?
  }

  const ADMIN_ROLE_NAME: JsString := Text("admin")
  const RECORD_OWNER_ROLE_NAME: JsString := Text("recordOwner")
  const PUBLIC_READ_MARKER: JsString := Text("publicRead")
  const ACCOUNT_MARKER: JsString := Text("account")

  const ADMIN: Role := Named(ADMIN_ROLE_NAME)

  const ADMIN_DATA: PolicyDocument := [
    DataPermission(DataCreate, ADMIN, All), DataPermission(DataRead, ADMIN, All),
    DataPermission(DataUpdate, ADMIN, All), DataPermission(DataDelete, ADMIN, All),
    DataPermission(DataList, ADMIN, All)]
  const ADMIN_FILES: PolicyDocument := [
    FilePermission(FileCreate, ADMIN, None, None), FilePermission(FileRead, ADMIN, None, None),
    FilePermission(FileDelete, ADMIN, None, None), FilePermission(FileUpdate, ADMIN, None, None)]
  const ADMIN_EVENTS: PolicyDocument := [
    EventPermission(EventIncrement, ADMIN, All), EventPermission(EventCount, ADMIN, All),
    EventPermission(EventUpdate, ADMIN, All)]
  const ADMIN_POLICIES: PolicyDocument := [
    PolicyPermission(PolicyGrantPermission, ADMIN, All), PolicyPermission(PolicyRevokePermission, ADMIN, All),
    PolicyPermission(PolicyAssign, ADMIN, All), PolicyPermission(PolicyUnassign, ADMIN, All),
    PolicyPermission(PolicyList, ADMIN, All), PolicyPermission(PolicyRead, ADMIN, All)]
  const ADMIN_ROLES: PolicyDocument := [
    RoleGrantPermission(ADMIN, All, AnyUser, AnyInstance, None),
    RoleRevokePermission(ADMIN, All, AnyUser, AnyInstance),
    RolePermission(RoleRead, ADMIN, All), RolePermission(RoleList, ADMIN, All),
    RolePermission(RoleUpdate, ADMIN, All)]
  const OWNER_KEYS: PolicyDocument := [RecordKeyPermission(Named(RECORD_OWNER_ROLE_NAME), All)]

  const DEFAULT_ANY_RESOURCE_POLICY_DOCUMENT: PolicyDocument :=
    ADMIN_DATA + ADMIN_FILES + ADMIN_EVENTS + ADMIN_POLICIES + ADMIN_ROLES + OWNER_KEYS

  const DEFAULT_PUBLIC_READ_POLICY_DOCUMENT: PolicyDocument := [
    DataPermission(DataRead, Everyone, All), DataPermission(DataList, Everyone, All),
    FilePermission(FileRead, Everyone, None, None), EventPermission(EventCount, Everyone, All)]
}
