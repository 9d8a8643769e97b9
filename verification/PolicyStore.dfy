/** MemoryPolicyStore.ts: policy documents by record and marker, and role
    assignments by record and entity. Users and instances share one map of ids. */
module PolicyStore {
  import opened JsStrings
  import opened Options
  import opened Sequences
  import opened Permissions

  datatype PolicyEntry = PolicyEntry(document: PolicyDocument, markers: seq<JsString>)

  /** A role held until `expireTimeMs`; None never expires. */
  datatype AssignedRole = AssignedRole(role: JsString, expireTimeMs: Milliseconds)

  /** `getExpireTime(t) > now` */
  predicate Unexpired(t: Milliseconds, now: int) { t.None? || t.value > now }

  /** `getExpireTime(a) <= getExpireTime(b)` */
  predicate NoLater(a: Milliseconds, b: Milliseconds) { b.None? || (a.Some? && a.value <= b.value) }

  function IsLive(now: int): AssignedRole -> bool { (a: AssignedRole) => Unexpired(a.expireTimeMs, now) }

  datatype Store = Store(policies: map<(JsString, JsString), PolicyEntry>,
                         roles: map<(JsString, JsString), seq<JsString>>,
                         assignments: map<(JsString, JsString), seq<AssignedRole>>)
  {
    /** `listPoliciesForMarker`, flattened: the default documents come first. */
    function PermissionsFor(record: JsString, marker: JsString): PolicyDocument {
      DEFAULT_ANY_RESOURCE_POLICY_DOCUMENT
      + (if marker == PUBLIC_READ_MARKER then DEFAULT_PUBLIC_READ_POLICY_DOCUMENT else [])
      + DocumentOf(record, marker)
    }

    function DocumentOf(record: JsString, marker: JsString): PolicyDocument {
      if (record, marker) in policies then policies[(record, marker)].document else []
    }

    function StaticRoles(record: JsString, id: JsString): seq<JsString> {
      if (record, id) in roles then roles[(record, id)] else []
    }

    function Assignments(record: JsString, id: JsString): seq<AssignedRole> {
      if (record, id) in assignments then assignments[(record, id)] else []
    }

    /** `_getRolesForEntity` */
    function ListRoles(record: JsString, id: JsString, now: int): seq<AssignedRole> {
      Permanent(StaticRoles(record, id)) + Filter(Assignments(record, id), IsLive(now))
    }

    /** The names in that list: what `new Set(roles.map(...))` holds. */
    function RoleNames(record: JsString, id: JsString, now: int): set<JsString> {
      Names(ListRoles(record, id, now))
    }

    /** `updateUserRoles` and `updateInstRoles` */
    function UpdateRoles(record: JsString, id: JsString, newRoles: seq<AssignedRole>, now: int): Store {
      this.(assignments := assignments[(record, id) := Filter(newRoles, IsLive(now))])
    }

    function UpdatePolicy(record: JsString, marker: JsString, entry: PolicyEntry): Store {
      this.(policies := policies[(record, marker) := entry])
    }
  }

  function Permanent(names: seq<JsString>): seq<AssignedRole> {
    seq(|names|, i requires 0 <= i < |names| => AssignedRole(names[i], None))
  }

  function Names(roles: seq<AssignedRole>): set<JsString> {
    set a | a in roles :: a.role
  }

  class MemoryPolicyStore {
    var policies: map<(JsString, JsString), PolicyEntry>
    var roles: map<(JsString, JsString), seq<JsString>>
    var roleAssignments: map<(JsString, JsString), seq<AssignedRole>>

    ghost function State(): Store
      reads this
    {
      Store(policies, roles, roleAssignments)
    }

    constructor ()
      ensures State() == Store(map[], map[], map[])
    {
      policies, roles, roleAssignments := map[], map[], map[];
    }

    method GetUserPolicy(record: JsString, marker: JsString) returns (entry: Option<PolicyEntry>)
      ensures entry == if (record, marker) in policies then Some(policies[(record, marker)]) else None
    {
      entry := if (record, marker) in policies then Some(policies[(record, marker)]) else None;
    }

    method UpdateUserPolicy(record: JsString, marker: JsString, entry: PolicyEntry)
      modifies this
      ensures State() == old(State()).UpdatePolicy(record, marker, entry)
    {
      policies := policies[(record, marker) := entry];
    }

    method ListPoliciesForMarker(record: JsString, marker: JsString) returns (documents: seq<PolicyDocument>)
      ensures Flatten(documents) == State().PermissionsFor(record, marker)
    {
      documents := [DEFAULT_ANY_RESOURCE_POLICY_DOCUMENT];
      if marker == PUBLIC_READ_MARKER {
        documents := documents + [DEFAULT_PUBLIC_READ_POLICY_DOCUMENT];
      }
      if (record, marker) in policies {
        documents := documents + [policies[(record, marker)].document];
      }
      FlattenShort(documents);
    }

    method ListRolesFor(record: JsString, id: JsString, now: int) returns (r: seq<AssignedRole>)
      ensures r == State().ListRoles(record, id, now)
    {
      var names := if (record, id) in roles then roles[(record, id)] else [];
      var held := if (record, id) in roleAssignments then roleAssignments[(record, id)] else [];
      r := Permanent(names) + Filter(held, IsLive(now));
    }

    method UpdateRolesOf(record: JsString, id: JsString, newRoles: seq<AssignedRole>, now: int)
      modifies this
      ensures State() == old(State()).UpdateRoles(record, id, newRoles, now)
    {
      roleAssignments := roleAssignments[(record, id) := Filter(newRoles, IsLive(now))];
    }
  }

  function Flatten(documents: seq<PolicyDocument>): PolicyDocument {
    if documents == [] then [] else documents[0] + Flatten(documents[1..])
  }

  lemma FlattenShort(d: seq<PolicyDocument>)
    ensures |d| == 1 ==> Flatten(d) == d[0]
    ensures |d| == 2 ==> Flatten(d) == d[0] + d[1]
    ensures |d| == 3 ==> Flatten(d) == d[0] + d[1] + d[2]
  {
    if |d| == 2 { assert d[1..] == [d[1]] && [d[1]][1..] == []; }
    if |d| == 3 { assert d[1..] == [d[1], d[2]] && [d[1], d[2]][1..] == [d[2]]; }
  }
}
