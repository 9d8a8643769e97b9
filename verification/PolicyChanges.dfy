/** What granting and revoking permissions and roles does to the store, and the
    timing of roles over every run. */
module PolicyChanges {
  import opened JsStrings
  import opened Sequences
  import opened Permissions
  import opened PolicyStore

  function Differs(p: Permission): Permission -> bool { (x: Permission) => x != p }

  /** `grantMarkerPermission`, once authorized: appended unless already there. */
  function AddPermission(st: Store, record: JsString, marker: JsString, p: Permission): Store {
    var entry := if (record, marker) in st.policies then st.policies[(record, marker)] else PolicyEntry([], [ACCOUNT_MARKER]);
    if p in entry.document then st
    else st.UpdatePolicy(record, marker, entry.(document := entry.document + [p]))
  }

  /** `revokeMarkerPermission`, once authorized: every equal permission goes. */
  function RemovePermission(st: Store, record: JsString, marker: JsString, p: Permission): Store {
    if (record, marker) !in st.policies then st
    else
      var entry := st.policies[(record, marker)];
      if p in entry.document then st.UpdatePolicy(record, marker, entry.(document := Filter(entry.document, Differs(p))))
      else st
  }

  /** Kept by `makeNewRoles`: other roles, and the same role ending no later. */
  function KeptBeside(role: JsString, expire: Milliseconds): AssignedRole -> bool {
    (a: AssignedRole) => a.role != role || NoLater(a.expireTimeMs, expire)
  }

  function OtherRole(role: JsString): AssignedRole -> bool { (a: AssignedRole) => a.role != role }

  function GrantRole(st: Store, record: JsString, id: JsString, role: JsString, expire: Milliseconds, now: int): Store {
    st.UpdateRoles(record, id,
      Filter(st.ListRoles(record, id, now), KeptBeside(role, expire)) + [AssignedRole(role, expire)], now)
  }

  function RevokeRole(st: Store, record: JsString, id: JsString, role: JsString, now: int): Store {
    st.UpdateRoles(record, id, Filter(st.ListRoles(record, id, now), OtherRole(role)), now)
  }

  predicate Holds(st: Store, record: JsString, id: JsString, role: JsString, t: int) {
    role in st.RoleNames(record, id, t)
  }

  /** Some listed assignment of the role is unexpired at t. */
  predicate Live(assignments: seq<AssignedRole>, role: JsString, t: int) {
    exists a | a in assignments :: a.role == role && Unexpired(a.expireTimeMs, t)
  }

  lemma HoldsMeaning(st: Store, record: JsString, id: JsString, role: JsString, t: int)
    ensures Holds(st, record, id, role, t)
        <==> role in st.StaticRoles(record, id) || Live(st.Assignments(record, id), role, t)
  {
    var names, held := st.StaticRoles(record, id), st.Assignments(record, id);
    if role in names {
      var i :| 0 <= i < |names| && names[i] == role;
      assert Permanent(names)[i] in st.ListRoles(record, id, t);
    }
    forall a | a in held ensures a in Filter(held, IsLive(t)) <==> Unexpired(a.expireTimeMs, t) {
      FilterMember(held, IsLive(t), a);
    }
    if Holds(st, record, id, role, t) {
      var a :| a in st.ListRoles(record, id, t) && a.role == role;
      FilterMember(held, IsLive(t), a);
    }
  }

  lemma ListedLive(st: Store, record: JsString, id: JsString, a: AssignedRole, now: int)
    ensures a in st.ListRoles(record, id, now)
        <==> ((a.role in st.StaticRoles(record, id) && a.expireTimeMs.None?)
              || (a in st.Assignments(record, id) && Unexpired(a.expireTimeMs, now)))
  {
    var names := st.StaticRoles(record, id);
    FilterMember(st.Assignments(record, id), IsLive(now), a);
    if a.role in names && a.expireTimeMs.None? {
      var i :| 0 <= i < |names| && names[i] == a.role;
      assert Permanent(names)[i] == a;
    }
  }

  /** Which assignments a grant leaves. */
  lemma GrantedAssignments(st: Store, record: JsString, id: JsString, role: JsString, expire: Milliseconds, now: int,
                           a: AssignedRole)
    ensures a in GrantRole(st, record, id, role, expire, now).Assignments(record, id)
        <==> (Unexpired(a.expireTimeMs, now)
              && (a == AssignedRole(role, expire)
                  || (a in st.ListRoles(record, id, now) && (a.role != role || NoLater(a.expireTimeMs, expire)))))
  {
    var kept := Filter(st.ListRoles(record, id, now), KeptBeside(role, expire));
    FilterMember(kept + [AssignedRole(role, expire)], IsLive(now), a);
    FilterMember(st.ListRoles(record, id, now), KeptBeside(role, expire), a);
  }

  lemma RevokedAssignments(st: Store, record: JsString, id: JsString, role: JsString, now: int, a: AssignedRole)
    ensures a in RevokeRole(st, record, id, role, now).Assignments(record, id)
        <==> Unexpired(a.expireTimeMs, now) && a in st.ListRoles(record, id, now) && a.role != role
  {
    var kept := Filter(st.ListRoles(record, id, now), OtherRole(role));
    FilterMember(kept, IsLive(now), a);
    FilterMember(st.ListRoles(record, id, now), OtherRole(role), a);
  }

  lemma LiveBy(assignments: seq<AssignedRole>, a: AssignedRole, t: int)
    requires a in assignments && Unexpired(a.expireTimeMs, t)
    ensures Live(assignments, a.role, t)
  {}

  /** After a grant until `expire`, the role is held at exactly the later times
      before `expire` (always, if it is also held permanently), whatever
      assignments of it came before. */
  lemma GrantTiming(st: Store, record: JsString, id: JsString, role: JsString, expire: Milliseconds, now: int, t: int)
    requires t >= now
    ensures Holds(GrantRole(st, record, id, role, expire, now), record, id, role, t)
        <==> role in st.StaticRoles(record, id) || Unexpired(expire, t)
  {
    var after := GrantRole(st, record, id, role, expire, now);
    HoldsMeaning(after, record, id, role, t);
    GrantedAssignments(st, record, id, role, expire, now, AssignedRole(role, expire));
    if Unexpired(expire, t) { LiveBy(after.Assignments(record, id), AssignedRole(role, expire), t); }
    if Live(after.Assignments(record, id), role, t) {
      var a :| a in after.Assignments(record, id) && a.role == role && Unexpired(a.expireTimeMs, t);
      GrantedAssignments(st, record, id, role, expire, now, a);
    }
  }

  /** After a revocation the role is not held, unless permanently. */
  lemma RevokeTiming(st: Store, record: JsString, id: JsString, role: JsString, now: int, t: int)
    requires t >= now
    ensures Holds(RevokeRole(st, record, id, role, now), record, id, role, t) <==> role in st.StaticRoles(record, id)
  {
    var after := RevokeRole(st, record, id, role, now);
    HoldsMeaning(after, record, id, role, t);
    if Live(after.Assignments(record, id), role, t) {
      var a :| a in after.Assignments(record, id) && a.role == role && Unexpired(a.expireTimeMs, t);
      RevokedAssignments(st, record, id, role, now, a);
    }
  }

  datatype RoleOp =
    | Grant(record: JsString, id: JsString, role: JsString, expire: Milliseconds, now: int)
    | Revoke(record: JsString, id: JsString, role: JsString, now: int)
  {
    predicate About(record: JsString, id: JsString, role: JsString) {
      this.record == record && this.id == id && this.role == role
    }
  }

  function Apply(st: Store, op: RoleOp): Store {
    match op
    case Grant(record, id, role, expire, now) => GrantRole(st, record, id, role, expire, now)
    case Revoke(record, id, role, now) => RevokeRole(st, record, id, role, now)
  }

  /** An operation leaves every other role and entity as it was, at all later times. */
  lemma OthersUntouched(st: Store, op: RoleOp, record: JsString, id: JsString, role: JsString, t: int)
    requires t >= op.now && !op.About(record, id, role)
    ensures Holds(Apply(st, op), record, id, role, t) <==> Holds(st, record, id, role, t)
  {
    var after := Apply(st, op);
    HoldsMeaning(st, record, id, role, t);
    HoldsMeaning(after, record, id, role, t);
    var before, later := st.Assignments(record, id), after.Assignments(record, id);
    if op.record == record && op.id == id {
      if Live(before, role, t) {
        var a :| a in before && a.role == role && Unexpired(a.expireTimeMs, t);
        ListedLive(st, record, id, a, op.now);
        ChangedAssignments(st, op, a);
        LiveBy(later, a, t);
      }
      if Live(later, role, t) {
        var a :| a in later && a.role == role && Unexpired(a.expireTimeMs, t);
        ChangedAssignments(st, op, a);
        ListedLive(st, record, id, a, op.now);
        if a in before { LiveBy(before, a, t); }
      }
    } else {
      assert later == before;
    }
  }

  lemma ChangedAssignments(st: Store, op: RoleOp, a: AssignedRole)
    requires a.role != op.role
    ensures a in Apply(st, op).Assignments(op.record, op.id)
        <==> Unexpired(a.expireTimeMs, op.now) && a in st.ListRoles(op.record, op.id, op.now)
  {
    match op
    case Grant(record, id, role, expire, now) => GrantedAssignments(st, record, id, role, expire, now, a);
    case Revoke(record, id, role, now) => RevokedAssignments(st, record, id, role, now, a);
  }

  function Run(st: Store, ops: seq<RoleOp>): Store {
    if ops == [] then st else Apply(Run(st, ops[..|ops| - 1]), ops[|ops| - 1])
  }

  /** What the last operation about this role says at time t. */
  predicate LastSays(st: Store, ops: seq<RoleOp>, record: JsString, id: JsString, role: JsString, t: int) {
    if ops == [] then Holds(st, record, id, role, t)
    else
      var last := ops[|ops| - 1];
      if last.About(record, id, role) then last.Grant? && Unexpired(last.expire, t)
      else LastSays(st, ops[..|ops| - 1], record, id, role, t)
  }

  lemma {:induction false} RunKeepsStatic(st: Store, ops: seq<RoleOp>)
    ensures Run(st, ops).roles == st.roles
  {
    if ops != [] { RunKeepsStatic(st, ops[..|ops| - 1]); }
  }

  /** Over every run: at any time from the operations' times on, a role is held
      exactly when it is permanent or the last operation about it says so. */
  lemma {:induction false} LastChangeDecides(st: Store, ops: seq<RoleOp>, record: JsString, id: JsString, role: JsString, t: int)
    requires forall op | op in ops :: op.now <= t
    ensures Holds(Run(st, ops), record, id, role, t)
        <==> role in st.StaticRoles(record, id) || LastSays(st, ops, record, id, role, t)
  {
    if ops == [] {
      HoldsMeaning(st, record, id, role, t);
    } else {
      var init, last := ops[..|ops| - 1], ops[|ops| - 1];
      LastChangeDecides(st, init, record, id, role, t);
      RunKeepsStatic(st, init);
      if last.About(record, id, role) {
        match last
        case Grant(_, _, _, expire, now) => GrantTiming(Run(st, init), record, id, role, expire, now, t);
        case Revoke(_, _, _, now) => RevokeTiming(Run(st, init), record, id, role, now, t);
      } else {
        OthersUntouched(Run(st, init), last, record, id, role, t);
      }
    }
  }
}
