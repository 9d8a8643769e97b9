/** What recording and erasing data needs, exactly, and everything it changes. */
module DataLaws {
  import opened JsStrings
  import opened Options
  import opened Sequences
  import opened Permissions
  import opened PolicyStore
  import opened Authorization
  import opened AuthorizationLaws
  import opened DataRecords

  /** Someone is logged in, or the key is one that needs nobody. */
  predicate Identified(s: Setting, who: Requester) {
    Given(who.userId) || (s.ctx.recordKey.Some? && s.ctx.recordKey.value.policy.Subjectless?)
  }

  /** Whom the change is made by: nobody, under a key that needs nobody. */
  function ActingAs(s: Setting, who: Requester): Option<JsString> {
    if s.ctx.recordKey.Some? && s.ctx.recordKey.value.policy.Subjectless? then None else who.userId
  }

  /** The stored policy lets everybody, or one of the listed ids. */
  ghost predicate Lets(policy: UserPolicy, subjectId: Option<JsString>) {
    policy.Anyone? || exists id | id in policy.ids :: subjectId == Some(id)
  }

  /** The markers that data carries: those it was given, or publicRead if it has none of its own. */
  function MarkersOn(d: DataRecord): seq<JsString> {
    match d.markers
    case Some(m) => m
    case None => [Text("publicRead")]
  }

  // ----- finding and removing entries -----

  function ElsewhereThan(address: JsString): DataRecords.Entry -> bool { (e: DataRecords.Entry) => e.address != address }

  lemma TailDistinct(b: Bucket)
    requires KeysDistinct(b, EntryAddress()) && b != []
    ensures KeysDistinct(b[1..], EntryAddress())
    ensures forall e | e in b[1..] :: e.address != b[0].address
  {
    forall e | e in b[1..] ensures e.address != b[0].address {
      var i :| 0 <= i < |b[1..]| && b[1..][i] == e;
      assert EntryAddress()(b[0]) != EntryAddress()(b[i + 1]);
    }
  }

  lemma LookupCons(b: Bucket, x: JsString)
    requires b != []
    ensures Lookup(b, x) == if b[0].address == x then Some(b[0].value) else Lookup(b[1..], x)
  {}

  lemma {:induction false} RemovedIsFilter(b: Bucket, address: JsString)
    requires KeysDistinct(b, EntryAddress())
    ensures RemoveFirst(b, At(address)) == Filter(b, ElsewhereThan(address))
  {
    RemoveFirstStep(b, At(address));
    if b != [] {
      TailDistinct(b);
      if b[0].address == address { FilterAll(b[1..], ElsewhereThan(address)); }
      else { RemovedIsFilter(b[1..], address); }
    }
  }

  lemma {:induction false} FilteredLookup(b: Bucket, address: JsString, x: JsString)
    ensures Lookup(Filter(b, ElsewhereThan(address)), x) == if x == address then None else Lookup(b, x)
  {
    if b != [] {
      FilteredLookup(b[1..], address, x);
      LookupCons(b, x);
      var rest := Filter(b[1..], ElsewhereThan(address));
      if b[0].address != address {
        LookupCons([b[0]] + rest, x);
        assert ([b[0]] + rest)[1..] == rest;
      }
    }
  }

  lemma {:induction false} PutLookup(b: Bucket, address: JsString, value: DataRecord, x: JsString)
    ensures Lookup(Put(b, address, value), x) == if x == address then Some(value) else Lookup(b, x)
  {
    var i := FindIndex(b, At(address));
    if b == [] {
      LookupCons([DataRecords.Entry(address, value)], x);
    } else {
      LookupCons(b, x);
      LookupCons(Put(b, address, value), x);
      if b[0].address == address {
        assert Put(b, address, value)[1..] == b[1..];
      } else {
        PutLookup(b[1..], address, value, x);
        assert Put(b, address, value)[1..] == Put(b[1..], address, value);
      }
    }
  }

  /** The instances whose own permissions count: none when a key was given. */
  function CheckedInstances(s: Setting, who: Requester): seq<JsString> {
    if s.ctx.recordKey.Some? then [] else OrEmpty(who.instances)
  }

  // ----- erasing -----

  /** Some marker of the data grants its deletion. */
  predicate MayDelete(c: Case, st: Store, record: JsString, markers: seq<JsString>, address: JsString) {
    exists m | m in markers :: Has(c, st.PermissionsFor(record, m), DataQuery(DataDelete, address), FirstChoice(KeyOrOwner))
  }

  lemma DeleteGranted(s: Setting, kind: SubjectKind, id: Option<JsString>, markers: seq<JsString>, address: JsString)
    ensures SubjectGranted(s, kind, id, Use(DataQuery(DataDelete, address), markers))
        <==> MayDelete(s.CaseOf(kind, id), s.st, s.ctx.recordName, markers, address)
  {
    var c, st, record, q := s.CaseOf(kind, id), s.st, s.ctx.recordName, DataQuery(DataDelete, address);
    var ms := MarkersOf(st, record, markers);
    AnyExact(c, KeyOrOwner, ms, q, MissingRole);
    if m :| m in markers && Has(c, st.PermissionsFor(record, m), q, FirstChoice(KeyOrOwner)) {
      MarkersOfMembers(st, record, markers, MarkerPermission(m, st.PermissionsFor(record, m)));
    }
    if mp :| mp in ms && Has(c, mp.permissions, q, FirstChoice(KeyOrOwner)) {
      MarkersOfMembers(st, record, markers, mp);
    }
  }

  /** The user and every checked instance, of at most two, may delete it. */
  predicate AllMayDelete(s: Setting, who: Requester, markers: seq<JsString>, address: JsString) {
    && |OrEmpty(who.instances)| <= 2
    && MayDelete(s.CaseOf(User, who.userId), s.st, s.ctx.recordName, markers, address)
    && forall inst | inst in CheckedInstances(s, who) ::
         MayDelete(s.CaseOf(Inst, Some(inst)), s.st, s.ctx.recordName, markers, address)
  }

  lemma DeleteAllowed(s: Setting, who: Requester, markers: seq<JsString>, address: JsString)
    ensures Authorize(s, who, Use(DataQuery(DataDelete, address), markers)).Allowed? <==> AllMayDelete(s, who, markers, address)
  {
    var req := Use(DataQuery(DataDelete, address), markers);
    AllowedExact(s, who, req);
    DeleteGranted(s, User, who.userId, markers, address);
    forall inst | inst in CheckedInstances(s, who)
      ensures SubjectGranted(s, Inst, Some(inst), req)
          <==> MayDelete(s.CaseOf(Inst, Some(inst)), s.st, s.ctx.recordName, markers, address)
    {
      DeleteGranted(s, Inst, Some(inst), markers, address);
    }
  }

  lemma KeyOwnerShown(s: Setting, who: Requester, req: Request)
    requires Authorize(s, who, req).Allowed?
    ensures Authorize(s, who, req).recordKeyOwnerId
         == if s.ctx.recordKey.Some? then Some(s.ctx.recordKey.value.keyCreatorId) else None
    ensures Authorize(s, who, req).authorizerId
         == if s.ctx.recordKey.Some? then Some(s.ctx.recordKey.value.keyCreatorId) else who.userId
  {}

  /** Erasing succeeds exactly when somebody is identified, the data is there, the
      user and every checked instance may delete it, and its own policy permits
      whoever is acting - unless that is the maker of the key. */
  lemma EraseExact(s: Setting, who: Requester, b: Bucket, address: JsString)
    ensures EraseDataOutcome(s, who, b, address).0.Success?
        <==> && Identified(s, who) && Lookup(b, address).Some?
             && AllMayDelete(s, who, MarkersOn(Lookup(b, address).value), address)
             && (|| Lets(Lookup(b, address).value.deletePolicy, ActingAs(s, who))
                 || (s.ctx.recordKey.Some? && ActingAs(s, who) == Some(s.ctx.recordKey.value.keyCreatorId)))
  {
    var existing := Lookup(b, address);
    var req := Use(DataQuery(DataDelete, address), ResourceMarkers(existing, None));
    if existing.Some? { DeleteAllowed(s, who, existing.value.Markers(), address); }
    if Authorize(s, who, req).Allowed? { KeyOwnerShown(s, who, req); }
  }

  /** Then exactly the entry at the address is gone, the others in their order; a refusal changes nothing. */
  lemma EraseChanges(s: Setting, who: Requester, b: Bucket, address: JsString, x: JsString)
    requires KeysDistinct(b, EntryAddress())
    ensures var (outcome, after) := EraseDataOutcome(s, who, b, address);
            && after == (if outcome.Success? then Filter(b, ElsewhereThan(address)) else b)
            && Lookup(after, x) == (if outcome.Success? && x == address then None else Lookup(b, x))
  {
    ErasedBucket(s, who, b, address);
    RemovedIsFilter(b, address);
    FilteredLookup(b, address, x);
  }

  lemma ErasedBucket(s: Setting, who: Requester, b: Bucket, address: JsString)
    ensures var (outcome, after) := EraseDataOutcome(s, who, b, address);
            after == if outcome.Success? then RemoveFirst(b, At(address)) else b
  {}

  // ----- creating -----

  /** The search settles at the first marker on a role that is not the empty
      name, under which every marker grants the creation and its own assignment. */
  predicate MayCreate(c: Case, st: Store, record: JsString, address: JsString, m: seq<JsString>) {
    && m != []
    && var first := FindPermission(c, st.PermissionsFor(record, m[0]), DataQuery(DataCreate, address), FirstChoice(KeyOrOwner));
    && first.Some? && first.value.role.Truthy()
    && forall x | x in m :: CreatesUnder(c, st, record, address, x, first.value.role)
  }

  predicate CreatesUnder(c: Case, st: Store, record: JsString, address: JsString, x: JsString, r: Role) {
    && Has(c, st.PermissionsFor(record, x), DataQuery(DataCreate, address), Fixed(r))
    && Has(c, st.PermissionsFor(record, x), PolicyQuery(PolicyAssign, x), EveryoneOr(r))
  }

  lemma CreateGranted(s: Setting, kind: SubjectKind, id: Option<JsString>, address: JsString, m: seq<JsString>)
    ensures SubjectGranted(s, kind, id, Create(DataQuery(DataCreate, address), m))
        <==> MayCreate(s.CaseOf(kind, id), s.st, s.ctx.recordName, address, m)
  {
    var c, st, record, q := s.CaseOf(kind, id), s.st, s.ctx.recordName, DataQuery(DataCreate, address);
    var ms := MarkersOf(st, record, m);
    CreateExact(c, ms, q, Creating);
    if m != [] {
      var first := FindPermission(c, st.PermissionsFor(record, m[0]), q, FirstChoice(KeyOrOwner));
      if first.Some? { AllCreate(c, st, record, address, m, first.value.role); }
    }
  }

  lemma AllCreate(c: Case, st: Store, record: JsString, address: JsString, m: seq<JsString>, r: Role)
    ensures AllAllow(c, MarkersOf(st, record, m), DataQuery(DataCreate, address), Creating, r)
        <==> forall x | x in m :: CreatesUnder(c, st, record, address, x, r)
  {
    var ms, q := MarkersOf(st, record, m), DataQuery(DataCreate, address);
    forall x | x in m
      ensures MarkerPermission(x, st.PermissionsFor(record, x)) in ms
      ensures MarkerAllows(c, MarkerPermission(x, st.PermissionsFor(record, x)), q, Creating, r)
          <==> CreatesUnder(c, st, record, address, x, r)
    {
      MarkersOfMembers(st, record, m, MarkerPermission(x, st.PermissionsFor(record, x)));
    }
    forall mp | mp in ms ensures mp.marker in m && mp.permissions == st.PermissionsFor(record, mp.marker) {
      MarkersOfMembers(st, record, m, mp);
    }
  }

  ghost predicate AllMayCreate(s: Setting, who: Requester, address: JsString, m: seq<JsString>) {
    && |OrEmpty(who.instances)| <= 2
    && MayCreate(s.CaseOf(User, who.userId), s.st, s.ctx.recordName, address, m)
    && forall inst | inst in CheckedInstances(s, who) ::
         MayCreate(s.CaseOf(Inst, Some(inst)), s.st, s.ctx.recordName, address, m)
  }

  lemma CreationAllowed(s: Setting, who: Requester, address: JsString, m: seq<JsString>)
    ensures Authorize(s, who, Create(DataQuery(DataCreate, address), m)).Allowed?
        <==> AllMayCreate(s, who, address, m)
  {
    var req := Create(DataQuery(DataCreate, address), m);
    AllowedExact(s, who, req);
    CreateGranted(s, User, who.userId, address, m);
    forall inst | inst in CheckedInstances(s, who)
      ensures SubjectGranted(s, Inst, Some(inst), req)
          <==> MayCreate(s.CaseOf(Inst, Some(inst)), s.st, s.ctx.recordName, address, m)
    {
      CreateGranted(s, Inst, Some(inst), address, m);
    }
  }

  // ----- overwriting -----

  /** An overwrite is out of the question exactly when it would leave no marker. */
  lemma RemainingExact(e: seq<JsString>, m: seq<JsString>)
    ensures WillMarkersBeRemaining(e, Some(Without(e, m)), Some(Without(m, e))) <==> m != []
  {
    if m == [] {
      FilterAll(e, NotIn(m));
    } else {
      FilterMember(m, NotIn(e), m[0]);
      FilterMember(e, NotIn(m), m[0]);
    }
  }

  /** The search settles on a role that is not the empty name and that may exchange the markers. */
  ghost predicate SettlesToOverwrite(c: Case, st: Store, record: JsString, address: JsString, e: seq<JsString>,
                                     m: seq<JsString>) {
    var role := ChosenRole(c, MarkersOf(st, record, Overwrite(address, e, m).Markers()), DataQuery(DataUpdate, address));
    role.Some? && role.value.Truthy() && MayOverwrite(c, st, record, address, e, m, role.value)
  }

  ghost predicate AllMayOverwrite(s: Setting, who: Requester, address: JsString, e: seq<JsString>, m: seq<JsString>) {
    && m != [] && |OrEmpty(who.instances)| <= 2
    && SettlesToOverwrite(s.CaseOf(User, who.userId), s.st, s.ctx.recordName, address, e, m)
    && forall inst | inst in CheckedInstances(s, who) ::
         SettlesToOverwrite(s.CaseOf(Inst, Some(inst)), s.st, s.ctx.recordName, address, e, m)
  }

  lemma OverwriteAllowed(s: Setting, who: Requester, address: JsString, e: seq<JsString>, m: seq<JsString>)
    requires e != []
    ensures Authorize(s, who, Overwrite(address, e, m)).Allowed?
        <==> AllMayOverwrite(s, who, address, e, m)
  {
    var req := Overwrite(address, e, m);
    AllowedExact(s, who, req);
    RemainingExact(e, m);
    OverwriteMarkers(address, e, m, e[0]);
    OverwriteExact(s.CaseOf(User, who.userId), s.st, s.ctx.recordName, address, e, m);
    forall inst | inst in CheckedInstances(s, who)
      ensures SubjectGranted(s, Inst, Some(inst), req)
          <==> SettlesToOverwrite(s.CaseOf(Inst, Some(inst)), s.st, s.ctx.recordName, address, e, m)
    {
      OverwriteExact(s.CaseOf(Inst, Some(inst)), s.st, s.ctx.recordName, address, e, m);
    }
  }

  // ----- recording -----

  /** A key that needs nobody comes with no policies of its own. */
  predicate PoliciesFit(s: Setting, r: Recording) {
    s.ctx.recordKey.Some? && s.ctx.recordKey.value.policy.Subjectless? ==>
      (r.updatePolicy.None? || r.updatePolicy == Some(Anyone)) && (r.deletePolicy.None? || r.deletePolicy == Some(Anyone))
  }

  lemma RecordAllowed(s: Setting, who: Requester, b: Bucket, r: Recording)
    ensures var existing := Lookup(b, r.address);
            RecordDataOutcome(s, who, b, r).0.Success?
            <==> && Identified(s, who) && PoliciesFit(s, r)
                 && (existing.Some? ==> Lets(existing.value.updatePolicy, ActingAs(s, who)))
                 && Authorize(s, who, RecordRequest(existing, r.address, r.markers)).Allowed?
  {}

  /** Recording succeeds exactly when somebody is identified, a key that needs
      nobody comes with no policies of its own, and the user and every checked
      instance may create the data - or, if there is some, its own policy permits
      whoever is acting, and they may exchange its markers. */
  lemma RecordExact(s: Setting, who: Requester, b: Bucket, r: Recording)
    requires MarkersEverywhere(b)
    ensures RecordDataOutcome(s, who, b, r).0.Success?
        <==> && Identified(s, who) && PoliciesFit(s, r)
             && (match Lookup(b, r.address)
                 case Some(stored) =>
                   && Lets(stored.updatePolicy, ActingAs(s, who))
                   && AllMayOverwrite(s, who, r.address, MarkersOn(stored),
                                      if r.markers.Some? then r.markers.value else MarkersOn(stored))
                 case None =>
                   AllMayCreate(s, who, r.address, if r.markers.Some? then r.markers.value else [PUBLIC_READ_MARKER]))
  {
    var existing := Lookup(b, r.address);
    var m := ResourceMarkers(existing, r.markers);
    RecordAllowed(s, who, b, r);
    if existing.Some? {
      RecordingOverwrites(existing.value, r.address, r.markers);
      OverwriteAllowed(s, who, r.address, existing.value.Markers(), m);
    } else {
      CreationAllowed(s, who, r.address, m);
    }
  }

  /** What was recorded is read back, and nothing else changes. */
  lemma RecordChanges(s: Setting, who: Requester, b: Bucket, r: Recording, x: JsString)
    ensures var (outcome, after) := RecordDataOutcome(s, who, b, r);
            && (!outcome.Success? ==> after == b)
            && (outcome.Success? && x != r.address ==> Lookup(after, x) == Lookup(b, x))
            && (outcome.Success? && x == r.address ==>
                && Lookup(after, x).Some?
                && var stored := Lookup(after, x).value;
                && stored.data == r.data && stored.subjectId == ActingAs(s, who)
                && stored.publisherId == (if s.ctx.recordKey.Some? then Some(s.ctx.recordKey.value.keyCreatorId) else who.userId)
                && stored.updatePolicy == (if r.updatePolicy.Some? then r.updatePolicy.value else Anyone)
                && stored.deletePolicy == (if r.deletePolicy.Some? then r.deletePolicy.value else Anyone)
                && MarkersOn(stored) == (if r.markers.Some? then r.markers.value
                                        else if Lookup(b, x).Some? then MarkersOn(Lookup(b, x).value) else [PUBLIC_READ_MARKER]))
  {
    var (outcome, after) := RecordDataOutcome(s, who, b, r);
    if outcome.Success? {
      var existing := Lookup(b, r.address);
      var req := RecordRequest(existing, r.address, r.markers);
      KeyOwnerShown(s, who, req);
      PutLookup(b, r.address, Stored(s, who, existing, r), x);
      assert after == Put(b, r.address, Stored(s, who, existing, r));
    }
  }

  /** New data goes to the end of the listing order; overwritten data keeps its place. */
  lemma RecordOrder(b: Bucket, address: JsString, value: DataRecord, i: nat)
    requires i < |Put(b, address, value)|
    ensures |Put(b, address, value)| == |b| + if Lookup(b, address).None? then 1 else 0
    ensures Put(b, address, value)[i].address == if i < |b| then b[i].address else address
  {}

  function Stored(s: Setting, who: Requester, existing: Option<DataRecord>, r: Recording): DataRecord {
    DataRecord(r.data, if s.ctx.recordKey.Some? then Some(s.ctx.recordKey.value.keyCreatorId) else who.userId,
               ActingAs(s, who), OrAnyone(r.updatePolicy), OrAnyone(r.deletePolicy), Some(ResourceMarkers(existing, r.markers)))
  }

  // ----- listing -----

  /** a comes before b: the first difference decides, and a prefix comes first. */
  predicate Before(a: JsString, b: JsString) {
    exists k | 0 <= k <= |a| && k < |b| :: a[..k] == b[..k] && (k == |a| || a[k] < b[k])
  }

  lemma {:induction false} BeforeExact(a: JsString, b: JsString)
    ensures Before(a, b) <==> LexLe(a, b) && a != b
  {
    if a == [] {
      if b != [] { assert a[..0] == b[..0]; }
    } else if b != [] {
      if a[0] < b[0] {
        assert a[..0] == b[..0];
      } else if a[0] > b[0] {
        forall k | 0 <= k <= |a| && k < |b| ensures !(a[..k] == b[..k] && (k == |a| || a[k] < b[k])) {
          if k > 0 { assert a[..k][0] != b[..k][0]; }
        }
      } else {
        BeforeExact(a[1..], b[1..]);
        BeforeCons(a, b);
        assert a == b <==> a[1..] == b[1..] by {
          assert a == [a[0]] + a[1..] && b == [b[0]] + b[1..];
        }
      }
    }
  }

  lemma BeforeCons(a: JsString, b: JsString)
    requires a != [] && b != [] && a[0] == b[0]
    ensures Before(a, b) <==> Before(a[1..], b[1..])
  {
    var x, y := a[1..], b[1..];
    if Before(a, b) {
      var k :| 0 <= k <= |a| && k < |b| && a[..k] == b[..k] && (k == |a| || a[k] < b[k]);
      assert k > 0;
      assert x[..k - 1] == a[..k][1..] && y[..k - 1] == b[..k][1..];
    }
    if Before(x, y) {
      var k :| 0 <= k <= |x| && k < |y| && x[..k] == y[..k] && (k == |x| || x[k] < y[k]);
      assert a[..k + 1] == [a[0]] + x[..k] && b[..k + 1] == [b[0]] + y[..k];
    }
  }

  /** A listing is of exactly the stored items whose address comes after the given one. */
  lemma {:induction false} CursorExact(b: Bucket, address: Option<JsString>, i: Item)
    ensures i in ItemsAfter(b, address)
        <==> exists e | e in b :: i == Item(e.address, MarkersOn(e.value))
                                  && (address.None? || address == Some([]) || Before(address.value, e.address))
  {
    if b != [] {
      CursorExact(b[1..], address, i);
      if address.Some? { BeforeExact(address.value, b[0].address); }
      assert forall e | e in b :: e == b[0] || e in b[1..];
    }
  }
}
