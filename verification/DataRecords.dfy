/** DataRecordsController.ts over MemoryDataRecordsStore.ts: recording, erasing
    and listing data, and the marker bookkeeping between them and authorization. */
module DataRecords {
  import opened JsStrings
  import opened Options
  import opened Sequences
  import opened Permissions
  import opened PolicyStore
  import opened Authorization
  import opened AuthorizationLaws
  import opened ListingLaws
  import opened PolicyControllers

  /** Whoever may update or delete: `true`, or a list of ids. */
  datatype UserPolicy = Anyone | Only(ids: seq<JsString>) {
    /** `doesSubjectMatchPolicy` */
    predicate Permits(subjectId: Option<JsString>) {
      Anyone? || (subjectId.Some? && subjectId.value in ids)
    }
  }

  datatype DataRecord = DataRecord(data: JsString, publisherId: Option<JsString>, subjectId: Option<JsString>,
                                   updatePolicy: UserPolicy, deletePolicy: UserPolicy, markers: Option<seq<JsString>>)
  {
    function Markers(): seq<JsString> {
      if markers.Some? then markers.value else [PUBLIC_READ_MARKER]
    }
  }

  datatype Entry = Entry(address: JsString, value: DataRecord)

  /** One record's data, in insertion order (a JavaScript Map). */
  type Bucket = seq<Entry>

  function At(address: JsString): Entry -> bool { (e: Entry) => e.address == address }

  function Lookup(b: Bucket, address: JsString): Option<DataRecord> {
    var i := FindIndex(b, At(address));
    if i == -1 then None else Some(b[i].value)
  }

  function Put(b: Bucket, address: JsString, value: DataRecord): Bucket {
    var i := FindIndex(b, At(address));
    if i == -1 then b + [Entry(address, value)] else b[i := Entry(address, value)]
  }

  function EntryAddress(): Entry -> JsString { (e: Entry) => e.address }

  ghost predicate MarkersEverywhere(b: Bucket) {
    forall i | 0 <= i < |b| :: b[i].value.Markers() != []
  }

  // ----- recording -----

  datatype Recording = Recording(address: JsString, data: JsString, updatePolicy: Option<UserPolicy>,
                                 deletePolicy: Option<UserPolicy>, markers: Option<seq<JsString>>)

  datatype Outcome = Success | NotLoggedInToRecord | InvalidRecordKey | PolicyForbids | DataNotFound
                   | Unauthorized(result: AuthorizeResult)

  function NotIn(xs: seq<JsString>): JsString -> bool { (x: JsString) => x !in xs }

  /** lodash `without(xs, ...ys)` */
  function Without(xs: seq<JsString>, ys: seq<JsString>): seq<JsString> { Filter(xs, NotIn(ys)) }

  /** The markers the data will carry. */
  function ResourceMarkers(existing: Option<DataRecord>, markers: Option<seq<JsString>>): seq<JsString> {
    if markers.Some? then markers.value
    else if existing.Some? then existing.value.Markers()
    else [PUBLIC_READ_MARKER]
  }

  /** Overwriting asks for an update that names the marker changes; otherwise for a creation. */
  function RecordRequest(existing: Option<DataRecord>, address: JsString, markers: Option<seq<JsString>>): Request {
    if existing.Some? then
      var e := existing.value.Markers();
      Update(DataQuery(DataUpdate, address), e,
             Some(if markers.Some? then Without(markers.value, e) else []),
             Some(if markers.Some? then Without(e, markers.value) else []))
    else Create(DataQuery(DataCreate, address), ResourceMarkers(existing, markers))
  }

  function SubjectPolicy(ctx: Context): KeyPolicy {
    if ctx.recordKey.Some? then ctx.recordKey.value.policy else Subjectfull
  }

  function OrAnyone(p: Option<UserPolicy>): UserPolicy { if p.Some? then p.value else Anyone }

  /** `recordData` after its context has been constructed. */
  function RecordDataOutcome(s: Setting, who: Requester, b: Bucket, r: Recording): (Outcome, Bucket) {
    var subjectless := SubjectPolicy(s.ctx).Subjectless?;
    var subjectId := if subjectless then None else who.userId;
    var existing := Lookup(b, r.address);
    if !Given(who.userId) && !subjectless then (NotLoggedInToRecord, b)
    else if subjectless && (!OrAnyone(r.updatePolicy).Anyone? || !OrAnyone(r.deletePolicy).Anyone?) then (InvalidRecordKey, b)
    else if existing.Some? && !existing.value.updatePolicy.Permits(subjectId) then (PolicyForbids, b)
    else
      var result := Authorize(s, who, RecordRequest(existing, r.address, r.markers));
      if !result.Allowed? then (Unauthorized(result), b)
      else (Success, Put(b, r.address, DataRecord(r.data, result.authorizerId, subjectId, OrAnyone(r.updatePolicy),
                                                  OrAnyone(r.deletePolicy), Some(ResourceMarkers(existing, r.markers)))))
  }

  /** `eraseData` after its context has been constructed. */
  function EraseDataOutcome(s: Setting, who: Requester, b: Bucket, address: JsString): (Outcome, Bucket) {
    var subjectless := SubjectPolicy(s.ctx).Subjectless?;
    var subjectId := if subjectless then None else who.userId;
    var existing := Lookup(b, address);
    if !Given(who.userId) && !subjectless then (NotLoggedInToRecord, b)
    else
      var result := Authorize(s, who, Use(DataQuery(DataDelete, address), ResourceMarkers(existing, None)));
      if !result.Allowed? then (Unauthorized(result), b)
      else if existing.Some? && subjectId != result.recordKeyOwnerId
          && !existing.value.deletePolicy.Permits(subjectId) then (PolicyForbids, b)
      else if existing.None? then (DataNotFound, b)
      else (Success, RemoveFirst(b, At(address)))
  }

  class DataRecordsController {
    const policies: PolicyController
    var buckets: map<JsString, Bucket>

    constructor (policies: PolicyController)
      ensures this.policies == policies && buckets == map[]
    {
      this.policies, buckets := policies, map[];
    }

    function BucketOf(record: JsString): Bucket
      reads this
    {
      if record in buckets then buckets[record] else []
    }

    method RecordData(ctx: Context, who: Requester, r: Recording, now: int) returns (outcome: Outcome)
      modifies this
      ensures var result := RecordDataOutcome(policies.SettingAt(ctx, now), who, old(BucketOf(ctx.recordName)), r);
              && outcome == result.0
              && BucketOf(ctx.recordName) == result.1
      ensures forall name | name != ctx.recordName :: BucketOf(name) == old(BucketOf(name))
    {
      var policy := SubjectPolicy(ctx);
      var subjectId := who.userId;
      if !Given(subjectId) && policy != Subjectless {
        return NotLoggedInToRecord;
      }
      if policy == Subjectless {
        subjectId := None;
      }
      var updatePolicy, deletePolicy := OrAnyone(r.updatePolicy), OrAnyone(r.deletePolicy);
      if policy == Subjectless {
        if updatePolicy != Anyone {
          return InvalidRecordKey;
        }
        if deletePolicy != Anyone {
          return InvalidRecordKey;
        }
      }
      var existingRecord := Lookup(BucketOf(ctx.recordName), r.address);
      if existingRecord.Some? && !existingRecord.value.updatePolicy.Permits(subjectId) {
        return PolicyForbids;
      }
      var request: Request;
      var resourceMarkers: seq<JsString>;
      if existingRecord.Some? {
        var existingMarkers := existingRecord.value.Markers();
        var addedMarkers := if r.markers.Some? then Without(r.markers.value, existingMarkers) else [];
        var removedMarkers := if r.markers.Some? then Without(existingMarkers, r.markers.value) else [];
        resourceMarkers := if r.markers.Some? then r.markers.value else existingMarkers;
        request := Update(DataQuery(DataUpdate, r.address), existingMarkers, Some(addedMarkers), Some(removedMarkers));
      } else {
        resourceMarkers := if r.markers.Some? then r.markers.value else [PUBLIC_READ_MARKER];
        request := Create(DataQuery(DataCreate, r.address), resourceMarkers);
      }
      var authorization := policies.AuthorizeRequest(ctx, who, request, now);
      if !authorization.Allowed? {
        return Unauthorized(authorization);
      }
      var value := DataRecord(r.data, authorization.authorizerId, subjectId, updatePolicy, deletePolicy, Some(resourceMarkers));
      buckets := buckets[ctx.recordName := Put(BucketOf(ctx.recordName), r.address, value)];
      return Success;
    }

    method EraseData(ctx: Context, who: Requester, address: JsString, now: int) returns (outcome: Outcome)
      modifies this
      ensures var result := EraseDataOutcome(policies.SettingAt(ctx, now), who, old(BucketOf(ctx.recordName)), address);
              && outcome == result.0
              && BucketOf(ctx.recordName) == result.1
      ensures forall name | name != ctx.recordName :: BucketOf(name) == old(BucketOf(name))
    {
      var policy := SubjectPolicy(ctx);
      var subjectId := who.userId;
      if !Given(subjectId) && policy != Subjectless {
        return NotLoggedInToRecord;
      }
      if policy == Subjectless {
        subjectId := None;
      }
      var existingRecord := Lookup(BucketOf(ctx.recordName), address);
      var markers := if existingRecord.Some? then existingRecord.value.Markers() else [PUBLIC_READ_MARKER];
      var authorization := policies.AuthorizeRequest(ctx, who, Use(DataQuery(DataDelete, address), markers), now);
      if !authorization.Allowed? {
        return Unauthorized(authorization);
      }
      if existingRecord.Some? && subjectId != authorization.recordKeyOwnerId
          && !existingRecord.value.deletePolicy.Permits(subjectId) {
        return PolicyForbids;
      }
      if existingRecord.None? {
        return DataNotFound;
      }
      buckets := buckets[ctx.recordName := RemoveFirst(BucketOf(ctx.recordName), At(address))];
      return Success;
    }

    /** `listData`: the stored items after `address`, filtered by authorization. */
    method ListData(ctx: Context, who: Requester, address: Option<JsString>, now: int) returns (result: AuthorizeResult)
      ensures result == Authorize(policies.SettingAt(ctx, now), who,
                                  Request.ListData(ItemsAfter(BucketOf(ctx.recordName), address)))
    {
      var bucket := BucketOf(ctx.recordName);
      var items: seq<Item> := [];
      for i := 0 to |bucket|
        invariant items + ItemsAfter(bucket[i..], address) == ItemsAfter(bucket, address)
      {
        assert bucket[i..][1..] == bucket[i + 1..];
        if IsAfter(address, bucket[i].address) {
          Associative(items, [ItemOf(bucket[i])], ItemsAfter(bucket[i + 1..], address));
          items := items + [ItemOf(bucket[i])];
        }
      }
      assert items + [] == items;
      result := policies.AuthorizeRequest(ctx, who, Request.ListData(items), now);
    }
  }

  function ItemOf(e: Entry): Item { Item(e.address, e.value.Markers()) }

  /** `!address || key > address` */
  predicate IsAfter(address: Option<JsString>, key: JsString) {
    !Given(address) || (LexLe(address.value, key) && key != address.value)
  }

  function ItemsAfter(b: Bucket, address: Option<JsString>): seq<Item> {
    if b == [] then []
    else (if IsAfter(address, b[0].address) then [ItemOf(b[0])] else []) + ItemsAfter(b[1..], address)
  }

  // ----- what an overwrite needs -----

  /** Under role r the marker grants the update and its own change. */
  predicate MayChange(c: Case, st: Store, record: JsString, address: JsString, x: JsString, how: PolicyType, r: Role) {
    && Has(c, st.PermissionsFor(record, x), DataQuery(DataUpdate, address), Fixed(r))
    && Has(c, st.PermissionsFor(record, x), PolicyQuery(how, x), EveryoneOr(r))
  }

  /** Under role r: every marker put on grants the update and its assignment,
      every marker taken off grants the update and its removal, and one of the
      markers already there grants the update. */
  ghost predicate MayOverwrite(c: Case, st: Store, record: JsString, address: JsString, e: seq<JsString>,
                               m: seq<JsString>, r: Role) {
    && (forall x | x in m && x !in e :: MayChange(c, st, record, address, x, PolicyAssign, r))
    && (forall x | x in e && x !in m :: MayChange(c, st, record, address, x, PolicyUnassign, r))
    && (exists x | x in e :: Has(c, st.PermissionsFor(record, x), DataQuery(DataUpdate, address), Fixed(r)))
  }

  function Overwrite(address: JsString, e: seq<JsString>, m: seq<JsString>): Request {
    Update(DataQuery(DataUpdate, address), e, Some(Without(m, e)), Some(Without(e, m)))
  }

  lemma OverwriteMarkers(address: JsString, e: seq<JsString>, m: seq<JsString>, x: JsString)
    ensures x in Overwrite(address, e, m).Markers() <==> x in e || x in m
    ensures var change := Changing(e, Some(Without(m, e)), Some(Without(e, m)));
            && (change.Adds(x) <==> x in m && x !in e)
            && (change.Removes(x) <==> x in e && x !in m)
  {
    var add, remove := Without(m, e), Without(e, m);
    FilterMember(m, NotIn(e), x);
    FilterMember(e, NotIn(m), x);
    UnionMembers(e + add + remove, x);
  }

  /** A subject may overwrite markers e (not empty) by m exactly when the search
      chooses a role that is not the empty name and that may do so. */
  lemma OverwriteExact(c: Case, st: Store, record: JsString, address: JsString, e: seq<JsString>, m: seq<JsString>)
    requires e != []
    ensures var req := Overwrite(address, e, m);
            var markers := MarkersOf(st, record, req.Markers());
            var role := ChosenRole(c, markers, req.query);
            if role.Some? && role.value.Truthy() && MayOverwrite(c, st, record, address, e, m, role.value)
            then GrantedAs(AuthorizeSubject(c, markers, req), role.value)
            else AuthorizeSubject(c, markers, req).Denied?
  {
    var req := Overwrite(address, e, m);
    var markers := MarkersOf(st, record, req.Markers());
    var change := Changing(e, req.added, req.removed);
    UpdateExact(c, markers, req.query, change);
    var role := ChosenRole(c, markers, req.query);
    if role.Some? {
      TouchedMeaning(c, st, record, address, e, m, role.value);
      ExistingMeaning(c, st, record, address, e, m, role.value);
    }
  }

  lemma TouchedMarker(c: Case, st: Store, record: JsString, address: JsString, e: seq<JsString>, m: seq<JsString>,
                      r: Role, x: JsString)
    ensures var req := Overwrite(address, e, m);
            var change := Changing(e, req.added, req.removed);
            var mp := MarkerPermission(x, st.PermissionsFor(record, x));
            && (mp in MarkersOf(st, record, req.Markers()) <==> x in e || x in m)
            && (change.Touches(x) <==> (x in m) != (x in e))
            && (change.Touches(x) ==> (MarkerAllows(c, mp, req.query, change, r)
                                       <==> MayChange(c, st, record, address, x, if x in m then PolicyAssign
                                                      else PolicyUnassign, r)))
  {
    var req := Overwrite(address, e, m);
    OverwriteMarkers(address, e, m, x);
    MarkersOfMembers(st, record, req.Markers(), MarkerPermission(x, st.PermissionsFor(record, x)));
  }

  lemma TouchedMeaning(c: Case, st: Store, record: JsString, address: JsString, e: seq<JsString>, m: seq<JsString>, r: Role)
    ensures var req := Overwrite(address, e, m);
            TouchedAllow(c, MarkersOf(st, record, req.Markers()), req.query, Changing(e, req.added, req.removed), r)
            <==> && (forall x | x in m && x !in e :: MayChange(c, st, record, address, x, PolicyAssign, r))
                 && (forall x | x in e && x !in m :: MayChange(c, st, record, address, x, PolicyUnassign, r))
  {
    var req := Overwrite(address, e, m);
    var markers := MarkersOf(st, record, req.Markers());
    var change := Changing(e, req.added, req.removed);
    if TouchedAllow(c, markers, req.query, change, r) {
      forall x | (x in m) != (x in e)
        ensures MayChange(c, st, record, address, x, if x in m then PolicyAssign else PolicyUnassign, r)
      {
        TouchedMarker(c, st, record, address, e, m, r, x);
        assert MarkerPermission(x, st.PermissionsFor(record, x)) in markers;
      }
    } else {
      var mp :| mp in markers && change.Touches(mp.marker) && !MarkerAllows(c, mp, req.query, change, r);
      MarkersOfMembers(st, record, req.Markers(), mp);
      TouchedMarker(c, st, record, address, e, m, r, mp.marker);
    }
  }

  lemma ExistingMeaning(c: Case, st: Store, record: JsString, address: JsString, e: seq<JsString>, m: seq<JsString>, r: Role)
    requires e != []
    ensures var req := Overwrite(address, e, m);
            var markers := MarkersOf(st, record, req.Markers());
            ExistingAllows(c, markers, req.query, Changing(e, req.added, req.removed), r) || AllGrant(c, markers, req.query, r)
            <==> exists x | x in e :: Has(c, st.PermissionsFor(record, x), req.query, Fixed(r))
  {
    var req := Overwrite(address, e, m);
    var markers := MarkersOf(st, record, req.Markers());
    var change := Changing(e, req.added, req.removed);
    forall x | x in e ensures MarkerPermission(x, st.PermissionsFor(record, x)) in markers {
      OverwriteMarkers(address, e, m, x);
      MarkersOfMembers(st, record, req.Markers(), MarkerPermission(x, st.PermissionsFor(record, x)));
    }
    forall mp | mp in markers ensures mp.permissions == st.PermissionsFor(record, mp.marker) {
      MarkersOfMembers(st, record, req.Markers(), mp);
    }
    assert MarkerPermission(e[0], st.PermissionsFor(record, e[0])) in markers;
  }

  /** Soundness of an overwrite: when recordData replaces nonempty markers e by
      m, the user may make the change under one role, and so may every instance
      whose permissions count. */
  lemma OverwriteSound(s: Setting, who: Requester, address: JsString, e: seq<JsString>, m: seq<JsString>)
    requires e != [] && Authorize(s, who, Overwrite(address, e, m)).Allowed?
    ensures var r := Authorize(s, who, Overwrite(address, e, m)).role;
            r.Truthy() && MayOverwrite(s.CaseOf(User, who.userId), s.st, s.ctx.recordName, address, e, m, r)
    ensures forall inst | inst in Checked(s, who, Overwrite(address, e, m)) ::
              exists r: Role :: r.Truthy() && MayOverwrite(s.CaseOf(Inst, Some(inst)), s.st, s.ctx.recordName, address, e, m, r)
  {
    var req := Overwrite(address, e, m);
    AllowedExact(s, who, req);
    OverwriteExact(s.CaseOf(User, who.userId), s.st, s.ctx.recordName, address, e, m);
    forall inst | inst in Checked(s, who, req)
      ensures exists r: Role :: r.Truthy() && MayOverwrite(s.CaseOf(Inst, Some(inst)), s.st, s.ctx.recordName, address, e, m, r)
    {
      OverwriteExact(s.CaseOf(Inst, Some(inst)), s.st, s.ctx.recordName, address, e, m);
    }
  }

  // ----- every run -----

  datatype Op =
    | Recorded(s: Setting, who: Requester, r: Recording)
    | Erased(s: Setting, who: Requester, address: JsString)

  /** One record's data after a run; policies, roles and requesters may change at will between steps. */
  function Run(ops: seq<Op>): Bucket {
    if ops == [] then []
    else
      var b := Run(ops[..|ops| - 1]);
      match ops[|ops| - 1]
      case Recorded(s, who, r) => RecordDataOutcome(s, who, b, r).1
      case Erased(s, who, address) => EraseDataOutcome(s, who, b, address).1
  }

  /** No allowed recording leaves the data without a marker. */
  lemma RecordedMarkers(s: Setting, who: Requester, existing: Option<DataRecord>, address: JsString,
                        markers: Option<seq<JsString>>)
    requires Authorize(s, who, RecordRequest(existing, address, markers)).Allowed?
    ensures ResourceMarkers(existing, markers) != []
  {
    if existing.Some? && markers == Some([]) {
      var e := existing.value.Markers();
      FilterAll(e, NotIn([]));
    }
  }

  lemma PutKeeps(b: Bucket, address: JsString, value: DataRecord)
    requires KeysDistinct(b, EntryAddress()) && MarkersEverywhere(b) && value.Markers() != []
    ensures KeysDistinct(Put(b, address, value), EntryAddress()) && MarkersEverywhere(Put(b, address, value))
  {
    forall k | 0 <= k < |b| && b[k].address == address ensures 0 <= FindIndex(b, At(address)) <= k {
      FindIndexIsFirst(b, At(address), k);
    }
  }

  lemma RecordingKeeps(s: Setting, who: Requester, b: Bucket, r: Recording)
    requires KeysDistinct(b, EntryAddress()) && MarkersEverywhere(b)
    ensures var b' := RecordDataOutcome(s, who, b, r).1; KeysDistinct(b', EntryAddress()) && MarkersEverywhere(b')
  {
    var (outcome, b') := RecordDataOutcome(s, who, b, r);
    var existing := Lookup(b, r.address);
    if outcome.Success? {
      RecordedMarkers(s, who, existing, r.address, r.markers);
      var stored := Authorize(s, who, RecordRequest(existing, r.address, r.markers));
      var subjectId := if SubjectPolicy(s.ctx).Subjectless? then None else who.userId;
      PutKeeps(b, r.address, DataRecord(r.data, stored.authorizerId, subjectId, OrAnyone(r.updatePolicy),
                                        OrAnyone(r.deletePolicy), Some(ResourceMarkers(existing, r.markers))));
    }
  }

  lemma RemoveKeeps(b: Bucket, p: Entry -> bool)
    requires KeysDistinct(b, EntryAddress()) && MarkersEverywhere(b)
    ensures KeysDistinct(RemoveFirst(b, p), EntryAddress()) && MarkersEverywhere(RemoveFirst(b, p))
  {}

  lemma ErasureKeeps(s: Setting, who: Requester, b: Bucket, address: JsString)
    requires KeysDistinct(b, EntryAddress()) && MarkersEverywhere(b)
    ensures var b' := EraseDataOutcome(s, who, b, address).1; KeysDistinct(b', EntryAddress()) && MarkersEverywhere(b')
  {
    RemoveKeeps(b, At(address));
  }

  /** In every reachable store addresses are distinct and no data is without markers. */
  lemma {:induction false} RunKeepsMarkers(ops: seq<Op>)
    ensures KeysDistinct(Run(ops), EntryAddress()) && MarkersEverywhere(Run(ops))
  {
    if ops != [] {
      RunKeepsMarkers(ops[..|ops| - 1]);
      match ops[|ops| - 1]
      case Recorded(s, who, r) => RecordingKeeps(s, who, Run(ops[..|ops| - 1]), r);
      case Erased(s, who, address) => ErasureKeeps(s, who, Run(ops[..|ops| - 1]), address);
    }
  }

  lemma {:induction false} ItemsDistinct(b: Bucket, address: Option<JsString>)
    requires KeysDistinct(b, EntryAddress())
    ensures KeysDistinct(ItemsAfter(b, address), AddressOf())
    ensures forall i | i in ItemsAfter(b, address) :: exists e | e in b :: e.address == i.address
  {
    if b != [] {
      ItemsDistinct(b[1..], address);
      var rest := ItemsAfter(b[1..], address);
      forall i | 0 <= i < |rest| ensures rest[i].address != b[0].address {
        assert rest[i] in rest;
        var e :| e in b[1..] && e.address == rest[i].address;
      }
    }
  }

  /** So a listing after any run returns, in insertion order, exactly the stored
      items past the start that the user and every checked instance may list. */
  lemma RunListing(ops: seq<Op>, s: Setting, who: Requester, address: Option<JsString>)
    ensures var items := ItemsAfter(Run(ops), address);
            var r := Authorize(s, who, Request.ListData(items));
            r.Allowed? ==> r.items == Some(Filter(items, MayList(s, who, items)))
  {
    RunKeepsMarkers(ops);
    ItemsDistinct(Run(ops), address);
    ListExact(s, who, ItemsAfter(Run(ops), address));
  }

  // ----- what a successful overwrite shows -----

  lemma {:induction false} WithoutItself(xs: seq<JsString>, ys: seq<JsString>)
    requires forall x | x in xs :: x in ys
    ensures Without(xs, ys) == []
  {
    if xs != [] { WithoutItself(xs[1..], ys); }
  }

  /** Recording over existing data asks to overwrite its markers by the ones the data will carry. */
  lemma RecordingOverwrites(existing: DataRecord, address: JsString, markers: Option<seq<JsString>>)
    ensures RecordRequest(Some(existing), address, markers)
         == Overwrite(address, existing.Markers(), ResourceMarkers(Some(existing), markers))
  {
    if markers.None? { WithoutItself(existing.Markers(), existing.Markers()); }
  }

  /** Some role that is not the empty name lets the subject exchange markers e for m. */
  ghost predicate SubjectMayOverwrite(s: Setting, kind: SubjectKind, id: Option<JsString>, address: JsString,
                                      e: seq<JsString>, m: seq<JsString>)
  {
    exists r: Role :: r.Truthy() && MayOverwrite(s.CaseOf(kind, id), s.st, s.ctx.recordName, address, e, m, r)
  }

  lemma AllowedMayOverwrite(s: Setting, who: Requester, address: JsString, e: seq<JsString>, m: seq<JsString>)
    requires e != [] && Authorize(s, who, Overwrite(address, e, m)).Allowed?
    ensures SubjectMayOverwrite(s, User, who.userId, address, e, m)
    ensures forall inst | inst in Checked(s, who, Overwrite(address, e, m)) ::
              SubjectMayOverwrite(s, Inst, Some(inst), address, e, m)
  {
    OverwriteSound(s, who, address, e, m);
  }

  /** In every reachable store: when recordData succeeds over existing data, the
      user, and every instance whose permissions count, may under one role
      exchange the old markers, of which there are some, for the new. */
  lemma RecordedOverExisting(ops: seq<Op>, s: Setting, who: Requester, r: Recording)
    requires Lookup(Run(ops), r.address).Some? && RecordDataOutcome(s, who, Run(ops), r).0.Success?
    ensures var existing := Lookup(Run(ops), r.address);
            var e, m := existing.value.Markers(), ResourceMarkers(existing, r.markers);
            && e != [] && SubjectMayOverwrite(s, User, who.userId, r.address, e, m)
            && forall inst | inst in Checked(s, who, Overwrite(r.address, e, m)) ::
                 SubjectMayOverwrite(s, Inst, Some(inst), r.address, e, m)
  {
    var existing := Lookup(Run(ops), r.address).value;
    RunKeepsMarkers(ops);
    RecordingOverwrites(existing, r.address, r.markers);
    AllowedMayOverwrite(s, who, r.address, existing.Markers(), ResourceMarkers(Some(existing), r.markers));
  }
}
