/** What the default documents give to people who are no administrators: the
    reading of public resources, and nothing else. */
module PublicRead {
  import opened JsStrings
  import opened Options
  import opened Sequences
  import opened Permissions
  import opened PolicyStore
  import opened PolicyChanges
  import opened Authorization
  import opened AuthorizationLaws
  import opened GrantLaws
  import opened ListingLaws
  import opened UpdateGrants
  import opened ListGrants

  /** What everyone may do with a publicRead resource besides listing it. */
  predicate Open(q: Query) {
    || (q.DataQuery? && q.dataType.DataRead?)
    || (q.FileQuery? && q.fileType.FileRead?)
    || (q.EventQuery? && q.eventType.EventCount?)
  }

  predicate Lists(q: Query) { q.DataQuery? && q.dataType.DataList? }

  lemma HasConcat(c: Case, a: seq<Permission>, b: seq<Permission>, q: Query, mode: Mode)
    ensures Has(c, a + b, q, mode) <==> Has(c, a, q, mode) || Has(c, b, q, mode)
  {
    HasMeaning(c, a, q, mode);
    HasMeaning(c, b, q, mode);
    HasMeaning(c, a + b, q, mode);
    assert forall p | p in a :: p in a + b;
    assert forall p | p in b :: p in a + b;
  }

  lemma DefaultGrantsAdminsOnly(c: Case, q: Query, mode: Mode)
    requires !Accepts(c, mode, ADMIN)
    ensures !Has(c, DEFAULT_ANY_RESOURCE_POLICY_DOCUMENT, q, mode)
  {
    HasMeaning(c, DEFAULT_ANY_RESOURCE_POLICY_DOCUMENT, q, mode);
    forall p | p in DEFAULT_ANY_RESOURCE_POLICY_DOCUMENT ensures !Grants(c, q, mode, p) {
      if Matches(c.re, q, p) { DefaultIsAdmins(c.re, q, p); }
    }
  }

  lemma PublicDocumentGrants(c: Case, q: Query, mode: Mode)
    ensures Has(c, DEFAULT_PUBLIC_READ_POLICY_DOCUMENT, q, mode) <==> Accepts(c, mode, Everyone) && (Open(q) || Lists(q))
  {
    var d := DEFAULT_PUBLIC_READ_POLICY_DOCUMENT;
    HasMeaning(c, d, q, mode);
    assert d[0] in d && d[1] in d && d[2] in d && d[3] in d;
  }

  /** What one marker grants to someone who may not act as an administrator. */
  lemma MarkerGrants(c: Case, st: Store, record: JsString, marker: JsString, q: Query, mode: Mode)
    requires !Accepts(c, mode, ADMIN)
    ensures Has(c, st.PermissionsFor(record, marker), q, mode)
        <==> || (marker == PUBLIC_READ_MARKER && Accepts(c, mode, Everyone) && (Open(q) || Lists(q)))
             || Has(c, st.DocumentOf(record, marker), q, mode)
  {
    var d := DEFAULT_ANY_RESOURCE_POLICY_DOCUMENT;
    var open := if marker == PUBLIC_READ_MARKER then DEFAULT_PUBLIC_READ_POLICY_DOCUMENT else [];
    HasConcat(c, d, open, q, mode);
    HasConcat(c, d + open, st.DocumentOf(record, marker), q, mode);
    DefaultGrantsAdminsOnly(c, q, mode);
    PublicDocumentGrants(c, q, mode);
  }

  // ----- reading -----

  lemma PublicMarkerOpen(c: Case, st: Store, record: JsString, q: Query)
    requires Open(q)
    ensures Has(c, st.PermissionsFor(record, PUBLIC_READ_MARKER), q, FirstChoice(KeyOrOwner))
  {
    var d := DEFAULT_ANY_RESOURCE_POLICY_DOCUMENT;
    HasConcat(c, d, DEFAULT_PUBLIC_READ_POLICY_DOCUMENT, q, FirstChoice(KeyOrOwner));
    HasConcat(c, d + DEFAULT_PUBLIC_READ_POLICY_DOCUMENT, st.DocumentOf(record, PUBLIC_READ_MARKER), q, FirstChoice(KeyOrOwner));
    PublicDocumentGrants(c, q, FirstChoice(KeyOrOwner));
  }

  lemma PublicSubject(s: Setting, kind: SubjectKind, id: Option<JsString>, q: Query, markers: seq<JsString>)
    requires Open(q) && PUBLIC_READ_MARKER in markers
    ensures SubjectGranted(s, kind, id, Use(q, markers))
  {
    var c, st, record := s.CaseOf(kind, id), s.st, s.ctx.recordName;
    var m := Entry(st, record, PUBLIC_READ_MARKER);
    PublicMarkerOpen(c, st, record, q);
    MarkersOfMembers(st, record, markers, m);
    AnyExact(c, KeyOrOwner, MarkersOf(st, record, markers), q, MissingRole);
    assert m in MarkersOf(st, record, markers) && Has(c, m.permissions, q, FirstChoice(KeyOrOwner));
  }

  /** Whatever is stored, everyone - logged in or not, with a key or without, from
      any instances that a request may name - may read public data and files and
      count public events. */
  lemma PublicReadable(s: Setting, who: Requester, q: Query, markers: seq<JsString>)
    requires Open(q) && Text("publicRead") in markers
    ensures Authorize(s, who, Use(q, markers)).Allowed? <==> |OrEmpty(who.instances)| <= 2
  {
    AllowedExact(s, who, Use(q, markers));
    PublicSubject(s, User, who.userId, q, markers);
    forall inst | inst in Checked(s, who, Use(q, markers)) ensures SubjectGranted(s, Inst, Some(inst), Use(q, markers)) {
      PublicSubject(s, Inst, Some(inst), q, markers);
    }
  }

  /** Anyone, logged in or not, who is not the record's owner, is no administrator and has no key. */
  predicate Stranger(s: Setting, userId: Option<JsString>) {
    && userId != Some(s.ctx.recordOwnerId) && s.ctx.recordKey.None?
    && (Given(userId) ==> !Holds(s.st, s.ctx.recordName, userId.value, ADMIN_ROLE_NAME, s.now))
  }

  lemma StrangerNotAdmin(s: Setting, userId: Option<JsString>, style: Style)
    requires Stranger(s, userId)
    ensures !Eligible(s.CaseOf(User, userId), style, ADMIN)
  {
    AdministratorsEligible(s, userId, style);
  }

  /** Some marker's stored document grants the action. */
  predicate DocumentGrants(c: Case, st: Store, record: JsString, markers: seq<JsString>, q: Query, style: Style) {
    exists m | m in markers :: Has(c, st.DocumentOf(record, m), q, FirstChoice(style))
  }

  lemma AnyStranger(c: Case, style: Style, st: Store, record: JsString, markers: seq<JsString>, q: Query, denial: DenialReason)
    requires !Eligible(c, style, ADMIN)
    ensures AuthorizeAny(c, style, MarkersOf(st, record, markers), q, denial).Granted?
        <==> || (PUBLIC_READ_MARKER in markers && (Open(q) || Lists(q)))
             || DocumentGrants(c, st, record, markers, q, style)
  {
    var ms := MarkersOf(st, record, markers);
    AnyExact(c, style, ms, q, denial);
    forall m | m in markers
      ensures Entry(st, record, m) in ms
      ensures Has(c, st.PermissionsFor(record, m), q, FirstChoice(style))
          <==> || (m == PUBLIC_READ_MARKER && (Open(q) || Lists(q)))
               || Has(c, st.DocumentOf(record, m), q, FirstChoice(style))
    {
      MarkersOfMembers(st, record, markers, Entry(st, record, m));
      MarkerGrants(c, st, record, m, q, FirstChoice(style));
    }
    forall mp | mp in ms ensures mp.marker in markers && mp.permissions == st.PermissionsFor(record, mp.marker) {
      MarkersOfMembers(st, record, markers, mp);
    }
    if PUBLIC_READ_MARKER in markers { assert Entry(st, record, PUBLIC_READ_MARKER) in ms; }
    if DocumentGrants(c, st, record, markers, q, style) {
      var m :| m in markers && Has(c, st.DocumentOf(record, m), q, FirstChoice(style));
      assert Entry(st, record, m) in ms;
    }
  }

  /** A stranger without instances reads, deletes or counts exactly what is public
      and open to all, and what a stored document of one of the markers grants. */
  lemma StrangerExact(s: Setting, who: Requester, q: Query, markers: seq<JsString>)
    requires Stranger(s, who.userId) && OrEmpty(who.instances) == [] && !Lists(q)
    ensures Authorize(s, who, Use(q, markers)).Allowed?
        <==> || (PUBLIC_READ_MARKER in markers && Open(q))
             || DocumentGrants(s.CaseOf(User, who.userId), s.st, s.ctx.recordName, markers, q, KeyOrOwner)
  {
    StrangerNotAdmin(s, who.userId, KeyOrOwner);
    AnyStranger(s.CaseOf(User, who.userId), KeyOrOwner, s.st, s.ctx.recordName, markers, q, MissingRole);
    AllowedExact(s, who, Use(q, markers));
  }

  ghost predicate NoDocuments(st: Store, record: JsString) {
    forall m :: st.DocumentOf(record, m) == []
  }

  /** The request is not an update that asks for a read. */
  predicate Fits(req: Request) {
    && !req.ListData? && (req.Update? || req.UpdateFile? ==> !Open(req.query) && !Lists(req.query))
    && (req.Use? ==> !Lists(req.query))
  }

  lemma StrangerCreatesNothing(c: Case, st: Store, record: JsString, markers: seq<JsString>, q: Query, change: Change)
    requires !Eligible(c, KeyOrOwner, ADMIN) && NoDocuments(st, record)
    requires change.Creating? || (!Open(q) && !Lists(q))
    ensures AuthorizeEvery(c, MarkersOf(st, record, markers), q, change, START).Denied?
  {
    var ms := MarkersOf(st, record, markers);
    CreateExact(c, ms, q, change);
    if ms != [] {
      MarkersOfMembers(st, record, markers, ms[0]);
      var m := ms[0];
      MarkerGrants(c, st, record, m.marker, q, FirstChoice(KeyOrOwner));
      if Has(c, m.permissions, q, FirstChoice(KeyOrOwner)) && change.Creating? {
        FirstChoiceRole(c, m.permissions, q, KeyOrOwner);
        var r := FindPermission(c, m.permissions, q, FirstChoice(KeyOrOwner)).value.role;
        MarkerGrants(c, st, record, m.marker, PolicyQuery(PolicyAssign, m.marker), EveryoneOr(r));
        assert !MarkerAllows(c, m, q, change, r);
      }
    }
  }

  lemma {:induction false} NoRoleChosen(c: Case, st: Store, record: JsString, markers: seq<JsString>, q: Query)
    requires !Eligible(c, KeyOrOwner, ADMIN) && NoDocuments(st, record) && !Open(q) && !Lists(q)
    ensures ChosenRole(c, MarkersOf(st, record, markers), q).None?
  {
    if markers != [] {
      MarkerGrants(c, st, record, markers[0], q, FirstChoice(KeyOrOwner));
      NoRoleChosen(c, st, record, markers[1..], q);
      assert MarkersOf(st, record, markers)[1..] == MarkersOf(st, record, markers[1..]);
    }
  }

  /** Where no document is stored, that is all a stranger may do: every other
      request - deleting, creating, updating, managing policies or roles - is refused. */
  lemma NothingElse(s: Setting, who: Requester, req: Request)
    requires Stranger(s, who.userId) && OrEmpty(who.instances) == [] && NoDocuments(s.st, s.ctx.recordName) && Fits(req)
    ensures Authorize(s, who, req).Allowed? <==> req.Use? && PUBLIC_READ_MARKER in req.resourceMarkers && Open(req.query)
  {
    var c, st, record := s.CaseOf(User, who.userId), s.st, s.ctx.recordName;
    StrangerNotAdmin(s, who.userId, KeyOrOwner);
    StrangerNotAdmin(s, who.userId, OwnerOnly);
    AllowedExact(s, who, req);
    match req
    case Use(q, markers) => StrangerExact(s, who, q, markers);
    case Manage(q) =>
      AnyStranger(c, OwnerOnly, st, record, [ACCOUNT_MARKER], q, MissingRole);
      AccountNotPublic();
    case Create(q, markers) => StrangerCreatesNothing(c, st, record, markers, q, Creating);
    case Update(q, e, a, r) =>
      UpdateExact(c, MarkersOf(st, record, req.Markers()), q, Changing(e, a, r));
      NoRoleChosen(c, st, record, req.Markers(), q);
    case UpdateFile(q, e, a, r) => StrangerCreatesNothing(c, st, record, req.Markers(), q, Changing(e, a, r));
  }

  lemma AccountNotPublic()
    ensures ACCOUNT_MARKER != PUBLIC_READ_MARKER
  {
    assert |ACCOUNT_MARKER| != |PUBLIC_READ_MARKER|;
  }

  // ----- listing -----

  function Public(): Item -> bool { (i: Item) => PUBLIC_READ_MARKER in i.markers }

  lemma {:induction false} PublicItem(c: Case, st: Store, record: JsString, names: seq<JsString>, item: Item, from: nat,
                                      role: Option<Role>)
    requires from <= |item.markers| && (forall m | m in item.markers :: m in names)
    requires !Accepts(c, ModeFor(role), ADMIN) && Accepts(c, ModeFor(role), Everyone) && NoDocuments(st, record)
    ensures var found := ItemPermission(c, MarkersOf(st, record, names), item, from, role);
            && (found.Some? <==> PUBLIC_READ_MARKER in item.markers[from..])
            && (found.Some? ==> found.value.role.Everyone?)
    decreases |item.markers| - from
  {
    if from < |item.markers| {
      var name, q := item.markers[from], DataQuery(DataList, item.address);
      PermissionsOfMember(st, record, names, name);
      MarkerGrants(c, st, record, name, q, ModeFor(role));
      PublicItem(c, st, record, names, item, from + 1, role);
      assert item.markers[from..] == [name] + item.markers[from + 1..];
      if Has(c, st.PermissionsFor(record, name), q, ModeFor(role)) { PublicListRole(c, st, record, q, ModeFor(role)); }
    }
  }

  lemma PublicListRole(c: Case, st: Store, record: JsString, q: Query, mode: Mode)
    requires !Accepts(c, mode, ADMIN) && NoDocuments(st, record)
    requires Has(c, st.PermissionsFor(record, PUBLIC_READ_MARKER), q, mode)
    ensures FindPermission(c, st.PermissionsFor(record, PUBLIC_READ_MARKER), q, mode).value.role.Everyone?
  {
    var d := st.PermissionsFor(record, PUBLIC_READ_MARKER);
    FoundGrants(c, d, q, mode);
    var p := FindPermission(c, d, q, mode).value;
    assert st.DocumentOf(record, PUBLIC_READ_MARKER) == [];
    InConcat(p, DEFAULT_ANY_RESOURCE_POLICY_DOCUMENT, DEFAULT_PUBLIC_READ_POLICY_DOCUMENT);
    if p in DEFAULT_ANY_RESOURCE_POLICY_DOCUMENT { DefaultIsAdmins(c.re, q, p); }
  }

  lemma {:induction false} StrangerListRole(c: Case, st: Store, record: JsString, names: seq<JsString>, items: seq<Item>)
    requires !Eligible(c, KeyOrOwner, ADMIN) && NoDocuments(st, record) && Covers(names, items)
    ensures ListRole(c, MarkersOf(st, record, names), items) == if Filter(items, Public()) == [] then None else Some(Everyone)
  {
    if items != [] {
      assert items[0] in items;
      PublicItem(c, st, record, names, items[0], 0, None);
      assert items[0].markers[0..] == items[0].markers;
      assert forall i, m | i in items[1..] && m in i.markers :: i in items;
      StrangerListRole(c, st, record, names, items[1..]);
    }
  }

  /** Where no document is stored, a stranger lists exactly the public items. */
  lemma StrangerLists(s: Setting, who: Requester, items: seq<Item>)
    requires Stranger(s, who.userId) && OrEmpty(who.instances) == [] && NoDocuments(s.st, s.ctx.recordName)
    requires ListData(items).Markers() != []
    ensures Authorize(s, who, ListData(items)).Allowed?
    ensures Authorize(s, who, ListData(items)).items == Some(Filter(items, Public()))
  {
    var c, st, record, names := s.CaseOf(User, who.userId), s.st, s.ctx.recordName, ListData(items).Markers();
    var markers := MarkersOf(st, record, names);
    StrangerNotAdmin(s, who.userId, KeyOrOwner);
    RequestCovers(items);
    StrangerListRole(c, st, record, names, items);
    ListItemsExact(c, markers, items);
    forall i | i in items ensures Visible(c, markers, Everyone)(i) == Public()(i) {
      PublicItem(c, st, record, names, i, 0, Some(Everyone));
      assert i.markers[0..] == i.markers;
    }
    FilterSame(items, Visible(c, markers, Everyone), Public());
  }
}
