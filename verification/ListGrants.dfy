/** Lists after grants: exactly which items stay listed, that a grant can hide
    one, and what administrators see. */
module ListGrants {
  import opened JsStrings
  import opened Options
  import opened Sequences
  import opened Permissions
  import opened PolicyStore
  import opened PolicyChanges
  import opened Authorization
  import opened AuthorizationLaws
  import opened GrantLaws
  import opened ListingLaws
  import opened UpdateGrants

  // ----- one subject -----

  lemma {:induction false} PermissionsLonger(a: seq<MarkerPermission>, b: seq<MarkerPermission>, name: JsString)
    requires Longer(a, b)
    ensures PermissionsOf(a, name) <= PermissionsOf(b, name)
  {
    if a != [] && a[0].marker != name { PermissionsLonger(a[1..], b[1..], name); }
  }

  lemma {:induction false} ItemStays(c: Case, a: seq<MarkerPermission>, b: seq<MarkerPermission>, item: Item,
                                     from: nat, role: Option<Role>)
    requires Longer(a, b) && from <= |item.markers| && ItemPermission(c, a, item, from, role).Some?
    ensures ItemPermission(c, b, item, from, role).Some?
    decreases |item.markers| - from
  {
    var q := DataQuery(DataList, item.address);
    PermissionsLonger(a, b, item.markers[from]);
    if Has(c, PermissionsOf(a, item.markers[from]), q, ModeFor(role)) {
      FoundStays(c, PermissionsOf(a, item.markers[from]), PermissionsOf(b, item.markers[from]), q, ModeFor(role));
    } else {
      ItemStays(c, a, b, item, from + 1, role);
    }
  }

  lemma {:induction false} ListRoleStays(c: Case, a: seq<MarkerPermission>, b: seq<MarkerPermission>, items: seq<Item>)
    requires Longer(a, b) && ListRole(c, a, items).Some?
    ensures ListRole(c, b, items).Some?
  {
    if ItemPermission(c, a, items[0], 0, None).Some? { ItemStays(c, a, b, items[0], 0, None); }
    else { ListRoleStays(c, a, b, items[1..]); }
  }

  /** The grants left the subject the role it lists under, or gave it one that may list the item too. */
  predicate StillListed(c: Case, a: seq<MarkerPermission>, b: seq<MarkerPermission>, items: seq<Item>, item: Item) {
    ListRole(c, b, items) == ListRole(c, a, items)
    || (ListRole(c, b, items).Some? && ListableBy(c, b, item, ListRole(c, b, items).value))
  }

  lemma SeenExact(c: Case, markers: seq<MarkerPermission>, items: seq<Item>, item: Item)
    ensures item in SeenBy(c, markers, items)
        <==> ListRole(c, markers, items).Some? && item in items && ListableBy(c, markers, item, ListRole(c, markers, items).value)
  {
    var r := ListRole(c, markers, items);
    if r.Some? {
      FilterMember(items, Visible(c, markers, r.value), item);
      VisibleMeaning(c, markers, item, r.value);
    }
  }

  /** Of the items a subject could list, exactly these are left after more grants. */
  lemma StillListedExact(c: Case, a: seq<MarkerPermission>, b: seq<MarkerPermission>, items: seq<Item>, item: Item)
    requires Longer(a, b) && item in SeenBy(c, a, items)
    ensures item in SeenBy(c, b, items) <==> StillListed(c, a, b, items, item)
  {
    SeenExact(c, a, items, item);
    SeenExact(c, b, items, item);
    ListRoleStays(c, a, b, items);
    var r := ListRole(c, a, items).value;
    VisibleMeaning(c, a, item, r);
    VisibleMeaning(c, b, item, r);
    ItemStays(c, a, b, item, 0, Some(r));
  }

  // ----- told from the store before the grants -----

  /** What the search through the item's markers will find after the grants. */
  function ItemThen(c: Case, st: Store, grants: seq<PermissionGrant>, record: JsString, item: Item, from: nat, role: Option<Role>)
    : Option<Permission>
    requires from <= |item.markers|
    decreases |item.markers| - from
  {
    if from == |item.markers| then None
    else
      match FoundThen(c, st, grants, record, item.markers[from], DataQuery(DataList, item.address), ModeFor(role))
      case Some(p) => Some(p)
      case None => ItemThen(c, st, grants, record, item, from + 1, role)
  }

  /** The role the subject will list under. */
  function ListRoleThen(c: Case, st: Store, grants: seq<PermissionGrant>, record: JsString, items: seq<Item>): Option<Role> {
    if items == [] then None
    else
      match ItemThen(c, st, grants, record, items[0], 0, None)
      case Some(p) => Some(p.role)
      case None => ListRoleThen(c, st, grants, record, items[1..])
  }

  /** Every marker of the items is among the request's. */
  ghost predicate Covers(names: seq<JsString>, items: seq<Item>) {
    forall i, m | i in items && m in i.markers :: m in names
  }

  lemma {:induction false} ItemAfterGrants(c: Case, st: Store, grants: seq<PermissionGrant>, record: JsString,
                                           names: seq<JsString>, item: Item, from: nat, role: Option<Role>)
    requires from <= |item.markers| && forall m | m in item.markers :: m in names
    ensures ItemPermission(c, MarkersOf(GrantAll(st, grants), record, names), item, from, role)
         == ItemThen(c, st, grants, record, item, from, role)
    decreases |item.markers| - from
  {
    if from < |item.markers| {
      var name := item.markers[from];
      PermissionsOfMember(GrantAll(st, grants), record, names, name);
      FoundAfterGrants(c, st, grants, record, name, DataQuery(DataList, item.address), ModeFor(role));
      ItemAfterGrants(c, st, grants, record, names, item, from + 1, role);
    }
  }

  lemma {:induction false} ListRoleAfterGrants(c: Case, st: Store, grants: seq<PermissionGrant>, record: JsString,
                                               names: seq<JsString>, items: seq<Item>)
    requires Covers(names, items)
    ensures ListRole(c, MarkersOf(GrantAll(st, grants), record, names), items) == ListRoleThen(c, st, grants, record, items)
  {
    if items != [] {
      assert items[0] in items;
      ItemAfterGrants(c, st, grants, record, names, items[0], 0, None);
      assert forall i, m | i in items[1..] && m in i.markers :: i in items;
      ListRoleAfterGrants(c, st, grants, record, names, items[1..]);
    }
  }

  /** The subject will list under the role it lists under now, or under one that may list the item. */
  predicate KeepsListed(s: Setting, grants: seq<PermissionGrant>, kind: SubjectKind, id: Option<JsString>,
                        items: seq<Item>, item: Item) {
    var c, record := s.CaseOf(kind, id), s.ctx.recordName;
    var role := ListRoleThen(c, s.st, grants, record, items);
    || role == ListRole(c, MarkersOf(s.st, record, ListData(items).Markers()), items)
    || (role.Some? && ItemThen(c, s.st, grants, record, item, 0, role).Some?)
  }

  lemma KeepsListedExact(s: Setting, grants: seq<PermissionGrant>, kind: SubjectKind, id: Option<JsString>,
                         items: seq<Item>, item: Item)
    requires SubjectLists(s, kind, id, items, item)
    ensures SubjectLists(s.(st := GrantAll(s.st, grants)), kind, id, items, item)
            <==> KeepsListed(s, grants, kind, id, items, item)
  {
    var c, record, names := s.CaseOf(kind, id), s.ctx.recordName, ListData(items).Markers();
    var to := GrantAll(s.st, grants);
    GrantsExtend(s.st, grants);
    SameCases(s, to, kind, id);
    MarkersLonger(s.st, to, record, names);
    RequestCovers(items);
    ListRoleAfterGrants(c, s.st, grants, record, names, items);
    StillListedExact(c, MarkersOf(s.st, record, names), MarkersOf(to, record, names), items, item);
    SeenExact(c, MarkersOf(s.st, record, names), items, item);
    var role := ListRoleThen(c, s.st, grants, record, items);
    if role.Some? {
      VisibleMeaning(c, MarkersOf(to, record, names), item, role.value);
      ItemAfterGrants(c, s.st, grants, record, names, item, 0, role);
    }
  }

  // ----- a whole request -----

  function ListedItems(s: Setting, who: Requester, items: seq<Item>): seq<Item> {
    var r := Authorize(s, who, ListData(items));
    if r.Allowed? && r.items.Some? then r.items.value else []
  }

  predicate SubjectLists(s: Setting, kind: SubjectKind, id: Option<JsString>, items: seq<Item>, item: Item) {
    item in ListOf(s, MarkersOf(s.st, s.ctx.recordName, ListData(items).Markers()), items, kind, id)
  }

  /** An item is listed exactly when the user and every checked instance list it. */
  lemma ListedMeans(s: Setting, who: Requester, items: seq<Item>, item: Item)
    requires KeysDistinct(items, AddressOf()) && Authorize(s, who, ListData(items)).Allowed?
    ensures item in ListedItems(s, who, items)
        <==> && item in items && SubjectLists(s, User, who.userId, items, item)
             && forall inst | inst in Checked(s, who, ListData(items)) :: SubjectLists(s, Inst, Some(inst), items, item)
  {
    ListExact(s, who, items);
    FilterMember(items, MayList(s, who, items), item);
    var markers := MarkersOf(s.st, s.ctx.recordName, ListData(items).Markers());
    assert SeenByInstances(s, markers, items, Checked(s, who, ListData(items)), item)
      <==> forall inst | inst in Checked(s, who, ListData(items)) :: SubjectLists(s, Inst, Some(inst), items, item);
  }

  /** A listed item is still listed after any grants exactly when the user and
      every checked instance will list under the same role as now or under one
      that may list the item. All of it is told from the store before the grants. */
  lemma ListAfterGrantsExact(s: Setting, grants: seq<PermissionGrant>, who: Requester, items: seq<Item>, item: Item)
    requires KeysDistinct(items, AddressOf()) && item in ListedItems(s, who, items)
    ensures var t := s.(st := GrantAll(s.st, grants));
            && Authorize(t, who, ListData(items)).Allowed?
            && (item in ListedItems(t, who, items)
                <==> && KeepsListed(s, grants, User, who.userId, items, item)
                     && forall inst | inst in Checked(s, who, ListData(items)) ::
                          KeepsListed(s, grants, Inst, Some(inst), items, item))
  {
    var t := s.(st := GrantAll(s.st, grants));
    ListExact(s, who, items);
    ListExact(t, who, items);
    ListedMeans(s, who, items, item);
    ListedMeans(t, who, items, item);
    KeepsListedExact(s, grants, User, who.userId, items, item);
    forall inst | inst in Checked(s, who, ListData(items))
      ensures SubjectLists(t, Inst, Some(inst), items, item) <==> KeepsListed(s, grants, Inst, Some(inst), items, item)
    {
      assert SubjectLists(s, Inst, Some(inst), items, item);
      KeepsListedExact(s, grants, Inst, Some(inst), items, item);
    }
  }

  // ----- one grant -----

  /** The grant of p at m is what the search through the item comes to first. */
  predicate ItemOvertaken(c: Case, st: Store, record: JsString, item: Item, from: nat, m: JsString, p: Permission)
    requires from <= |item.markers|
    decreases |item.markers| - from
  {
    && from < |item.markers|
    && !Has(c, st.PermissionsFor(record, item.markers[from]), DataQuery(DataList, item.address), FirstChoice(KeyOrOwner))
    && ((item.markers[from] == m && Grants(c, DataQuery(DataList, item.address), FirstChoice(KeyOrOwner), p))
        || ItemOvertaken(c, st, record, item, from + 1, m, p))
  }

  /** Some marker of the item has an eligible match. */
  predicate ItemMatched(c: Case, st: Store, record: JsString, item: Item) {
    exists x | x in item.markers ::
      Has(c, st.PermissionsFor(record, x), DataQuery(DataList, item.address), FirstChoice(KeyOrOwner))
  }

  /** The grant comes before every eligible match of every item and marker. */
  predicate ListOvertaken(c: Case, st: Store, record: JsString, items: seq<Item>, m: JsString, p: Permission) {
    && items != []
    && (ItemOvertaken(c, st, record, items[0], 0, m, p)
        || (!ItemMatched(c, st, record, items[0]) && ListOvertaken(c, st, record, items[1..], m, p)))
  }

  /** Marker x lets the role of p list the item, counting p itself at m. */
  predicate ListsAt(c: Case, st: Store, record: JsString, x: JsString, item: Item, m: JsString, p: Permission) {
    || (x == m && Matches(c.re, DataQuery(DataList, item.address), p))
    || Has(c, st.PermissionsFor(record, x), DataQuery(DataList, item.address), Fixed(p.role))
  }

  predicate WouldList(c: Case, st: Store, record: JsString, item: Item, m: JsString, p: Permission) {
    exists x | x in item.markers :: ListsAt(c, st, record, x, item, m, p)
  }

  function OneGrant(record: JsString, m: JsString, p: Permission): seq<PermissionGrant> { [PermissionGrant(record, m, p)] }

  lemma OneGrantFinds(c: Case, st: Store, record: JsString, x: JsString, q: Query, mode: Mode, m: JsString, p: Permission)
    ensures FoundThen(c, st, OneGrant(record, m, p), record, x, q, mode)
         == if Has(c, st.PermissionsFor(record, x), q, mode) then FindPermission(c, st.PermissionsFor(record, x), q, mode)
            else if x == m && Grants(c, q, mode, p) then Some(p)
            else None
  {
    var grants := OneGrant(record, m, p);
    assert grants[..|grants| - 1] == [];
    assert GrantedMatch(c, [], record, x, q, mode).None?;
  }

  lemma {:induction false} ItemThenOne(c: Case, st: Store, record: JsString, names: seq<JsString>, item: Item, from: nat,
                                       m: JsString, p: Permission)
    requires from <= |item.markers| && forall x | x in item.markers :: x in names
    ensures ItemThen(c, st, OneGrant(record, m, p), record, item, from, None)
         == if ItemOvertaken(c, st, record, item, from, m, p) then Some(p)
            else ItemPermission(c, MarkersOf(st, record, names), item, from, None)
    decreases |item.markers| - from
  {
    if from < |item.markers| {
      var name := item.markers[from];
      PermissionsOfMember(st, record, names, name);
      OneGrantFinds(c, st, record, name, DataQuery(DataList, item.address), FirstChoice(KeyOrOwner), m, p);
      ItemThenOne(c, st, record, names, item, from + 1, m, p);
    }
  }

  lemma {:induction false} MatchedFrom(c: Case, st: Store, record: JsString, names: seq<JsString>, item: Item, from: nat)
    requires from <= |item.markers| && forall x | x in item.markers :: x in names
    ensures ItemPermission(c, MarkersOf(st, record, names), item, from, None).Some?
        <==> exists i | from <= i < |item.markers| ::
               Has(c, st.PermissionsFor(record, item.markers[i]), DataQuery(DataList, item.address), FirstChoice(KeyOrOwner))
    decreases |item.markers| - from
  {
    if from < |item.markers| {
      PermissionsOfMember(st, record, names, item.markers[from]);
      MatchedFrom(c, st, record, names, item, from + 1);
    }
  }

  /** One grant changes the role listed under exactly when it overtakes. */
  lemma {:induction false} ListRoleAfterGrant(c: Case, st: Store, record: JsString, names: seq<JsString>, items: seq<Item>,
                                              m: JsString, p: Permission)
    requires Covers(names, items)
    ensures ListRoleThen(c, st, OneGrant(record, m, p), record, items)
         == if ListOvertaken(c, st, record, items, m, p) then Some(p.role) else ListRole(c, MarkersOf(st, record, names), items)
  {
    if items != [] {
      assert items[0] in items;
      ItemThenOne(c, st, record, names, items[0], 0, m, p);
      MatchedFrom(c, st, record, names, items[0], 0);
      assert forall i, x | i in items[1..] && x in i.markers :: i in items;
      ListRoleAfterGrant(c, st, record, names, items[1..], m, p);
    }
  }

  lemma {:induction false} WouldListFrom(c: Case, st: Store, record: JsString, item: Item, from: nat, m: JsString, p: Permission)
    requires from <= |item.markers|
    ensures ItemThen(c, st, OneGrant(record, m, p), record, item, from, Some(p.role)).Some?
        <==> exists i | from <= i < |item.markers| :: ListsAt(c, st, record, item.markers[i], item, m, p)
    decreases |item.markers| - from
  {
    if from < |item.markers| {
      OneGrantFinds(c, st, record, item.markers[from], DataQuery(DataList, item.address), Fixed(p.role), m, p);
      WouldListFrom(c, st, record, item, from + 1, m, p);
    }
  }

  lemma WouldListMeans(c: Case, st: Store, record: JsString, item: Item, m: JsString, p: Permission)
    ensures ItemThen(c, st, OneGrant(record, m, p), record, item, 0, Some(p.role)).Some? <==> WouldList(c, st, record, item, m, p)
  {
    WouldListFrom(c, st, record, item, 0, m, p);
    if WouldList(c, st, record, item, m, p) {
      var x :| x in item.markers && ListsAt(c, st, record, x, item, m, p);
      var i :| 0 <= i < |item.markers| && item.markers[i] == x;
    }
  }

  /** The grant does not overtake, or its role may list the item. */
  predicate ListUndisturbed(s: Setting, kind: SubjectKind, id: Option<JsString>, items: seq<Item>, item: Item,
                            m: JsString, p: Permission) {
    var c, record := s.CaseOf(kind, id), s.ctx.recordName;
    ListOvertaken(c, s.st, record, items, m, p) ==> WouldList(c, s.st, record, item, m, p)
  }

  lemma UndisturbedKeepsListed(s: Setting, kind: SubjectKind, id: Option<JsString>, items: seq<Item>, item: Item,
                               m: JsString, p: Permission)
    requires SubjectLists(s, kind, id, items, item)
    ensures KeepsListed(s, OneGrant(s.ctx.recordName, m, p), kind, id, items, item)
        <==> ListUndisturbed(s, kind, id, items, item, m, p)
  {
    var c, record, names := s.CaseOf(kind, id), s.ctx.recordName, ListData(items).Markers();
    RequestCovers(items);
    ListRoleAfterGrant(c, s.st, record, names, items, m, p);
    WouldListMeans(c, s.st, record, item, m, p);
    SeenExact(c, MarkersOf(s.st, record, names), items, item);
    if ListRole(c, MarkersOf(s.st, record, names), items)
        == Some(p.role) { ListableWouldList(c, s.st, record, names, item, m, p); }
  }

  lemma ListableWouldList(c: Case, st: Store, record: JsString, names: seq<JsString>, item: Item, m: JsString, p: Permission)
    requires ListableBy(c, MarkersOf(st, record, names), item, p.role) && forall x | x in item.markers :: x in names
    ensures WouldList(c, st, record, item, m, p)
  {
    var x :| x in item.markers && Has(c, PermissionsOf(MarkersOf(st, record, names), x),
                                      DataQuery(DataList, item.address), Fixed(p.role));
    PermissionsOfMember(st, record, names, x);
  }

  /** A listed item is still listed after one more grant exactly when, for the
      user and for every checked instance, the permission does not match some
      item's listing under an eligible role before every match there is now, or
      its role may list the item. All of it can be checked before the grant. */
  lemma ListAfterGrantExact(s: Setting, who: Requester, items: seq<Item>, item: Item, m: JsString, p: Permission)
    requires KeysDistinct(items, AddressOf()) && item in ListedItems(s, who, items)
    ensures var t := s.(st := AddPermission(s.st, s.ctx.recordName, m, p));
            && Authorize(t, who, ListData(items)).Allowed?
            && (item in ListedItems(t, who, items)
                <==> && ListUndisturbed(s, User, who.userId, items, item, m, p)
                     && forall inst | inst in Checked(s, who, ListData(items)) ::
                          ListUndisturbed(s, Inst, Some(inst), items, item, m, p))
  {
    var grants := OneGrant(s.ctx.recordName, m, p);
    assert grants[..0] == [];
    assert GrantAll(s.st, grants) == AddPermission(s.st, s.ctx.recordName, m, p);
    ListAfterGrantsExact(s, grants, who, items, item);
    ListedMeans(s, who, items, item);
    UndisturbedKeepsListed(s, User, who.userId, items, item, m, p);
    forall inst | inst in Checked(s, who, ListData(items))
      ensures KeepsListed(s, grants, Inst, Some(inst), items, item) <==> ListUndisturbed(s, Inst, Some(inst), items, item, m, p)
    {
      assert SubjectLists(s, Inst, Some(inst), items, item);
      UndisturbedKeepsListed(s, Inst, Some(inst), items, item, m, p);
    }
  }

  // ----- a grant that hides an item -----

  function Lists(r: JsString): Permission { DataPermission(DataList, Named(r), All) }

  /** Nothing is said about marker m1, role b may list under m2. */
  predicate ListScene(s: Setting, who: Requester, a: JsString, b: JsString, m1: JsString, m2: JsString) {
    && Outsider(s, who.userId) && OrEmpty(who.instances) == []
    && a != b && a != ADMIN_ROLE_NAME && b != ADMIN_ROLE_NAME
    && Holds(s.st, s.ctx.recordName, who.userId.value, a, s.now) && Holds(s.st, s.ctx.recordName, who.userId.value, b, s.now)
    && m1 != m2 && m1 != PUBLIC_READ_MARKER && m2 != PUBLIC_READ_MARKER
    && s.st.DocumentOf(s.ctx.recordName, m1) == []
    && s.st.DocumentOf(s.ctx.recordName, m2) == [Lists(b)]
  }

  function ListSceneItems(x: JsString, y: JsString, m1: JsString, m2: JsString): seq<Item> { [Item(x, [m1]), Item(y, [m2])] }

  lemma ListSceneMarkers(x: JsString, y: JsString, m1: JsString, m2: JsString)
    requires m1 != m2
    ensures ListData(ListSceneItems(x, y, m1, m2)).Markers() == [m1, m2]
  {
    var items := ListSceneItems(x, y, m1, m2);
    assert items[1..] == [items[1]] && [items[1]][1..] == [];
    assert AllMarkers([items[1]]) == [m2] + [];
    assert AllMarkers(items) == [m1] + [m2];
    assert [m1, m2][..1] == [m1] && [m1][..0] == [];
    assert Union([m1]) == [m1];
  }

  lemma TwoMarkers(st: Store, record: JsString, m1: JsString, m2: JsString)
    requires m1 != m2
    ensures PermissionsOf(MarkersOf(st, record, [m1, m2]), m1) == st.PermissionsFor(record, m1)
    ensures PermissionsOf(MarkersOf(st, record, [m1, m2]), m2) == st.PermissionsFor(record, m2)
  {
    assert [m1, m2][1..] == [m2] && [m2][1..] == [];
    assert MarkersOf(st, record, [m1, m2])[1..] == MarkersOf(st, record, [m2]);
  }

  /** Which role lists first, and what it may list, in such a store with a document for m1. */
  lemma TwoItemsListed(c: Case, markers: seq<MarkerPermission>, x: JsString, y: JsString, m1: JsString, m2: JsString)
    ensures var items := ListSceneItems(x, y, m1, m2);
            var first := FindPermission(c, PermissionsOf(markers, m1), DataQuery(DataList, x), FirstChoice(KeyOrOwner));
            var second := FindPermission(c, PermissionsOf(markers, m2), DataQuery(DataList, y), FirstChoice(KeyOrOwner));
            ListRole(c, markers, items) == if first.Some? then Some(first.value.role)
                                           else if second.Some? then Some(second.value.role) else None
  {
    var items := ListSceneItems(x, y, m1, m2);
    assert items[1..] == [items[1]] && [items[1]][1..] == [];
    assert ItemPermission(c, markers, items[0], 1, None).None? && ItemPermission(c, markers, items[1], 1, None).None?;
    assert ListRole(c, markers, []).None?;
    assert ListRole(c, markers, [items[1]]) == if ItemPermission(c, markers, items[1], 0, None).Some?
      then Some(ItemPermission(c, markers, items[1], 0, None).value.role) else None;
  }

  /** In every such store, granting role a the listing of marker m1 hides the item
      under m2 that the user could list before. */
  lemma GrantCanHideItem(s: Setting, who: Requester, a: JsString, b: JsString, m1: JsString, m2: JsString,
                         x: JsString, y: JsString)
    requires ListScene(s, who, a, b, m1, m2) && x != y
    ensures var items := ListSceneItems(x, y, m1, m2);
            && items[1] in ListedItems(s, who, items)
            && items[1] !in ListedItems(s.(st := AddPermission(s.st, s.ctx.recordName, m1, Lists(a))), who, items)
  {
    var c, record, items := s.CaseOf(User, who.userId), s.ctx.recordName, ListSceneItems(x, y, m1, m2);
    var to := AddPermission(s.st, record, m1, Lists(a));
    var t := s.(st := to);
    var qx, qy := DataQuery(DataList, x), DataQuery(DataList, y);
    ListSceneMarkers(x, y, m1, m2);
    AddExtends(s.st, record, m1, Lists(a));
    SameCases(s, to, User, who.userId);
    TwoMarkers(s.st, record, m1, m2);
    TwoMarkers(to, record, m1, m2);
    TwoItemsListed(c, MarkersOf(s.st, record, [m1, m2]), x, y, m1, m2);
    TwoItemsListed(c, MarkersOf(to, record, [m1, m2]), x, y, m1, m2);
    ListExact(s, who, items);
    ListExact(t, who, items);
    ListedMeans(s, who, items, items[1]);
    ListedMeans(t, who, items, items[1]);
    SeenExact(c, MarkersOf(s.st, record, [m1, m2]), items, items[1]);
    SeenExact(c, MarkersOf(to, record, [m1, m2]), items, items[1]);
    ListSceneOffers(s, who, a, b, m1, m2, x, y);
  }

  lemma ListSceneOffers(s: Setting, who: Requester, a: JsString, b: JsString, m1: JsString, m2: JsString, x: JsString,
                        y: JsString)
    requires ListScene(s, who, a, b, m1, m2)
    ensures var c, record := s.CaseOf(User, who.userId), s.ctx.recordName;
            var to := AddPermission(s.st, record, m1, Lists(a));
            var qx, qy := DataQuery(DataList, x), DataQuery(DataList, y);
            && !Has(c, s.st.PermissionsFor(record, m1), qx, FirstChoice(KeyOrOwner))
            && FindPermission(c, s.st.PermissionsFor(record, m2), qy, FirstChoice(KeyOrOwner)) == Some(Lists(b))
            && Has(c, s.st.PermissionsFor(record, m2), qy, Fixed(Named(b)))
            && FindPermission(c, to.PermissionsFor(record, m1), qx, FirstChoice(KeyOrOwner)) == Some(Lists(a))
            && !Has(c, to.PermissionsFor(record, m2), qy, Fixed(Named(a)))
  {
    var c, record := s.CaseOf(User, who.userId), s.ctx.recordName;
    var qx, qy := DataQuery(DataList, x), DataQuery(DataList, y);
    assert !Eligible(c, KeyOrOwner, ADMIN) && Eligible(c, KeyOrOwner, Named(a)) && Eligible(c, KeyOrOwner, Named(b));
    DefaultsSkipped(c, s.st, record, m1, qx, FirstChoice(KeyOrOwner));
    DefaultsSkipped(c, s.st, record, m2, qy, FirstChoice(KeyOrOwner));
    DefaultsSkipped(c, s.st, record, m2, qy, Fixed(Named(b)));
    DefaultsSkipped(c, s.st, record, m2, qy, Fixed(Named(a)));
    FoundAfterGrant(c, s.st, record, m1, qx, FirstChoice(KeyOrOwner), m1, Lists(a));
    FoundAfterGrant(c, s.st, record, m2, qy, Fixed(Named(a)), m1, Lists(a));
    assert [Lists(b)][1..] == [];
  }

  /** Such a store: the user holds roles a and b for good, and one document is stored. */
  function ListSceneStore(record: JsString, user: JsString, a: JsString, b: JsString, m2: JsString): Store {
    Store(map[(record, m2) := PolicyEntry([Lists(b)], [ACCOUNT_MARKER])], map[(record, user) := [a, b]], map[])
  }

  lemma ListSceneArises(re: Regex, record: JsString, owner: JsString, user: JsString, a: JsString, b: JsString,
                        m1: JsString, m2: JsString, now: int)
    requires user != [] && user != owner && m1 != m2 && m1 != PUBLIC_READ_MARKER && m2 != PUBLIC_READ_MARKER
    requires a != b && a != ADMIN_ROLE_NAME && b != ADMIN_ROLE_NAME
    ensures ListScene(Setting(re, ListSceneStore(record, user, a, b, m2), now, Context(record, owner, None)),
                      Requester(Some(user), None), a, b, m1, m2)
  {
    var st := ListSceneStore(record, user, a, b, m2);
    assert [a, b][0] == a && [a, b][1] == b;
    HoldsMeaning(st, record, user, a, now);
    HoldsMeaning(st, record, user, b, now);
    HoldsMeaning(st, record, user, ADMIN_ROLE_NAME, now);
  }

  // ----- administrators -----

  function Marked(): Item -> bool { (i: Item) => i.markers != [] }

  lemma {:induction false} PermissionsOfMember(st: Store, record: JsString, names: seq<JsString>, name: JsString)
    requires name in names
    ensures PermissionsOf(MarkersOf(st, record, names), name) == st.PermissionsFor(record, name)
  {
    if names[0] != name {
      PermissionsOfMember(st, record, names[1..], name);
      assert MarkersOf(st, record, names)[1..] == MarkersOf(st, record, names[1..]);
    }
  }

  lemma {:induction false} AllMarkersMembers(items: seq<Item>, i: Item, m: JsString)
    requires i in items && m in i.markers
    ensures m in AllMarkers(items)
  {
    if i != items[0] { AllMarkersMembers(items[1..], i, m); }
  }

  lemma RequestCovers(items: seq<Item>)
    ensures Covers(ListData(items).Markers(), items)
  {
    forall i, m | i in items && m in i.markers ensures m in Union(AllMarkers(items)) {
      AllMarkersMembers(items, i, m);
      UnionMembers(AllMarkers(items), m);
    }
  }

  /** An administrator's search finds an administrator's permission at an item's first marker. */
  lemma AdminItem(c: Case, st: Store, record: JsString, names: seq<JsString>, item: Item, role: Option<Role>)
    requires item.markers != [] && item.markers[0] in names && Accepts(c, ModeFor(role), ADMIN)
    ensures var found := ItemPermission(c, MarkersOf(st, record, names), item, 0, role);
            found.Some? && found.value.role == ADMIN
  {
    PermissionsOfMember(st, record, names, item.markers[0]);
    AdminFoundFirst(c, st, record, item.markers[0], DataQuery(DataList, item.address), ModeFor(role));
  }

  lemma {:induction false} AdminListRole(c: Case, st: Store, record: JsString, names: seq<JsString>, items: seq<Item>)
    requires Eligible(c, KeyOrOwner, ADMIN) && Covers(names, items)
    ensures ListRole(c, MarkersOf(st, record, names), items) == if Filter(items, Marked()) == [] then None else Some(ADMIN)
  {
    if items != [] {
      if items[0].markers != [] {
        AdminItem(c, st, record, names, items[0], None);
      } else {
        assert forall i, m | i in items[1..] && m in i.markers :: i in items;
        AdminListRole(c, st, record, names, items[1..]);
      }
    }
  }

  lemma AdminSees(c: Case, st: Store, record: JsString, names: seq<JsString>, items: seq<Item>)
    requires Eligible(c, KeyOrOwner, ADMIN) && Covers(names, items)
    ensures SeenBy(c, MarkersOf(st, record, names), items) == Filter(items, Marked())
  {
    var markers := MarkersOf(st, record, names);
    AdminListRole(c, st, record, names, items);
    forall i | i in items ensures Visible(c, markers, ADMIN)(i) == Marked()(i) {
      if i.markers != [] { AdminItem(c, st, record, names, i, Some(ADMIN)); }
    }
    FilterSame(items, Visible(c, markers, ADMIN), Marked());
  }

  /** Whatever has been granted and revoked, the record's owner, a holder of the
      admin role and a holder of a valid record key list, without instances,
      exactly the items that carry a marker. */
  lemma AdministratorLists(s: Setting, who: Requester, items: seq<Item>)
    requires OrEmpty(who.instances) == [] && ListData(items).Markers() != []
    requires Eligible(s.CaseOf(User, who.userId), KeyOrOwner, ADMIN)
    ensures Authorize(s, who, ListData(items)).Allowed?
    ensures Authorize(s, who, ListData(items)).items == Some(Filter(items, Marked()))
  {
    var c, names := s.CaseOf(User, who.userId), ListData(items).Markers();
    RequestCovers(items);
    AdminSees(c, s.st, s.ctx.recordName, names, items);
    ListItemsExact(c, MarkersOf(s.st, s.ctx.recordName, names), items);
  }
}
