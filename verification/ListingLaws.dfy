/** What `data.list` returns: for each subject the items one single role may
    list, and for a whole request the items every subject may list. */
module ListingLaws {
  import opened JsStrings
  import opened Options
  import opened Sequences
  import opened Permissions
  import opened Authorization
  import opened AuthorizationLaws

  // ----- one subject -----

  /** Some marker of the item lets role r list it. */
  predicate ListableBy(c: Case, markers: seq<MarkerPermission>, item: Item, r: Role) {
    exists m | m in item.markers :: Has(c, PermissionsOf(markers, m), DataQuery(DataList, item.address), Fixed(r))
  }

  function Visible(c: Case, markers: seq<MarkerPermission>, r: Role): Item -> bool {
    (i: Item) => ItemPermission(c, markers, i, 0, Some(r)).Some?
  }

  /** The role of the first item, and of its first marker, with an eligible match. */
  function ListRole(c: Case, markers: seq<MarkerPermission>, items: seq<Item>): Option<Role> {
    if items == [] then None
    else
      match ItemPermission(c, markers, items[0], 0, None)
      case Some(p) => Some(p.role)
      case None => ListRole(c, markers, items[1..])
  }

  function SeenBy(c: Case, markers: seq<MarkerPermission>, items: seq<Item>): seq<Item> {
    match ListRole(c, markers, items)
    case None => []
    case Some(r) => Filter(items, Visible(c, markers, r))
  }

  lemma {:induction false} VisibleFrom(c: Case, markers: seq<MarkerPermission>, item: Item, from: nat, r: Role)
    requires from <= |item.markers|
    ensures ItemPermission(c, markers, item, from, Some(r)).Some?
        <==> exists i | from <= i < |item.markers| ::
               Has(c, PermissionsOf(markers, item.markers[i]), DataQuery(DataList, item.address), Fixed(r))
    ensures ItemPermission(c, markers, item, from, Some(r)).Some?
            ==> ItemPermission(c, markers, item, from, Some(r)).value.role == r
    decreases |item.markers| - from
  {
    if from < |item.markers| {
      var q := DataQuery(DataList, item.address);
      var permissions := PermissionsOf(markers, item.markers[from]);
      if Has(c, permissions, q, Fixed(r)) { FoundGrants(c, permissions, q, Fixed(r)); }
      VisibleFrom(c, markers, item, from + 1, r);
    }
  }

  lemma VisibleMeaning(c: Case, markers: seq<MarkerPermission>, item: Item, r: Role)
    ensures Visible(c, markers, r)(item) <==> ListableBy(c, markers, item, r)
  {
    VisibleFrom(c, markers, item, 0, r);
  }

  lemma {:induction false} NothingEligible(c: Case, markers: seq<MarkerPermission>, item: Item, from: nat, r: Role)
    requires from <= |item.markers| && Eligible(c, KeyOrOwner, r)
    requires ItemPermission(c, markers, item, from, None).None?
    ensures ItemPermission(c, markers, item, from, Some(r)).None?
    decreases |item.markers| - from
  {
    if from < |item.markers| {
      var q := DataQuery(DataList, item.address);
      var permissions := PermissionsOf(markers, item.markers[from]);
      if Has(c, permissions, q, Fixed(r)) { FixedNeedsEligible(c, permissions, q, KeyOrOwner, r); }
      NothingEligible(c, markers, item, from + 1, r);
    }
  }

  lemma {:induction false} FirstItemRole(c: Case, markers: seq<MarkerPermission>, item: Item, from: nat)
    requires from <= |item.markers| && ItemPermission(c, markers, item, from, None).Some?
    ensures var r := ItemPermission(c, markers, item, from, None).value.role;
            Eligible(c, KeyOrOwner, r) && ItemPermission(c, markers, item, from, Some(r)).Some?
    decreases |item.markers| - from
  {
    var q := DataQuery(DataList, item.address);
    var permissions := PermissionsOf(markers, item.markers[from]);
    if Has(c, permissions, q, FirstChoice(KeyOrOwner)) {
      FirstChoiceRole(c, permissions, q, KeyOrOwner);
    } else {
      FirstItemRole(c, markers, item, from + 1);
    }
  }

  lemma {:induction false} ListRoleEligible(c: Case, markers: seq<MarkerPermission>, items: seq<Item>)
    requires ListRole(c, markers, items).Some?
    ensures Eligible(c, KeyOrOwner, ListRole(c, markers, items).value)
  {
    if ItemPermission(c, markers, items[0], 0, None).Some? { FirstItemRole(c, markers, items[0], 0); }
    else { ListRoleEligible(c, markers, items[1..]); }
  }

  lemma {:induction false} ListUnderRole(c: Case, markers: seq<MarkerPermission>, items: seq<Item>, r: Role, acc: seq<Item>)
    ensures ListItems(c, markers, items, Listing(Some(r), acc)) == Listing(Some(r), acc + Filter(items, Visible(c, markers, r)))
  {
    if items == [] {
      assert acc + [] == acc;
    } else {
      VisibleFrom(c, markers, items[0], 0, r);
      var shown := if Visible(c, markers, r)(items[0]) then [items[0]] else [];
      ListUnderRole(c, markers, items[1..], r, acc + shown);
      assert acc + [] == acc;
      Associative(acc, shown, Filter(items[1..], Visible(c, markers, r)));
    }
  }

  /** The greedy loop shows exactly the items its one role may list. */
  lemma {:induction false} ListItemsExact(c: Case, markers: seq<MarkerPermission>, items: seq<Item>)
    ensures ListItems(c, markers, items, Listing(None, [])) == Listing(ListRole(c, markers, items), SeenBy(c, markers, items))
  {
    if items != [] {
      var first := ItemPermission(c, markers, items[0], 0, None);
      if first.Some? {
        FirstItemRole(c, markers, items[0], 0);
        assert [] + [items[0]] == [items[0]];
        ListUnderRole(c, markers, items[1..], first.value.role, [items[0]]);
      } else {
        ListItemsExact(c, markers, items[1..]);
        if ListRole(c, markers, items[1..]).Some? {
          ListRoleEligible(c, markers, items[1..]);
          NothingEligible(c, markers, items[0], 0, ListRole(c, markers, items[1..]).value);
        }
      }
    }
  }

  /** One role, for which the subject is eligible, justifies every listed item. */
  lemma OneRoleJustifies(c: Case, markers: seq<MarkerPermission>, items: seq<Item>, item: Item)
    ensures item in ListItems(c, markers, items, Listing(None, [])).items
        <==> var r := ListRole(c, markers, items);
             r.Some? && Eligible(c, KeyOrOwner, r.value) && item in items && ListableBy(c, markers, item, r.value)
  {
    ListItemsExact(c, markers, items);
    var r := ListRole(c, markers, items);
    if r.Some? {
      ListRoleEligible(c, markers, items);
      FilterMember(items, Visible(c, markers, r.value), item);
      VisibleMeaning(c, markers, item, r.value);
    }
  }

  // ----- what the listing records -----

  predicate RecordedAt(auths: seq<MarkerAuthorization>, name: JsString, p: Permission) {
    exists e | e in auths :: e.marker == name && Uses(e, p)
  }

  predicate HasEntry(auths: seq<MarkerAuthorization>, name: JsString) { exists e | e in auths :: e.marker == name }

  lemma EntryCons(auths: seq<MarkerAuthorization>, name: JsString, p: Permission)
    requires auths != []
    ensures RecordedAt(auths, name, p) <==> (auths[0].marker == name && Uses(auths[0], p)) || RecordedAt(auths[1..], name, p)
    ensures HasEntry(auths, name) <==> auths[0].marker == name || HasEntry(auths[1..], name)
  {
    assert forall e | e in auths :: e == auths[0] || e in auths[1..];
    assert auths[0] in auths;
  }

  lemma UsesMore(m: MarkerAuthorization, q: Query, p: Permission, x: Permission)
    ensures Uses(m.(actions := m.actions + [ActionAuthorization(q, p)]), x) <==> Uses(m, x) || x == p
  {
    var n := m.(actions := m.actions + [ActionAuthorization(q, p)]);
    assert n.actions[|m.actions|] in n.actions;
    assert forall a | a in m.actions :: a in n.actions;
  }

  lemma {:induction false} RecordedExact(auths: seq<MarkerAuthorization>, name: JsString, q: Query, p: Permission,
                                         n: JsString, x: Permission)
    ensures RecordedAt(Recorded(auths, name, q, p), n, x)
        <==> RecordedAt(auths, n, x) || (n == name && x == p && HasEntry(auths, name))
    ensures HasEntry(Recorded(auths, name, q, p), n) <==> HasEntry(auths, n)
  {
    if auths != [] {
      var after := Recorded(auths, name, q, p);
      EntryCons(auths, n, x);
      EntryCons(after, n, x);
      EntryCons(auths, name, p);
      if auths[0].marker != name {
        RecordedExact(auths[1..], name, q, p, n, x);
        assert after[1..] == Recorded(auths[1..], name, q, p);
      } else if !Uses(auths[0], p) {
        UsesMore(auths[0], q, p, x);
        assert after[1..] == auths[1..];
      }
    }
  }

  /** The item is found at marker `name` by permission p under role r. */
  predicate FoundBy(c: Case, markers: seq<MarkerPermission>, i: Item, r: Role, name: JsString, p: Permission) {
    ItemPermission(c, markers, i, 0, Some(r)) == Some(p) && i.markers[ItemMarker(c, markers, i, 0, Some(r))] == name
  }

  predicate SomeFoundBy(c: Case, markers: seq<MarkerPermission>, items: seq<Item>, r: Role, name: JsString, p: Permission) {
    exists i | i in items :: FoundBy(c, markers, i, r, name, p)
  }

  lemma FoundByCons(c: Case, markers: seq<MarkerPermission>, items: seq<Item>, r: Role, name: JsString, p: Permission)
    requires items != []
    ensures SomeFoundBy(c, markers, items, r, name, p)
        <==> FoundBy(c, markers, items[0], r, name, p) || SomeFoundBy(c, markers, items[1..], r, name, p)
  {
    assert forall i | i in items :: i == items[0] || i in items[1..];
  }

  lemma {:induction false} RecordedUnderRole(c: Case, markers: seq<MarkerPermission>, items: seq<Item>, r: Role,
                                             auths: seq<MarkerAuthorization>, n: JsString, x: Permission)
    ensures RecordedAt(ListAuthorizations(c, markers, items, Some(r), auths), n, x)
        <==> RecordedAt(auths, n, x) || (HasEntry(auths, n) && SomeFoundBy(c, markers, items, r, n, x))
  {
    if items != [] {
      FoundByCons(c, markers, items, r, n, x);
      var found := ItemPermission(c, markers, items[0], 0, Some(r));
      if found.Some? {
        var name, q := items[0].markers[ItemMarker(c, markers, items[0], 0, Some(r))], DataQuery(DataList, items[0].address);
        RecordedExact(auths, name, q, found.value, n, x);
        RecordedUnderRole(c, markers, items[1..], r, Recorded(auths, name, q, found.value), n, x);
      } else {
        RecordedUnderRole(c, markers, items[1..], r, auths, n, x);
      }
    }
  }

  /** The first eligible match is also the first match under its own role. */
  lemma {:induction false} FirstUnderItsRole(c: Case, permissions: seq<Permission>, q: Query, style: Style)
    requires Has(c, permissions, q, FirstChoice(style))
    ensures var p := FindPermission(c, permissions, q, FirstChoice(style)).value;
            FindPermission(c, permissions, q, Fixed(p.role)) == Some(p)
  {
    if !Grants(c, q, FirstChoice(style), permissions[0]) {
      FirstUnderItsRole(c, permissions[1..], q, style);
      FoundGrants(c, permissions[1..], q, FirstChoice(style));
    }
  }

  lemma {:induction false} SameUnderItsRole(c: Case, markers: seq<MarkerPermission>, item: Item, from: nat)
    requires from <= |item.markers| && ItemPermission(c, markers, item, from, None).Some?
    ensures var p := ItemPermission(c, markers, item, from, None).value;
            && ItemPermission(c, markers, item, from, Some(p.role)) == Some(p)
            && ItemMarker(c, markers, item, from, Some(p.role)) == ItemMarker(c, markers, item, from, None)
    decreases |item.markers| - from
  {
    var q := DataQuery(DataList, item.address);
    var permissions := PermissionsOf(markers, item.markers[from]);
    if Has(c, permissions, q, FirstChoice(KeyOrOwner)) {
      FirstUnderItsRole(c, permissions, q, KeyOrOwner);
    } else {
      SameUnderItsRole(c, markers, item, from + 1);
      FirstItemRole(c, markers, item, from + 1);
      var r := ItemPermission(c, markers, item, from + 1, None).value.role;
      if Has(c, permissions, q, Fixed(r)) { FixedNeedsEligible(c, permissions, q, KeyOrOwner, r); }
    }
  }

  lemma {:induction false} FoundInMarkers(c: Case, markers: seq<MarkerPermission>, name: JsString, q: Query, mode: Mode)
    requires Has(c, PermissionsOf(markers, name), q, mode)
    ensures HasEntry(NoActions(markers), name)
  {
    if markers != [] {
      var entries := NoActions(markers);
      assert entries[0] in entries && entries[1..] == NoActions(markers[1..]);
      if markers[0].marker != name {
        FoundInMarkers(c, markers[1..], name, q, mode);
        assert forall e | e in entries[1..] :: e in entries;
      }
    }
  }

  lemma {:induction false} ItemFoundAt(c: Case, markers: seq<MarkerPermission>, item: Item, from: nat, role: Option<Role>)
    requires from <= |item.markers| && ItemPermission(c, markers, item, from, role).Some?
    ensures HasEntry(NoActions(markers), item.markers[ItemMarker(c, markers, item, from, role)])
    decreases |item.markers| - from
  {
    var q := DataQuery(DataList, item.address);
    if Has(c, PermissionsOf(markers, item.markers[from]), q, ModeFor(role)) {
      FoundInMarkers(c, markers, item.markers[from], q, ModeFor(role));
    } else {
      ItemFoundAt(c, markers, item, from + 1, role);
    }
  }

  lemma {:induction false} NothingRecorded(markers: seq<MarkerPermission>, n: JsString, x: Permission)
    ensures !RecordedAt(NoActions(markers), n, x)
  {
    if markers != [] {
      EntryCons(NoActions(markers), n, x);
      assert NoActions(markers)[1..] == NoActions(markers[1..]);
      NothingRecorded(markers[1..], n, x);
    }
  }

  lemma {:induction false} RecordedFrom(c: Case, markers: seq<MarkerPermission>, items: seq<Item>, n: JsString, x: Permission)
    ensures RecordedAt(ListAuthorizations(c, markers, items, None, NoActions(markers)), n, x)
        <==> var r := ListRole(c, markers, items);
             r.Some? && HasEntry(NoActions(markers), n) && SomeFoundBy(c, markers, items, r.value, n, x)
  {
    NothingRecorded(markers, n, x);
    if items != [] {
      var found := ItemPermission(c, markers, items[0], 0, None);
      var r := ListRole(c, markers, items);
      if r.Some? { FoundByCons(c, markers, items, r.value, n, x); }
      if found.Some? {
        var name, q := items[0].markers[ItemMarker(c, markers, items[0], 0, None)], DataQuery(DataList, items[0].address);
        SameUnderItsRole(c, markers, items[0], 0);
        RecordedExact(NoActions(markers), name, q, found.value, n, x);
        RecordedUnderRole(c, markers, items[1..], found.value.role, Recorded(NoActions(markers), name, q, found.value), n, x);
      } else {
        RecordedFrom(c, markers, items[1..], n, x);
        if r.Some? {
          ListRoleEligible(c, markers, items);
          NothingEligible(c, markers, items[0], 0, r.value);
        }
      }
    }
  }

  /** A listing records, marker by marker, exactly the permissions by which its
      items are found under its one role. */
  lemma ListAuthorizationsExact(c: Case, markers: seq<MarkerPermission>, items: seq<Item>, n: JsString, x: Permission)
    ensures RecordedAt(AuthorizeSubject(c, markers, ListData(items)).markers, n, x)
        <==> var r := ListRole(c, markers, items); r.Some? && SomeFoundBy(c, markers, items, r.value, n, x)
  {
    RecordedFrom(c, markers, items, n, x);
    var r := ListRole(c, markers, items);
    if r.Some? && SomeFoundBy(c, markers, items, r.value, n, x) {
      var i :| i in items && FoundBy(c, markers, i, r.value, n, x);
      ItemFoundAt(c, markers, i, 0, Some(r.value));
    }
  }

  /** A listing is always answered, with its one role; with everyone's where it has none, or one of no name. */
  lemma ListRoleAnswered(c: Case, markers: seq<MarkerPermission>, items: seq<Item>)
    ensures var result, role := AuthorizeSubject(c, markers, ListData(items)), ListRole(c, markers, items);
            result.Granted? && result.role == if role.None? || role == Some(Named([])) then Everyone else role.value
  {
    ListItemsExact(c, markers, items);
  }

  // ----- several subjects -----

  function AddressOf(): Item -> JsString { (i: Item) => i.address }

  function AddressIn(addresses: set<JsString>): Item -> bool { (i: Item) => i.address in addresses }

  lemma {:induction false} FilterDistinct(xs: seq<Item>, p: Item -> bool)
    requires KeysDistinct(xs, AddressOf())
    ensures KeysDistinct(Filter(xs, p), AddressOf())
  {
    if xs != [] {
      var rest := Filter(xs[1..], p);
      FilterDistinct(xs[1..], p);
      forall i | 0 <= i < |rest| ensures rest[i].address != xs[0].address {
        FilterMember(xs[1..], p, rest[i]);
      }
    }
  }

  lemma {:induction false} IntersectDistinct(a: seq<Item>, b: seq<Item>)
    requires KeysDistinct(a, AddressOf())
    ensures IntersectByAddress(a, b) == Filter(a, AddressIn(Addresses(b)))
  {
    if a != [] {
      var init, last := a[..|a| - 1], a[|a| - 1];
      assert a == init + [last];
      IntersectDistinct(init, b);
      FilterSnoc(init, last, AddressIn(Addresses(b)));
      forall x | x in Filter(init, AddressIn(Addresses(b))) ensures x.address != last.address {
        FilterMember(init, AddressIn(Addresses(b)), x);
        assert forall i | 0 <= i < |init| :: init[i] == a[i];
      }
    }
  }

  /** On sublists of one list with distinct addresses, intersecting by address is intersecting. */
  lemma IntersectSublists(items: seq<Item>, p: Item -> bool, b: seq<Item>)
    requires KeysDistinct(items, AddressOf()) && forall x | x in b :: x in items
    ensures IntersectByAddress(Filter(items, p), b) == Filter(items, Both(p, (i: Item) => i in b))
  {
    FilterDistinct(items, p);
    IntersectDistinct(Filter(items, p), b);
    FilterFilter(items, p, AddressIn(Addresses(b)));
    forall x | x in items ensures x.address in Addresses(b) <==> x in b {
      if x.address in Addresses(b) {
        var y :| y in b && y.address == x.address;
        var i :| 0 <= i < |items| && items[i] == x;
        var j :| 0 <= j < |items| && items[j] == y;
        assert i == j;
      }
    }
    FilterSame(items, Both(p, AddressIn(Addresses(b))), Both(p, (i: Item) => i in b));
  }

  /** The items of one subject, when it is checked on its own. */
  function ListOf(s: Setting, markers: seq<MarkerPermission>, items: seq<Item>, kind: SubjectKind,
                  id: Option<JsString>): seq<Item> {
    SeenBy(s.CaseOf(kind, id), markers, items)
  }

  predicate SeenByInstances(s: Setting, markers: seq<MarkerPermission>, items: seq<Item>, insts: seq<JsString>, i: Item) {
    forall inst | inst in insts :: i in ListOf(s, markers, items, Inst, Some(inst))
  }

  function With(p: Item -> bool, s: Setting, markers: seq<MarkerPermission>, items: seq<Item>,
                insts: seq<JsString>): Item -> bool {
    (i: Item) => p(i) && SeenByInstances(s, markers, items, insts, i)
  }

  lemma {:induction false} InstancesNarrow(s: Setting, markers: seq<MarkerPermission>, items: seq<Item>, insts: seq<JsString>,
                                           p: Item -> bool, done: seq<InstAuthorization>)
    requires KeysDistinct(items, AddressOf()) && s.ctx.recordKey.None?
    ensures var r := AuthorizeInstances(s, markers, ListData(items), insts, Some(Filter(items, p)), done);
            r.InstsAllowed? && r.items == Some(Filter(items, With(p, s, markers, items, insts)))
  {
    if insts == [] {
      FilterSame(items, p, With(p, s, markers, items, insts));
    } else {
      var q := Both(p, (i: Item) => i in ListOf(s, markers, items, Inst, Some(insts[0])));
      NarrowOnce(s, markers, items, insts[0], p);
      var r := AuthorizeSubject(s.CaseOf(Inst, Some(insts[0])), markers, ListData(items));
      InstancesNarrow(s, markers, items, insts[1..], q, done + [InstAllowed(insts[0], r.role, r.markers)]);
      WithOneMore(s, markers, items, insts, p);
    }
  }

  lemma NarrowOnce(s: Setting, markers: seq<MarkerPermission>, items: seq<Item>, inst: JsString, p: Item -> bool)
    requires KeysDistinct(items, AddressOf())
    ensures var c := s.CaseOf(Inst, Some(inst));
            && AuthorizeSubject(c, markers, ListData(items)).Granted?
            && Narrow(Some(Filter(items, p)), AllowedItems(c, markers, ListData(items)))
               == Some(Filter(items, Both(p, (i: Item) => i in ListOf(s, markers, items, Inst, Some(inst)))))
  {
    var c := s.CaseOf(Inst, Some(inst));
    var list := SeenBy(c, markers, items);
    ListItemsExact(c, markers, items);
    forall x | x in list ensures x in items { OneRoleJustifies(c, markers, items, x); }
    IntersectSublists(items, p, list);
    FilterSame(items, Both(p, (i: Item) => i in list), Both(p, (i: Item) => i in ListOf(s, markers, items, Inst, Some(inst))));
  }

  lemma WithOneMore(s: Setting, markers: seq<MarkerPermission>, items: seq<Item>, insts: seq<JsString>, p: Item -> bool)
    requires insts != []
    ensures var q := Both(p, (i: Item) => i in ListOf(s, markers, items, Inst, Some(insts[0])));
            Filter(items, With(q, s, markers, items, insts[1..])) == Filter(items, With(p, s, markers, items, insts))
  {
    var q := Both(p, (i: Item) => i in ListOf(s, markers, items, Inst, Some(insts[0])));
    forall x | x in items
      ensures With(q, s, markers, items, insts[1..])(x) == With(p, s, markers, items, insts)(x)
    {
      assert forall inst | inst in insts :: inst == insts[0] || inst in insts[1..];
    }
    FilterSame(items, With(q, s, markers, items, insts[1..]), With(p, s, markers, items, insts));
  }

  lemma {:induction false} InstancesSkipped(s: Setting, markers: seq<MarkerPermission>, items: seq<Item>, insts: seq<JsString>,
                                            current: Option<seq<Item>>, done: seq<InstAuthorization>)
    requires s.ctx.recordKey.Some?
    ensures var r := AuthorizeInstances(s, markers, ListData(items), insts, current, done);
            r.InstsAllowed? && r.items == current
  {
    if insts != [] { InstancesSkipped(s, markers, items, insts[1..], current, done + [NotRequired(insts[0])]); }
  }

  function MayList(s: Setting, who: Requester, items: seq<Item>): Item -> bool {
    var markers := MarkersOf(s.st, s.ctx.recordName, ListData(items).Markers());
    With((i: Item) => i in ListOf(s, markers, items, User, who.userId), s, markers, items, Checked(s, who, ListData(items)))
  }

  lemma SelfFilter(items: seq<Item>, p: Item -> bool)
    ensures Filter(items, p) == Filter(items, (i: Item) => i in Filter(items, p))
  {
    forall x | x in items ensures p(x) == (x in Filter(items, p)) { FilterMember(items, p, x); }
    FilterSame(items, p, (i: Item) => i in Filter(items, p));
  }

  lemma SeenByIsFilter(c: Case, markers: seq<MarkerPermission>, items: seq<Item>)
    ensures SeenBy(c, markers, items) == Filter(items, (i: Item) => i in SeenBy(c, markers, items))
  {
    var r := ListRole(c, markers, items);
    if r.Some? { SelfFilter(items, Visible(c, markers, r.value)); }
    else { NoneKept(items, (i: Item) => i in SeenBy(c, markers, items)); }
  }

  lemma {:induction false} NoneKept(items: seq<Item>, p: Item -> bool)
    requires forall x :: !p(x)
    ensures Filter(items, p) == []
  {
    if items != [] { NoneKept(items[1..], p); }
  }

  /** A list request is allowed unless it names no marker or too many
      instances, and returns, in the request's order, exactly the items that the
      user and every checked instance may list. */
  lemma ListExact(s: Setting, who: Requester, items: seq<Item>)
    requires KeysDistinct(items, AddressOf())
    ensures var r := Authorize(s, who, ListData(items));
            && (r.Allowed? <==> |OrEmpty(who.instances)| <= MAX_ALLOWED_INSTANCES && ListData(items).Markers() != [])
            && (r.Allowed? ==> r.items == Some(Filter(items, MayList(s, who, items))))
  {
    var req := ListData(items);
    var markers := MarkersOf(s.st, s.ctx.recordName, req.Markers());
    var user := s.CaseOf(User, who.userId);
    ListItemsExact(user, markers, items);
    SeenByIsFilter(user, markers, items);
    var p := (i: Item) => i in ListOf(s, markers, items, User, who.userId);
    FilterSame(items, p, (i: Item) => i in SeenBy(user, markers, items));
    assert AllowedItems(user, markers, req) == Some(Filter(items, p));
    if s.ctx.recordKey.None? {
      InstancesNarrow(s, markers, items, OrEmpty(who.instances), p, []);
      FilterSame(items, With(p, s, markers, items, OrEmpty(who.instances)), MayList(s, who, items));
    } else {
      InstancesSkipped(s, markers, items, OrEmpty(who.instances), Some(Filter(items, p)), []);
      FilterSame(items, p, MayList(s, who, items));
    }
  }

  /** The order (and repetition) of the instances does not matter. */
  lemma ListIgnoresInstanceOrder(s: Setting, userId: Option<JsString>, a: seq<JsString>, b: seq<JsString>, items: seq<Item>)
    requires KeysDistinct(items, AddressOf()) && |a| <= MAX_ALLOWED_INSTANCES && |b| <= MAX_ALLOWED_INSTANCES
    requires forall i :: i in a <==> i in b
    ensures var x := Authorize(s, Requester(userId, Some(a)), ListData(items));
            var y := Authorize(s, Requester(userId, Some(b)), ListData(items));
            && (x.Allowed? <==> y.Allowed?)
            && (x.Allowed? ==> x.items == y.items)
  {
    var wa, wb := Requester(userId, Some(a)), Requester(userId, Some(b));
    ListExact(s, wa, items);
    ListExact(s, wb, items);
    var markers := MarkersOf(s.st, s.ctx.recordName, ListData(items).Markers());
    forall x | x in items ensures MayList(s, wa, items)(x) == MayList(s, wb, items)(x) {
      assert SeenByInstances(s, markers, items, a, x) <==> SeenByInstances(s, markers, items, b, x);
    }
    FilterSame(items, MayList(s, wa, items), MayList(s, wb, items));
  }
}
