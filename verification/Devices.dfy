/** The device/channel index of DeviceManagerImpl.ts: two maps of lists that
    must describe one relation, with multiplicity. */
module Devices {
  import opened JsStrings
  import opened Sequences

  datatype ChannelInfo = ChannelInfo(id: JsString, kind: JsString)

  function ChannelId(info: ChannelInfo): JsString {
    info.id + [COLON] + info.kind
  }

  function HasId(id: JsString): ChannelInfo -> bool { (i: ChannelInfo) => ChannelId(i) == id }
  function Is<D(==)>(d: D): D -> bool { (x: D) => x == d }
  function IsNot<D(==)>(d: D): D -> bool { (x: D) => x != d }

  /** The map with the first element of k's list that satisfies p spliced out. */
  function Dropped<K(==), T>(m: map<K, seq<T>>, k: K, p: T -> bool): (r: map<K, seq<T>>)
    ensures r.Keys == m.Keys
    ensures forall j | j in m && j != k :: r[j] == m[j]
    ensures k in m ==> r[k] == RemoveFirst(m[k], p)
  {
    if k in m && FindIndex(m[k], p) != -1 then m[k := RemoveAt(m[k], FindIndex(m[k], p))] else m
  }

  datatype Index<D(==)> = Index(connected: map<D, seq<ChannelInfo>>, channels: map<JsString, seq<D>>) {
    function ChannelsOf(d: D): seq<ChannelInfo> {
      if d in connected then connected[d] else []
    }

    function DevicesOf(id: JsString): seq<D> {
      if id in channels then channels[id] else []
    }

    function Connect(d: D): Index<D> {
      this.(connected := connected[d := []])
    }

    function Join(d: D, info: ChannelInfo): Index<D> {
      var id := ChannelId(info);
      Index(if d in connected then connected[d := connected[d] + [info]] else connected,
            channels[id := DevicesOf(id) + [d]])
    }

    function Leave(d: D, info: ChannelInfo): Index<D> {
      var id := ChannelId(info);
      Index(Dropped(connected, d, HasId(id)), Dropped(channels, id, Is(d)))
    }

    function LeaveAll(d: D, infos: seq<ChannelInfo>): Index<D>
      decreases |infos|
    {
      if infos == [] then this else Leave(d, infos[0]).LeaveAll(d, infos[1..])
    }

    function Disconnect(d: D): Index<D> {
      var left := LeaveAll(d, ChannelsOf(d));
      left.(connected := left.connected - {d})
    }
  }

  /** A device occurs in a channel's list as often as the channel in the device's. */
  ghost predicate SameMultiplicity<D>(s: Index<D>, d: D, id: JsString) {
    Count(s.ChannelsOf(d), HasId(id)) == Count(s.DevicesOf(id), Is(d))
  }

  ghost predicate Dual<D>(s: Index<D>) {
    && (forall d, id | d in s.connected :: SameMultiplicity(s, d, id))
    && (forall id, d | id in s.channels && d in s.channels[id] :: d in s.connected)
  }

  lemma JoinStep<D>(s: Index<D>, d: D, info: ChannelInfo, e: D, id: JsString)
    requires SameMultiplicity(s, e, id) && d in s.connected
    ensures SameMultiplicity(s.Join(d, info), e, id)
  {
    CountSnoc(s.ChannelsOf(d), info, HasId(id));
    CountSnoc(s.DevicesOf(ChannelId(info)), d, Is(e));
  }

  /** Joining keeps the index dual exactly when the device is connected: a
      stranger is entered on the channel's side only. */
  lemma JoinDual<D>(s: Index<D>, d: D, info: ChannelInfo)
    requires Dual(s)
    ensures Dual(s.Join(d, info)) <==> d in s.connected
  {
    var t := s.Join(d, info);
    if d in s.connected {
      forall e, id | e in t.connected ensures SameMultiplicity(t, e, id) {
        assert SameMultiplicity(s, e, id);
        JoinStep(s, d, info, e, id);
      }
    } else {
      var list := t.channels[ChannelId(info)];
      assert list[|list| - 1] == d;
    }
  }

  lemma LeaveStep<D>(s: Index<D>, d: D, info: ChannelInfo, e: D, id: JsString)
    requires SameMultiplicity(s, e, id) && d in s.connected
    ensures SameMultiplicity(s.Leave(d, info), e, id)
  {
    var left := ChannelId(info);
    if e == d {
      if id == left { CountRemoveSame(s.ChannelsOf(d), HasId(id)); }
      else { RemoveKeepsOthers(s.ChannelsOf(d), HasId(left), HasId(id)); }
    }
    if id == left {
      if e == d { CountRemoveSame(s.DevicesOf(id), Is(d)); }
      else { RemoveKeepsOthers(s.DevicesOf(id), Is(d), Is(e)); }
    }
  }

  /** Joining adds one entry at the end of the channel's list and, for a
      connected device, one at the end of the device's; no other entry changes. */
  lemma JoinChanges<D>(s: Index<D>, d: D, info: ChannelInfo, e: D, id: JsString)
    ensures var t := s.Join(d, info);
            && s.DevicesOf(id) <= t.DevicesOf(id) && s.ChannelsOf(e) <= t.ChannelsOf(e) && t.connected.Keys == s.connected.Keys
            && (if id == ChannelId(info)
                then |t.DevicesOf(id)| == |s.DevicesOf(id)| + 1 && t.DevicesOf(id)[|s.DevicesOf(id)|] == d
                else t.DevicesOf(id) == s.DevicesOf(id))
            && (if e == d && d in s.connected
                then |t.ChannelsOf(e)| == |s.ChannelsOf(e)| + 1 && t.ChannelsOf(e)[|s.ChannelsOf(e)|] == info
                else t.ChannelsOf(e) == s.ChannelsOf(e))
            && (Count(t.DevicesOf(id), Is(e))
                == Count(s.DevicesOf(id), Is(e)) + if id == ChannelId(info) && e == d then 1 else 0)
  {
    CountSnoc(s.DevicesOf(ChannelId(info)), d, Is(e));
  }

  lemma LeaveLists<D>(s: Index<D>, d: D, info: ChannelInfo, e: D, id: JsString)
    ensures var t, left := s.Leave(d, info), ChannelId(info);
            && t.DevicesOf(id) == (if id == left then RemoveFirst(s.DevicesOf(left), Is(d)) else s.DevicesOf(id))
            && t.ChannelsOf(e) == (if e == d then RemoveFirst(s.ChannelsOf(d), HasId(left)) else s.ChannelsOf(e))
  {}

  /** Leaving takes one entry off the channel's list, where there is one, and leaves all others in their order. */
  lemma LeaveChanges<D>(s: Index<D>, d: D, info: ChannelInfo, id: JsString)
    ensures var t, left := s.Leave(d, info), ChannelId(info);
            && Filter(t.DevicesOf(id), IsNot(d)) == Filter(s.DevicesOf(id), IsNot(d))
            && (id != left ==> t.DevicesOf(id) == s.DevicesOf(id))
            && Count(t.DevicesOf(left), Is(d)) == (if Count(s.DevicesOf(left), Is(d)) == 0 then 0
                                                   else Count(s.DevicesOf(left), Is(d)) - 1)
  {
    var left := ChannelId(info);
    LeaveLists(s, d, info, d, id);
    LeaveLists(s, d, info, d, left);
    CountRemoveSame(s.DevicesOf(left), Is(d));
    RemoveKeepsOthers(s.DevicesOf(left), Is(d), IsNot(d));
  }

  /** And one entry off the device's list, where there is one. */
  lemma LeaveChangesOwn<D>(s: Index<D>, d: D, info: ChannelInfo, e: D, id: JsString)
    requires id != ChannelId(info)
    ensures var t, left := s.Leave(d, info), ChannelId(info);
            && (e != d ==> t.ChannelsOf(e) == s.ChannelsOf(e))
            && Filter(t.ChannelsOf(d), HasId(id)) == Filter(s.ChannelsOf(d), HasId(id))
            && Count(t.ChannelsOf(d), HasId(left)) == (if Count(s.ChannelsOf(d), HasId(left)) == 0 then 0
                                                       else Count(s.ChannelsOf(d), HasId(left)) - 1)
  {
    var left := ChannelId(info);
    LeaveLists(s, d, info, e, id);
    LeaveLists(s, d, info, d, id);
    CountRemoveSame(s.ChannelsOf(d), HasId(left));
    RemoveKeepsOthers(s.ChannelsOf(d), HasId(left), HasId(id));
  }

  lemma RemoveFirstSubset<T>(xs: seq<T>, p: T -> bool)
    ensures forall x | x in RemoveFirst(xs, p) :: x in xs
  {}

  lemma LeaveDual<D>(s: Index<D>, d: D, info: ChannelInfo)
    requires Dual(s)
    ensures Dual(s.Leave(d, info))
  {
    var t, id' := s.Leave(d, info), ChannelId(info);
    if d in s.connected {
      forall e, id | e in t.connected ensures SameMultiplicity(t, e, id) {
        assert SameMultiplicity(s, e, id);
        LeaveStep(s, d, info, e, id);
      }
      RemoveFirstSubset(s.DevicesOf(id'), Is(d));
    } else if id' in s.channels {
      assert FindIndex(s.channels[id'], Is(d)) == -1;
      assert t == s;
    }
  }

  /** What leaving a list of channels does to one channel: others keep their
      places, and d loses one entry for each time the channel is listed. */
  lemma {:induction false} LeaveAllAt<D>(s: Index<D>, d: D, infos: seq<ChannelInfo>, id: JsString)
    ensures var t := s.LeaveAll(d, infos);
            && t.channels.Keys == s.channels.Keys
            && t.connected.Keys == s.connected.Keys
            && t.connected - {d} == s.connected - {d}
            && Filter(t.DevicesOf(id), IsNot(d)) == Filter(s.DevicesOf(id), IsNot(d))
            && Count(t.DevicesOf(id), Is(d))
               == if Count(s.DevicesOf(id), Is(d)) <= Count(infos, HasId(id)) then 0
                  else Count(s.DevicesOf(id), Is(d)) - Count(infos, HasId(id))
    decreases |infos|
  {
    if infos != [] {
      var one := s.Leave(d, infos[0]);
      LeaveAllAt(one, d, infos[1..], id);
      assert one.connected - {d} == s.connected - {d};
      if id in s.channels && ChannelId(infos[0]) == id {
        CountRemoveSame(s.channels[id], Is(d));
        RemoveKeepsOthers(s.channels[id], Is(d), IsNot(d));
      }
    }
  }

  /** Disconnecting takes the device out of every channel and touches nothing
      else: other devices keep their channels, entries and order. */
  lemma DisconnectExact<D>(s: Index<D>, d: D)
    requires Dual(s)
    ensures s.Disconnect(d)
         == Index(s.connected - {d}, map id | id in s.channels :: Filter(s.channels[id], IsNot(d)))
  {
    var infos := s.ChannelsOf(d);
    var t := s.LeaveAll(d, infos);
    LeaveAllAt(s, d, infos, []);
    forall id | id in s.channels ensures t.channels[id] == Filter(s.channels[id], IsNot(d)) {
      LeaveAllAt(s, d, infos, id);
      StrangerCount(s, d, id);
      CountPositive(t.channels[id], Is(d));
      FilterAll(t.channels[id], IsNot(d));
    }
    assert t.channels == map id | id in s.channels :: Filter(s.channels[id], IsNot(d));
  }

  lemma StrangerCount<D>(s: Index<D>, d: D, id: JsString)
    requires Dual(s)
    ensures Count(s.DevicesOf(id), Is(d)) == Count(s.ChannelsOf(d), HasId(id))
  {
    if d in s.connected {
      assert SameMultiplicity(s, d, id);
    } else {
      CountPositive(s.DevicesOf(id), Is(d));
    }
  }

  lemma DisconnectDual<D>(s: Index<D>, d: D)
    requires Dual(s)
    ensures Dual(s.Disconnect(d))
    ensures forall id | id in s.Disconnect(d).channels :: d !in s.Disconnect(d).channels[id]
  {
    DisconnectExact(s, d);
    var t := s.Disconnect(d);
    forall id, e | id in t.channels && e in t.channels[id] ensures e in t.connected && e != d {
      FilterMember(s.channels[id], IsNot(d), e);
    }
    forall e, id | e in t.connected ensures SameMultiplicity(t, e, id) {
      assert SameMultiplicity(s, e, id);
      CountFilter(s.DevicesOf(id), IsNot(d), Is(e));
    }
  }

  // ----- every run -----

  datatype Op<D> = Connect(d: D) | Join(d: D, info: ChannelInfo) | Leave(d: D, info: ChannelInfo) | Disconnect(d: D)

  function Apply<D(==)>(s: Index<D>, op: Op<D>): Index<D> {
    match op
    case Connect(d) => s.Connect(d)
    case Join(d, info) => s.Join(d, info)
    case Leave(d, info) => s.Leave(d, info)
    case Disconnect(d) => s.Disconnect(d)
  }

  /** A connected object is a new one, and only connected devices join. */
  predicate Enabled<D(==)>(s: Index<D>, op: Op<D>) {
    match op
    case Connect(d) => d !in s.connected
    case Join(d, _) => d in s.connected
    case _ => true
  }

  function Run<D(==)>(ops: seq<Op<D>>): Index<D> {
    if ops == [] then Index(map[], map[]) else Apply(Run(ops[..|ops| - 1]), ops[|ops| - 1])
  }

  predicate EnabledRun<D(==)>(ops: seq<Op<D>>) {
    ops != [] ==> EnabledRun(ops[..|ops| - 1]) && Enabled(Run(ops[..|ops| - 1]), ops[|ops| - 1])
  }

  lemma ConnectDual<D>(s: Index<D>, d: D)
    requires Dual(s) && d !in s.connected
    ensures Dual(s.Connect(d))
  {
    var t := s.Connect(d);
    forall e, id | e in t.connected ensures SameMultiplicity(t, e, id) {
      if e == d { StrangerCount(s, d, id); } else { assert SameMultiplicity(s, e, id); }
    }
  }

  /** The two maps describe the same relation after every run. */
  lemma {:induction false} RunDual<D>(ops: seq<Op<D>>)
    requires EnabledRun(ops)
    ensures Dual(Run(ops))
  {
    if ops != [] {
      var s := Run(ops[..|ops| - 1]);
      RunDual(ops[..|ops| - 1]);
      match ops[|ops| - 1]
      case Connect(d) => ConnectDual(s, d);
      case Join(d, info) => JoinDual(s, d, info);
      case Leave(d, info) => LeaveDual(s, d, info);
      case Disconnect(d) => DisconnectDual(s, d);
    }
  }

  // ----- channel ids -----

  lemma {:induction false} SplitAtLastColon(a: JsString, b: JsString, c: JsString, d: JsString)
    requires a + [COLON] + b == c + [COLON] + d && |b| <= |d|
    ensures if |b| == |d| then a == c && b == d else d[|d| - |b| - 1..] == [COLON] + b
  {
    var s := a + [COLON] + b;
    assert s[|s| - |b|..] == b && s[|s| - |d|..] == d;
    if |b| == |d| {
      assert s[..|a|] == a && s[..|c|] == c;
    } else {
      assert s[|a|] == COLON;
      assert d[|d| - |b| - 1..] == s[|a|..] == [COLON] + b;
    }
  }

  /** Two kinds are confusable when one ends in a colon and the other. */
  predicate Confusable(k1: JsString, k2: JsString) {
    || (|k1| < |k2| && k2[|k2| - |k1| - 1..] == [COLON] + k1)
    || (|k2| < |k1| && k1[|k1| - |k2| - 1..] == [COLON] + k2)
  }

  /** Channel ids tell all channels of two kinds apart exactly when the kinds
      are not confusable; so kinds without a colon are always safe. */
  lemma ChannelIdInjective(k1: JsString, k2: JsString)
    ensures (forall i1, i2 :: ChannelId(ChannelInfo(i1, k1)) == ChannelId(ChannelInfo(i2, k2)) ==> i1 == i2 && k1 == k2)
        <==> !Confusable(k1, k2)
    ensures COLON !in k1 && COLON !in k2 ==> !Confusable(k1, k2)
  {
    forall i1, i2 | ChannelId(ChannelInfo(i1, k1)) == ChannelId(ChannelInfo(i2, k2))
      ensures (i1 == i2 && k1 == k2) || Confusable(k1, k2)
    {
      if |k1| <= |k2| { SplitAtLastColon(i1, k1, i2, k2); } else { SplitAtLastColon(i2, k2, i1, k1); }
    }
    if |k1| < |k2| && k2[|k2| - |k1| - 1..] == [COLON] + k1 { Confused(k1, k2); }
    if |k2| < |k1| && k1[|k1| - |k2| - 1..] == [COLON] + k2 { Confused(k2, k1); }
  }

  lemma Confused(short: JsString, long: JsString)
    requires |short| < |long| && long[|long| - |short| - 1..] == [COLON] + short
    ensures COLON in long
    ensures var id := [COLON] + long[..|long| - |short| - 1];
            ChannelId(ChannelInfo(id, short)) == ChannelId(ChannelInfo([], long)) && id != []
  {
    assert long[|long| - |short| - 1] == ([COLON] + short)[0];
    assert long == long[..|long| - |short| - 1] + long[|long| - |short| - 1..];
  }

  // ----- the class -----

  class DeviceConnection {
    const id: JsString
    constructor (id: JsString)
      ensures this.id == id
    { this.id := id; }
  }

  class DeviceManagerImpl {
    var connectedDevices: map<DeviceConnection, seq<ChannelInfo>>
    var activeChannels: map<JsString, seq<DeviceConnection>>

    ghost function State(): Index<DeviceConnection>
      reads this
    {
      Index(connectedDevices, activeChannels)
    }

    constructor ()
      ensures State() == Index(map[], map[])
    {
      connectedDevices, activeChannels := map[], map[];
    }

    method GetConnectedChannels(device: DeviceConnection) returns (channels: seq<ChannelInfo>)
      ensures channels == State().ChannelsOf(device)
    {
      channels := if device in connectedDevices then connectedDevices[device] else [];
    }

    method GetConnectedDevices(info: ChannelInfo) returns (devices: seq<DeviceConnection>)
      ensures devices == State().DevicesOf(ChannelId(info))
    {
      var id := ChannelId(info);
      devices := if id in activeChannels then activeChannels[id] else [];
    }

    method ConnectDevice(deviceId: JsString) returns (device: DeviceConnection)
      modifies this
      ensures fresh(device) && device.id == deviceId
      ensures device !in old(connectedDevices)
      ensures State() == old(State()).Connect(device)
    {
      device := new DeviceConnection(deviceId);
      connectedDevices := connectedDevices[device := []];
    }

    method JoinChannel(device: DeviceConnection, info: ChannelInfo) returns (channel: ChannelInfo)
      modifies this
      ensures channel == info && State() == old(State()).Join(device, info)
    {
      channel := info;
      if device in connectedDevices {
        connectedDevices := connectedDevices[device := connectedDevices[device] + [channel]];
      }
      var id := ChannelId(info);
      if id !in activeChannels {
        activeChannels := activeChannels[id := []];
      }
      activeChannels := activeChannels[id := activeChannels[id] + [device]];
    }

    method LeaveChannel(device: DeviceConnection, info: ChannelInfo)
      modifies this
      ensures State() == old(State()).Leave(device, info)
    {
      var id := ChannelId(info);
      if device in connectedDevices {
        var list := connectedDevices[device];
        var index := FindIndex(list, HasId(id));
        if index >= 0 {
          connectedDevices := connectedDevices[device := RemoveAt(list, index)];
        }
      }
      if id in activeChannels {
        var list := activeChannels[id];
        var index := FindIndex(list, Is(device));
        if index >= 0 {
          activeChannels := activeChannels[id := RemoveAt(list, index)];
        }
      }
    }

    method DisconnectDevice(device: DeviceConnection)
      modifies this
      ensures State() == old(State()).Disconnect(device)
    {
      var channels := GetConnectedChannels(device);
      for i := 0 to |channels|
        invariant State().LeaveAll(device, channels[i..]) == old(State()).LeaveAll(device, channels)
      {
        assert channels[i..][1..] == channels[i + 1..];
        LeaveChannel(device, channels[i]);
      }
      connectedDevices := connectedDevices - {device};
    }
  }
}
