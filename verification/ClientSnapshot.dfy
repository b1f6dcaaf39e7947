/** A dump of the neighbour table to a client and its reconstruction: the table is flattened into
    numbered messages with 16-bit counters and rebuilt by a fold on the other side. */
module ClientSnapshot {
  import opened Common
  import opened W = ClientWire
  import T = NeighbourTable

  const COUNTERS := 0x1_0000

  // ---------- The service's side ----------

  /** One chassis and its ports, in the iteration order of the service's two maps. */
  datatype Group = Group(chassis: Bytes, entries: seq<T.Entry>)

  type Devices = map<Uint32, DeviceData>

  function LocalName(e: T.Entry, devices: Devices): Option<Bytes> {
    if e.interfaceIndex in devices then devices[e.interfaceIndex].name else None
  }

  /** What the fixed arrays have room for; the service does not check it. */
  predicate Sendable(e: T.Entry, devices: Devices) {
    && |e.port| <= PORT_SIZE
    && (LocalName(e, devices).Some? ==> |LocalName(e, devices).value| <= IF_NAMESIZE)
  }

  predicate AllSendable(groups: seq<Group>, devices: Devices) {
    forall g <- groups, e <- g.entries :: Sendable(e, devices)
  }

  function NameMessages(n: Uint16, e: T.Entry, devices: Devices): seq<Message> {
    var name := LocalName(e, devices);
    if name.Some? then [LocalInterface(n, e.interfaceIndex, name.value)] else []
  }

  function AddressMessages(n: Uint16, e: T.Entry): seq<Message> {
    (if e.ipv4.Some? then [Ip(n, e.ipv4.value)] else []) +
    (if e.ipv6.Some? then [Ip6(n, e.ipv6.value)] else [])
  }

  function EntryMessages(c: Uint16, n: Uint16, e: T.Entry, devices: Devices): seq<Message> {
    [Neighbour(c, n, e.port)] + (NameMessages(n, e, devices) + AddressMessages(n, e))
  }

  /** The increment of a 16-bit counter. */
  function Incremented(n: Uint16): Uint16 {
    if n == COUNTERS - 1 then 0 else n + 1
  }

  function Advanced(n: Uint16, k: nat): Uint16
    decreases k
  {
    if k == 0 then n else Advanced(Incremented(n), k - 1)
  }

  lemma {:induction false} AdvancedWraps(n: Uint16, k: nat)
    ensures Advanced(n, k) == (n + k) % COUNTERS
    decreases k
  {
    if k > 0 {
      AdvancedWraps(Incremented(n), k - 1);
    }
  }

  lemma {:induction false} AdvancedTwice(n: Uint16, k: nat, l: nat)
    ensures Advanced(Advanced(n, k), l) == Advanced(n, k + l)
    decreases k
  {
    if k > 0 {
      AdvancedTwice(Incremented(n), k - 1, l);
    }
  }

  /** The entries of chassis number `c`, the first of which is neighbour number `start`. */
  function EntriesMessages(c: Uint16, start: Uint16, es: seq<T.Entry>, devices: Devices): seq<Message>
    decreases |es|
  {
    if es == [] then [] else
      EntryMessages(c, start, es[0], devices) + EntriesMessages(c, Incremented(start), es[1..], devices)
  }

  /** A chassis identifier too long for its packet is left out, its ports are not. */
  function ChassisMessages(c: Uint16, chassis: Bytes): seq<Message> {
    if |chassis| <= CHASSIS_NAME_SIZE then [Chassis(c, chassis)] else []
  }

  function GroupMessages(c: Uint16, start: Uint16, g: Group, devices: Devices): seq<Message> {
    ChassisMessages(c, g.chassis) + EntriesMessages(c, start, g.entries, devices)
  }

  function DumpMessages(c: Uint16, start: Uint16, groups: seq<Group>, devices: Devices): seq<Message>
    decreases |groups|
  {
    if groups == [] then [] else
      GroupMessages(c, start, groups[0], devices) +
      DumpMessages(Incremented(c), Advanced(start, |groups[0].entries|), groups[1..], devices)
  }

  // ---------- The client's side ----------

  datatype Device = Device(
    chassis: Bytes,
    port: Bytes,
    localName: Option<Bytes>,
    ipv4: Option<Ipv4>,
    ipv6: Option<Ipv6>)

  /** The two maps a client builds while it reads a dump. */
  datatype View = View(names: map<Uint16, Bytes>, devices: map<Uint16, Device>)

  const EMPTY_VIEW := View(map[], map[])

  function NameOf(names: map<Uint16, Bytes>, c: Uint16): Bytes {
    if c in names then names[c] else []
  }

  function DeviceOf(v: View, n: Uint16): Device {
    if n in v.devices then v.devices[n] else Device([], [], None, None, None)
  }

  function Process(v: View, m: Message): View {
    match m
    case Chassis(c, name) => v.(names := v.names[c := name])
    case Neighbour(c, n, port) =>
      View(v.names[c := NameOf(v.names, c)], v.devices[n := Device(NameOf(v.names, c), port, None, None, None)])
    case Ip(n, a) => v.(devices := v.devices[n := DeviceOf(v, n).(ipv4 := Some(a))])
    case Ip6(n, a) => v.(devices := v.devices[n := DeviceOf(v, n).(ipv6 := Some(a))])
    case LocalInterface(n, _, name) => v.(devices := v.devices[n := DeviceOf(v, n).(localName := Some(name))])
  }

  /** The view after a number of messages, each as the client sees it. */
  function Fold(v: View, ms: seq<Message>): View
    decreases |ms|
  {
    if ms == [] then v else Fold(Process(v, AsSeen(ms[0])), ms[1..])
  }

  // ---------- What a dump means ----------

  function SeenDevice(chassis: Bytes, e: T.Entry, devices: Devices): Device {
    var name := LocalName(e, devices);
    Device(chassis, e.port, if name.Some? then Some(UpToNul(name.value)) else None, e.ipv4, e.ipv6)
  }

  function SeenEntries(chassis: Bytes, es: seq<T.Entry>, devices: Devices): (r: seq<Device>)
    ensures |r| == |es|
  {
    seq(|es|, i requires 0 <= i < |es| => SeenDevice(chassis, es[i], devices))
  }

  function NamesAfter(names: map<Uint16, Bytes>, c: Uint16, chassis: Bytes): map<Uint16, Bytes> {
    if |chassis| <= CHASSIS_NAME_SIZE then names[c := chassis] else names
  }

  /** The devices in the order of the dump; `names` is what the chassis numbers stand for before. */
  function SeenAll(names: map<Uint16, Bytes>, c: Uint16, groups: seq<Group>, devices: Devices): seq<Device>
    decreases |groups|
  {
    if groups == [] then [] else
      var now := NamesAfter(names, c, groups[0].chassis);
      SeenEntries(NameOf(now, c), groups[0].entries, devices) + SeenAll(now, Incremented(c), groups[1..], devices)
  }

  /** `ds` written over `m` under consecutive 16-bit numbers. */
  function Overlay(m: map<Uint16, Device>, start: Uint16, ds: seq<Device>): map<Uint16, Device>
    decreases |ds|
  {
    if ds == [] then m else Overlay(m[start := ds[0]], Incremented(start), ds[1..])
  }

  lemma {:induction false} FoldAppend(v: View, a: seq<Message>, b: seq<Message>)
    ensures Fold(v, a + b) == Fold(Fold(v, a), b)
    decreases |a|
  {
    if a == [] {
      assert a + b == b;
    } else {
      assert (a + b)[1..] == a[1..] + b;
      FoldAppend(Process(v, AsSeen(a[0])), a[1..], b);
    }
  }

  lemma FoldOne(v: View, m: Message)
    ensures Fold(v, [m]) == Process(v, AsSeen(m))
  {
    assert Fold(Process(v, AsSeen(m)), []) == Process(v, AsSeen(m));
  }

  lemma {:induction false} OverlayAppend(m: map<Uint16, Device>, start: Uint16, a: seq<Device>, b: seq<Device>)
    ensures Overlay(m, start, a + b) == Overlay(Overlay(m, start, a), Advanced(start, |a|), b)
    decreases |a|
  {
    if a == [] {
      assert a + b == b;
    } else {
      assert (a + b)[1..] == a[1..] + b;
      OverlayAppend(m[start := a[0]], Incremented(start), a[1..], b);
    }
  }

  lemma FoldAddresses(v: View, n: Uint16, e: T.Entry)
    requires n in v.devices && v.devices[n].ipv4 == None && v.devices[n].ipv6 == None
    ensures Fold(v, AddressMessages(n, e))
         == v.(devices := v.devices[n := v.devices[n].(ipv4 := e.ipv4, ipv6 := e.ipv6)])
  {
    var first := if e.ipv4.Some? then [Ip(n, e.ipv4.value)] else [];
    var second := if e.ipv6.Some? then [Ip6(n, e.ipv6.value)] else [];
    FoldAppend(v, first, second);
    if e.ipv4.Some? {
      FoldOne(v, first[0]);
    }
    if e.ipv6.Some? {
      FoldOne(Fold(v, first), second[0]);
    }
  }

  /** The messages of one neighbour write one device. */
  lemma FoldEntry(v: View, c: Uint16, n: Uint16, e: T.Entry, devices: Devices)
    ensures Fold(v, EntryMessages(c, n, e, devices))
         == View(v.names[c := NameOf(v.names, c)], v.devices[n := SeenDevice(NameOf(v.names, c), e, devices)])
  {
    var name := LocalName(e, devices);
    var start := Process(v, Neighbour(c, n, e.port));
    FoldAppend(v, [Neighbour(c, n, e.port)], NameMessages(n, e, devices) + AddressMessages(n, e));
    FoldOne(v, Neighbour(c, n, e.port));
    FoldAppend(start, NameMessages(n, e, devices), AddressMessages(n, e));
    if name.Some? {
      FoldOne(start, LocalInterface(n, e.interfaceIndex, name.value));
    }
    FoldAddresses(Fold(start, NameMessages(n, e, devices)), n, e);
  }

  predicate SameNames(a: map<Uint16, Bytes>, b: map<Uint16, Bytes>) {
    forall c: Uint16 :: NameOf(a, c) == NameOf(b, c)
  }

  lemma OverlaySeen(
    m: map<Uint16, Device>, start: Uint16, chassis: Bytes, es: seq<T.Entry>, devices: Devices)
    ensures Overlay(m, start, SeenEntries(chassis, es, devices))
         == if es == [] then m else
              Overlay(m[start := SeenDevice(chassis, es[0], devices)], Incremented(start),
                      SeenEntries(chassis, es[1..], devices))
  {
    var seen := SeenEntries(chassis, es, devices);
    if es == [] {
      assert seen == [];
    } else {
      assert seen[0] == SeenDevice(chassis, es[0], devices);
      assert seen[1..] == SeenEntries(chassis, es[1..], devices);
    }
  }

  lemma {:induction false} FoldEntries(v: View, c: Uint16, start: Uint16, es: seq<T.Entry>, devices: Devices)
    ensures var w := Fold(v, EntriesMessages(c, start, es, devices));
            && SameNames(w.names, v.names)
            && w.devices == Overlay(v.devices, start, SeenEntries(NameOf(v.names, c), es, devices))
    decreases |es|
  {
    OverlaySeen(v.devices, start, NameOf(v.names, c), es, devices);
    if es != [] {
      var first := EntryMessages(c, start, es[0], devices);
      FoldAppend(v, first, EntriesMessages(c, Incremented(start), es[1..], devices));
      FoldEntry(v, c, start, es[0], devices);
      FoldEntries(Fold(v, first), c, Incremented(start), es[1..], devices);
    }
  }

  lemma FoldGroup(v: View, names: map<Uint16, Bytes>, c: Uint16, start: Uint16, g: Group, devices: Devices)
    requires SameNames(v.names, names)
    ensures var now := NamesAfter(names, c, g.chassis);
            var w := Fold(v, GroupMessages(c, start, g, devices));
            && SameNames(w.names, now)
            && w.devices == Overlay(v.devices, start, SeenEntries(NameOf(now, c), g.entries, devices))
  {
    var chassis := ChassisMessages(c, g.chassis);
    FoldAppend(v, chassis, EntriesMessages(c, start, g.entries, devices));
    if chassis != [] {
      FoldOne(v, chassis[0]);
    }
    var after := Fold(v, chassis);
    forall k: Uint16 ensures NameOf(after.names, k) == NameOf(NamesAfter(names, c, g.chassis), k) {
      assert NameOf(v.names, k) == NameOf(names, k);
    }
    FoldEntries(after, c, start, g.entries, devices);
  }

  /** Folding a whole dump overlays exactly the devices it means. */
  lemma {:induction false} FoldDump(
    v: View, names: map<Uint16, Bytes>, c: Uint16, start: Uint16, groups: seq<Group>, devices: Devices)
    requires SameNames(v.names, names)
    ensures Fold(v, DumpMessages(c, start, groups, devices)).devices
         == Overlay(v.devices, start, SeenAll(names, c, groups, devices))
    decreases |groups|
  {
    if groups != [] {
      var g := groups[0];
      var now := NamesAfter(names, c, g.chassis);
      var next := Advanced(start, |g.entries|);
      FoldAppend(v, GroupMessages(c, start, g, devices), DumpMessages(Incremented(c), next, groups[1..], devices));
      FoldGroup(v, names, c, start, g, devices);
      FoldDump(Fold(v, GroupMessages(c, start, g, devices)), now, Incremented(c), next, groups[1..], devices);
      OverlayAppend(v.devices, start, SeenEntries(NameOf(now, c), g.entries, devices),
                    SeenAll(now, Incremented(c), groups[1..], devices));
    }
  }

  /** The interface name a client is told is that of the device on which the neighbour was heard, up to its
      first zero; there is none if that device is unknown or has no name. */
  lemma LocalNameTold(chassis: Bytes, e: T.Entry, devices: Devices, name: Bytes)
    ensures SeenDevice(chassis, e, devices).localName == Some(name) <==>
            exists i <- devices ::
              i == e.interfaceIndex && devices[i].name.Some? && UpToNul(devices[i].name.value) == name
    ensures var d := SeenDevice(chassis, e, devices);
            d.chassis == chassis && d.port == e.port && d.ipv4 == e.ipv4 && d.ipv6 == e.ipv6
  {
  }

  // ---------- What the client ends up with ----------

  function Told(chassis: Bytes): Bytes {
    if |chassis| <= CHASSIS_NAME_SIZE then chassis else []
  }

  /** The neighbours as the table has them, in order: an identifier that does not fit comes out empty. */
  function ToldAll(groups: seq<Group>, devices: Devices): seq<Device> {
    if groups == [] then [] else
      SeenEntries(Told(groups[0].chassis), groups[0].entries, devices) + ToldAll(groups[1..], devices)
  }

  /** The chassis counter needs no bound of its own while every identifier fits: each number is
      renamed before it is used. Otherwise the numbers must not have wrapped. */
  lemma {:induction false} SeenIsTold(names: map<Uint16, Bytes>, c: Uint16, groups: seq<Group>, devices: Devices)
    requires (forall g <- groups :: |g.chassis| <= CHASSIS_NAME_SIZE)
          || groups == [] || (c + |groups| <= COUNTERS && forall k <- names :: k < c)
    ensures SeenAll(names, c, groups, devices) == ToldAll(groups, devices)
    decreases |groups|
  {
    if groups != [] {
      var now := NamesAfter(names, c, groups[0].chassis);
      assert NameOf(now, c) == Told(groups[0].chassis);
      SeenIsTold(now, Incremented(c), groups[1..], devices);
    }
  }

  /** How many devices are seen does not depend on the identifiers. */
  lemma {:induction false} SeenSize(names: map<Uint16, Bytes>, c: Uint16, groups: seq<Group>, devices: Devices)
    ensures |SeenAll(names, c, groups, devices)| == |ToldAll(groups, devices)|
    decreases |groups|
  {
    if groups != [] {
      SeenSize(NamesAfter(names, c, groups[0].chassis), Incremented(c), groups[1..], devices);
    }
  }

  lemma {:induction false} FewGroups(groups: seq<Group>, devices: Devices)
    requires forall g <- groups :: g.entries != []
    ensures |groups| <= |ToldAll(groups, devices)|
  {
    if groups != [] {
      assert groups[0] in groups;
      FewGroups(groups[1..], devices);
    }
  }

  /** The chassis numbers tell the chassis apart where it matters: all identifiers fit, or the numbers do not
      wrap, which they cannot before those of the neighbours if no chassis is empty. */
  predicate ChassisApart(groups: seq<Group>) {
    || (forall g <- groups :: |g.chassis| <= CHASSIS_NAME_SIZE)
    || |groups| <= COUNTERS
    || (forall g <- groups :: g.entries != [])
  }

  lemma SeenAsTold(groups: seq<Group>, devices: Devices)
    requires ChassisApart(groups) && |ToldAll(groups, devices)| <= COUNTERS
    ensures SeenAll(map[], 0, groups, devices) == ToldAll(groups, devices)
  {
    if forall g <- groups :: g.entries != [] {
      FewGroups(groups, devices);
    }
    SeenIsTold(map[], 0, groups, devices);
  }

  /** Under the number i after `start` the client has device i, unless a later one took the number. */
  lemma {:induction false} OverlayAt(m: map<Uint16, Device>, start: Uint16, ds: seq<Device>, i: nat)
    requires i < |ds| <= i + COUNTERS
    ensures Advanced(start, i) in Overlay(m, start, ds)
    ensures Overlay(m, start, ds)[Advanced(start, i)] == ds[i]
    decreases |ds|
  {
    if i > 0 {
      OverlayAt(m[start := ds[0]], Incremented(start), ds[1..], i - 1);
    } else {
      StepsAfter(start, start);
      OverlayElsewhere(m[start := ds[0]], Incremented(start), ds[1..], start);
    }
  }

  /** The numbers taken are those less than |ds| steps after `start`. */
  lemma {:induction false} OverlayElsewhere(m: map<Uint16, Device>, start: Uint16, ds: seq<Device>, k: Uint16)
    ensures k in Overlay(m, start, ds) <==> k in m || (k - start) % COUNTERS < |ds|
    ensures k in m && (k - start) % COUNTERS >= |ds| ==> Overlay(m, start, ds)[k] == m[k]
    decreases |ds|
  {
    if ds != [] {
      StepsAfter(k, start);
      OverlayElsewhere(m[start := ds[0]], Incremented(start), ds[1..], k);
    }
  }

  lemma StepsAfter(k: Uint16, start: Uint16)
    ensures (k - start) % COUNTERS == 0 <==> k == start
    ensures (k - Incremented(start)) % COUNTERS == if k == start then COUNTERS - 1 else (k - start) % COUNTERS - 1
  {
  }

  /** The numbers below `n`. */
  function Numbers(n: nat): (r: set<int>)
    ensures forall k :: k in r <==> 0 <= k < n
    ensures |r| == n
  {
    if n == 0 then {} else Numbers(n - 1) + {n - 1}
  }

  /** The keys run from 0 to n - 1 and key i holds the i-th neighbour, when the numbers suffice. */
  lemma {:induction false} AllDelivered(ds: seq<Device>)
    requires |ds| <= COUNTERS
    ensures var r := Overlay(map[], 0, ds);
            && r.Keys == Numbers(|ds|)
            && forall i :: 0 <= i < |ds| ==> r[i] == ds[i]
  {
    forall k: Uint16 ensures k in Overlay(map[], 0, ds) <==> k < |ds| {
      OverlayElsewhere(map[], 0, ds, k);
    }
    forall i | 0 <= i < |ds| ensures Overlay(map[], 0, ds)[i] == ds[i] {
      AdvancedWraps(0, i);
      OverlayAt(map[], 0, ds, i);
    }
  }

  /** No neighbour is lost exactly when there are at most 65536. */
  lemma NoneLostIff(ds: seq<Device>)
    ensures |Overlay(map[], 0, ds)| == |ds| <==> |ds| <= COUNTERS
  {
    var r := Overlay(map[], 0, ds);
    if |ds| <= COUNTERS {
      AllDelivered(ds);
      assert |r.Keys| == |r|;
    } else {
      Subset(r.Keys, Numbers(COUNTERS));
      assert |r.Keys| == |r|;
    }
  }

  lemma {:induction false} Subset<K>(a: set<K>, b: set<K>)
    requires a <= b
    ensures |a| <= |b|
  {
    if a != {} {
      var x :| x in a;
      Subset(a - {x}, b - {x});
    }
  }
}
