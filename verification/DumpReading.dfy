/** From the kernel's reports to the device table: link and address reports are laid out in netlink batches,
    taken apart by the extraction loop, filtered by the reader, and applied to the table. A dump read while
    its request is open teaches the table exactly what was reported. */
module DumpReading {
  import opened Common
  import N = NetlinkFraming
  import Q = DumpReader
  import opened D = DeviceRepository
  import L = LldpRepositoryObject
  import W = LldpRepositoryRuns

  const NLM_F_MULTI: Uint16 := 2

  // ---------- Reports ----------

  /** A link as the kernel reports it, among attributes of other kinds. */
  datatype LinkReport = LinkReport(
    index: Uint32,
    hardware: Uint16,
    flags: Uint32,
    name: Bytes,
    address: Bytes,
    between: seq<N.Attribute>,
    after: seq<N.Attribute>)

  function LinkMessage(sequence: Uint32, l: LinkReport): N.Message {
    N.Message(
      N.RTM_NEWLINK, NLM_F_MULTI, sequence, 0,
      [0, 0] + (LittleEndian16(l.hardware) + (LittleEndian32(l.index) + (LittleEndian32(l.flags) + Zeros(4)))),
      [N.Attribute(IFLA_IFNAME, l.name + [0])] + l.between + [N.Attribute(IFLA_ADDRESS, l.address)] + l.after)
  }

  predicate Foreign(attributes: seq<N.Attribute>, kinds: set<Uint16>) {
    forall a <- attributes :: a.kind !in kinds
  }

  predicate ReportableLink(sequence: Uint32, l: LinkReport) {
    && l.name != []
    && Foreign(l.between + l.after, {IFLA_IFNAME, IFLA_ADDRESS})
    && N.WellFormed(LinkMessage(sequence, l))
  }

  /** What is learned from a link: nothing unless it is an Ethernet device; a hardware address only if it is
      a MAC address. What is known of its addresses stays. */
  function LearnLink(devices: Devices, l: LinkReport): Devices {
    if l.hardware != ARPHRD_ETHER then devices else
      var d := DeviceAt(devices, l.index);
      devices[l.index := d.(
        ifIndex := l.index,
        operational := l.flags % 2 == 1 && l.flags / 0x1_0000 % 2 == 1,
        name := Some(l.name),
        mac := if |l.address| == 6 then Some(l.address) else d.mac)]
  }

  function LearnLinks(devices: Devices, ls: seq<LinkReport>): Devices
    decreases |ls|
  {
    if ls == [] then devices else LearnLinks(LearnLink(devices, ls[0]), ls[1..])
  }

  datatype IpAddress = V4(ipv4: Ipv4) | V6(ipv6: Ipv6)

  /** An address as the kernel reports it; the lowest of its flags marks a secondary one. */
  datatype AddressReport = AddressReport(
    index: Uint32,
    address: IpAddress,
    prefixLength: Byte,
    flags: Byte,
    scope: Byte,
    before: seq<N.Attribute>,
    after: seq<N.Attribute>)

  function AddressBytes(a: IpAddress): Bytes {
    if a.V4? then a.ipv4 else a.ipv6
  }

  function Family(a: IpAddress): Byte {
    if a.V4? then AF_INET else AF_INET6
  }

  function AddressMessage(sequence: Uint32, a: AddressReport): N.Message {
    N.Message(
      N.RTM_NEWADDR, NLM_F_MULTI, sequence, 0,
      [Family(a.address), a.prefixLength, a.flags, a.scope] + LittleEndian32(a.index),
      a.before + [N.Attribute(IFA_ADDRESS, AddressBytes(a.address))] + a.after)
  }

  predicate ReportableAddress(sequence: Uint32, a: AddressReport) {
    && Foreign(a.before + a.after, {IFA_ADDRESS})
    && N.WellFormed(AddressMessage(sequence, a))
  }

  function LearnAddress(devices: Devices, a: AddressReport): Devices {
    if a.flags % 2 == 1 then devices else
      var d := DeviceAt(devices, a.index).(ifIndex := a.index);
      devices[a.index := match a.address case V4(x) => d.(ipv4 := Some(x)) case V6(x) => d.(ipv6 := Some(x))]
  }

  function LearnAddresses(devices: Devices, as_: seq<AddressReport>): Devices
    decreases |as_|
  {
    if as_ == [] then devices else LearnAddresses(LearnAddress(devices, as_[0]), as_[1..])
  }

  // ---------- One report ----------

  lemma {:induction false} ForeignNames(attributes: seq<N.Attribute>, name: Option<Bytes>)
    requires Foreign(attributes, {IFLA_IFNAME})
    ensures LastName(attributes, name) == name
  {
    if attributes != [] {
      ForeignNames(attributes[..|attributes| - 1], name);
    }
  }

  lemma {:induction false} LastNameAppend(a: seq<N.Attribute>, b: seq<N.Attribute>, name: Option<Bytes>)
    ensures LastName(a + b, name) == LastName(b, LastName(a, name))
  {
    if b == [] {
      assert a + b == a;
    } else {
      assert (a + b)[..|a + b| - 1] == a + b[..|b| - 1];
      LastNameAppend(a, b[..|b| - 1], name);
    }
  }

  lemma {:induction false} ForeignMacs(attributes: seq<N.Attribute>, mac: Option<Mac>)
    requires Foreign(attributes, {IFLA_ADDRESS})
    ensures LastMac(attributes, mac) == mac
  {
    if attributes != [] {
      ForeignMacs(attributes[..|attributes| - 1], mac);
    }
  }

  lemma {:induction false} LastMacAppend(a: seq<N.Attribute>, b: seq<N.Attribute>, mac: Option<Mac>)
    ensures LastMac(a + b, mac) == LastMac(b, LastMac(a, mac))
  {
    if b == [] {
      assert a + b == a;
    } else {
      assert (a + b)[..|a + b| - 1] == a + b[..|b| - 1];
      LastMacAppend(a, b[..|b| - 1], mac);
    }
  }

  lemma LinkAttributes(l: LinkReport, name: Option<Bytes>, mac: Option<Mac>)
    requires l.name != [] && Foreign(l.between + l.after, {IFLA_IFNAME, IFLA_ADDRESS})
    ensures LastName(LinkMessage(0, l).attributes, name) == Some(l.name)
    ensures LastMac(LinkMessage(0, l).attributes, mac) == if |l.address| == 6 then Some(l.address) else mac
  {
    var first, second := [N.Attribute(IFLA_IFNAME, l.name + [0])], [N.Attribute(IFLA_ADDRESS, l.address)];
    assert forall a <- l.between :: a in l.between + l.after;
    assert forall a <- l.after :: a in l.between + l.after;
    LastNameAppend(first + l.between + second, l.after, name);
    LastNameAppend(first + l.between, second, name);
    LastNameAppend(first, l.between, name);
    assert first[..0] == [] && second[..0] == [];
    assert (l.name + [0])[..|l.name|] == l.name;
    ForeignNames(l.between, Some(l.name));
    ForeignNames(second, Some(l.name));
    ForeignNames(l.after, Some(l.name));
    var now := if |l.address| == 6 then Some(l.address) else mac;
    LastMacAppend(first + l.between + second, l.after, mac);
    LastMacAppend(first + l.between, second, mac);
    LastMacAppend(first, l.between, mac);
    ForeignMacs(first, mac);
    ForeignMacs(l.between, mac);
    ForeignMacs(l.after, now);
  }

  lemma LinkFields(l: LinkReport)
    ensures var info := LinkMessage(0, l).info;
            && |info| == N.LINK_INFO_SIZE
            && FromLittleEndian16(info[2..]) == l.hardware
            && LinkIndex(info) == l.index
            && FromLittleEndian32(info[8..]) == l.flags
  {
    var info := LinkMessage(0, l).info;
    var c := LittleEndian32(l.flags) + Zeros(4);
    var b := LittleEndian32(l.index) + c;
    assert info[2..] == LittleEndian16(l.hardware) + b;
    assert info[4..] == b && info[8..] == c;
    Little16(l.hardware, b);
    Little32(l.index, c);
    Little32(l.flags, Zeros(4));
  }

  /** The view of a reported link teaches what was reported. */
  lemma LinkLearned(devices: Devices, sequence: Uint32, l: LinkReport)
    requires ReportableLink(sequence, l)
    ensures var v := N.Expected(LinkMessage(sequence, l));
            && v.LinkView? && v.header.sequence == sequence
            && AfterLink(devices, v) == LearnLink(devices, l)
  {
    var d := DeviceAt(devices, l.index);
    LinkFields(l);
    LinkAttributes(l, d.name, d.mac);
  }

  lemma {:induction false} ForeignAddresses(attributes: seq<N.Attribute>, size: nat, address: Option<Bytes>)
    requires address.Some? ==> |address.value| == size
    requires Foreign(attributes, {IFA_ADDRESS})
    ensures LastAddress(attributes, size, address) == address
  {
    if attributes != [] {
      ForeignAddresses(attributes[..|attributes| - 1], size, address);
    }
  }

  lemma {:induction false} LastAddressAppend(
    a: seq<N.Attribute>, b: seq<N.Attribute>, size: nat, address: Option<Bytes>)
    requires address.Some? ==> |address.value| == size
    ensures LastAddress(a + b, size, address) == LastAddress(b, size, LastAddress(a, size, address))
  {
    if b == [] {
      assert a + b == a;
    } else {
      assert (a + b)[..|a + b| - 1] == a + b[..|b| - 1];
      LastAddressAppend(a, b[..|b| - 1], size, address);
    }
  }

  lemma AddressAttributes(a: AddressReport, address: Option<Bytes>)
    requires address.Some? ==> |address.value| == |AddressBytes(a.address)|
    requires Foreign(a.before + a.after, {IFA_ADDRESS})
    ensures LastAddress(AddressMessage(0, a).attributes, |AddressBytes(a.address)|, address)
         == Some(AddressBytes(a.address))
  {
    var bytes := AddressBytes(a.address);
    var one := [N.Attribute(IFA_ADDRESS, bytes)];
    assert forall x <- a.before :: x in a.before + a.after;
    assert forall x <- a.after :: x in a.before + a.after;
    LastAddressAppend(a.before + one, a.after, |bytes|, address);
    LastAddressAppend(a.before, one, |bytes|, address);
    ForeignAddresses(a.before, |bytes|, address);
    ForeignAddresses(a.after, |bytes|, Some(bytes));
  }

  lemma AddressFields(a: AddressReport)
    ensures var info := AddressMessage(0, a).info;
            && |info| == N.ADDRESS_INFO_SIZE
            && info[0] == Family(a.address) && info[2] == a.flags
            && FromLittleEndian32(info[4..]) == a.index
  {
    var info := AddressMessage(0, a).info;
    assert info[4..] == LittleEndian32(a.index) + [];
    Little32(a.index, []);
  }

  lemma AddressLearned(devices: Devices, sequence: Uint32, a: AddressReport)
    requires ReportableAddress(sequence, a)
    ensures var v := N.Expected(AddressMessage(sequence, a));
            && v.AddrView? && v.header.sequence == sequence
            && AfterAddress(devices, v) == LearnAddress(devices, a)
  {
    var d := DeviceAt(devices, a.index);
    AddressFields(a);
    match a.address
    case V4(x) => AddressAttributes(a, if d.ipv4.Some? then Some(d.ipv4.value) else None);
    case V6(x) => AddressAttributes(a, if d.ipv6.Some? then Some(d.ipv6.value) else None);
  }

  // ---------- Batches ----------

  function DoneMessage(sequence: Uint32): N.WellMessage {
    N.Message(N.NLMSG_DONE, NLM_F_MULTI, sequence, 0, Zeros(4), [])
  }

  function LinkDump(sequence: Uint32, ls: seq<LinkReport>): seq<N.WellMessage>
    requires forall l <- ls :: ReportableLink(sequence, l)
    decreases |ls|
  {
    if ls == [] then [DoneMessage(sequence)]
    else
      assert ReportableLink(sequence, ls[0]);
      [LinkMessage(sequence, ls[0])] + LinkDump(sequence, ls[1..])
  }

  function AddressDump(sequence: Uint32, as_: seq<AddressReport>): seq<N.WellMessage>
    requires forall a <- as_ :: ReportableAddress(sequence, a)
    decreases |as_|
  {
    if as_ == [] then [DoneMessage(sequence)]
    else
      assert ReportableAddress(sequence, as_[0]);
      [AddressMessage(sequence, as_[0])] + AddressDump(sequence, as_[1..])
  }

  function Flatten(batches: seq<seq<N.WellMessage>>): seq<N.WellMessage>
    decreases |batches|
  {
    if batches == [] then [] else batches[0] + Flatten(batches[1..])
  }

  /** The views the extraction loop delivers from the bytes of a number of batches. */
  function Delivered(batches: seq<seq<N.WellMessage>>): seq<N.View>
    decreases |batches|
  {
    if batches == [] then [] else
      N.BatchRoundTrip(batches[0]);
      N.Views(N.LayoutAll(batches[0])) + Delivered(batches[1..])
  }

  lemma {:induction false} ExpectedAppend(a: seq<N.WellMessage>, b: seq<N.WellMessage>)
    ensures N.ExpectedAll(a + b) == N.ExpectedAll(a) + N.ExpectedAll(b)
  {
    if a == [] {
      assert a + b == b;
    } else {
      assert (a + b)[1..] == a[1..] + b;
      ExpectedAppend(a[1..], b);
    }
  }

  /** However messages are split over batches, the same views are delivered. */
  lemma {:induction false} SplitsAreEqual(batches: seq<seq<N.WellMessage>>)
    ensures Delivered(batches) == N.ExpectedAll(Flatten(batches))
    decreases |batches|
  {
    if batches != [] {
      N.BatchRoundTrip(batches[0]);
      SplitsAreEqual(batches[1..]);
      ExpectedAppend(batches[0], Flatten(batches[1..]));
    }
  }

  // ---------- Whole dumps ----------

  function DeviceEvents(views: seq<N.View>, outcome: Q.SendOutcome): seq<D.Event>
    decreases |views|
  {
    if views == [] then [] else [D.DevicePacket(views[0], outcome)] + DeviceEvents(views[1..], outcome)
  }

  function AddressEvents(views: seq<N.View>): seq<D.Event>
    decreases |views|
  {
    if views == [] then [] else [D.AddressPacket(views[0])] + AddressEvents(views[1..])
  }

  /** The link reports of an open request teach the table, and their end completes the dump and requests the
      addresses. */
  predicate LinksRead(r: Repo, t: Repo, ls: seq<LinkReport>, outcome: Q.SendOutcome) {
    && t.devices == LearnLinks(r.devices, ls)
    && t.deviceReader.request.None?
    && t.addressReader == Q.TriggerState(r.addressReader, outcome).0
    && t.notes == r.notes + [DeviceDone, D.AddressDump(outcome.Issued?)]
  }

  lemma OneLink(r: Repo, q: nat, l: LinkReport, outcome: Q.SendOutcome)
    requires r.deviceReader.request == Some(q) && ReportableLink(Q.Wire(q), l)
    ensures var t := D.Step(r, D.DevicePacket(N.Expected(LinkMessage(Q.Wire(q), l)), outcome));
            && t.devices == LearnLink(r.devices, l)
            && t.deviceReader == r.deviceReader && t.addressReader == r.addressReader && t.notes == r.notes
  {
    LinkLearned(r.devices, Q.Wire(q), l);
  }

  lemma LinksDone(r: Repo, q: nat, outcome: Q.SendOutcome)
    requires r.deviceReader.request == Some(q)
    ensures LinksRead(r, D.Step(r, D.DevicePacket(N.Expected(DoneMessage(Q.Wire(q))), outcome)), [], outcome)
  {
    assert r.notes + [DeviceDone] + [D.AddressDump(outcome.Issued?)]
        == r.notes + [DeviceDone, D.AddressDump(outcome.Issued?)];
  }

  lemma {:induction false} LinkViewsRead(r: Repo, q: nat, ls: seq<LinkReport>, outcome: Q.SendOutcome)
    requires r.deviceReader.request == Some(q) && forall l <- ls :: ReportableLink(Q.Wire(q), l)
    ensures LinksRead(r, D.Run(r, DeviceEvents(N.ExpectedAll(LinkDump(Q.Wire(q), ls)), outcome)), ls, outcome)
    decreases |ls|
  {
    if ls == [] {
      LinksDone(r, q, outcome);
    } else {
      assert ReportableLink(Q.Wire(q), ls[0]);
      OneLink(r, q, ls[0], outcome);
      LinkViewsRead(D.Step(r, D.DevicePacket(N.Expected(LinkMessage(Q.Wire(q), ls[0])), outcome)), q, ls[1..], outcome);
    }
  }

  /** The address reports of an open request teach the table, and their end hands it out. */
  predicate AddressesRead(r: Repo, t: Repo, as_: seq<AddressReport>) {
    && t.devices == LearnAddresses(r.devices, as_)
    && t.deviceReader == r.deviceReader
    && t.addressReader.request.None?
    && t.notes == r.notes + [Synced(LearnAddresses(r.devices, as_))]
  }

  lemma OneAddress(r: Repo, q: nat, a: AddressReport)
    requires r.addressReader.request == Some(q) && ReportableAddress(Q.Wire(q), a)
    ensures var t := D.Step(r, D.AddressPacket(N.Expected(AddressMessage(Q.Wire(q), a))));
            && t.devices == LearnAddress(r.devices, a)
            && t.deviceReader == r.deviceReader && t.addressReader == r.addressReader && t.notes == r.notes
  {
    AddressLearned(r.devices, Q.Wire(q), a);
  }

  lemma {:induction false} AddressViewsRead(r: Repo, q: nat, as_: seq<AddressReport>)
    requires r.addressReader.request == Some(q) && forall a <- as_ :: ReportableAddress(Q.Wire(q), a)
    ensures AddressesRead(r, D.Run(r, AddressEvents(N.ExpectedAll(AddressDump(Q.Wire(q), as_)))), as_)
    decreases |as_|
  {
    if as_ != [] {
      assert ReportableAddress(Q.Wire(q), as_[0]);
      OneAddress(r, q, as_[0]);
      AddressViewsRead(D.Step(r, D.AddressPacket(N.Expected(AddressMessage(Q.Wire(q), as_[0])))), q, as_[1..]);
    }
  }

  lemma LinkDumpRead(
    r: Repo, q: nat, ls: seq<LinkReport>, batches: seq<seq<N.WellMessage>>, outcome: Q.SendOutcome)
    requires r.deviceReader.request == Some(q) && forall l <- ls :: ReportableLink(Q.Wire(q), l)
    requires Flatten(batches) == LinkDump(Q.Wire(q), ls)
    ensures LinksRead(r, D.Run(r, DeviceEvents(Delivered(batches), outcome)), ls, outcome)
  {
    SplitsAreEqual(batches);
    LinkViewsRead(r, q, ls, outcome);
  }

  lemma AddressDumpRead(r: Repo, q: nat, as_: seq<AddressReport>, batches: seq<seq<N.WellMessage>>)
    requires r.addressReader.request == Some(q) && forall a <- as_ :: ReportableAddress(Q.Wire(q), a)
    requires Flatten(batches) == AddressDump(Q.Wire(q), as_)
    ensures AddressesRead(r, D.Run(r, AddressEvents(Delivered(batches))), as_)
  {
    SplitsAreEqual(batches);
    AddressViewsRead(r, q, as_);
  }

  lemma {:induction false} RunAppend(r: Repo, es: seq<D.Event>, fs: seq<D.Event>)
    ensures D.Run(r, es + fs) == D.Run(D.Run(r, es), fs)
    decreases |es|
  {
    if es == [] {
      assert es + fs == fs;
    } else {
      assert (es + fs)[1..] == es[1..] + fs;
      RunAppend(D.Step(r, es[0]), es[1..], fs);
    }
  }

  /** Both dumps have been read, and `snapshot` was handed out once. */
  predicate SyncedOnce(r: Repo, t: Repo, snapshot: Devices) {
    && t.devices == snapshot
    && t.deviceReader.request.None? && t.addressReader.request.None?
    && t.notes == r.notes + [DeviceDone, D.AddressDump(true), Synced(snapshot)]
  }

  lemma ReadInTurn(r: Repo, s: Repo, t: Repo, ls: seq<LinkReport>, as_: seq<AddressReport>)
    requires LinksRead(r, s, ls, Q.Issued) && AddressesRead(s, t, as_)
    ensures SyncedOnce(r, t, LearnAddresses(LearnLinks(r.devices, ls), as_))
  {
    assert r.notes + [DeviceDone, D.AddressDump(true)] + [Synced(t.devices)]
        == r.notes + [DeviceDone, D.AddressDump(true), Synced(t.devices)];
  }

  lemma AddressesFollow(
    r: Repo, s: Repo, ls: seq<LinkReport>, p: nat, as_: seq<AddressReport>, addresses: seq<seq<N.WellMessage>>)
    requires LinksRead(r, s, ls, Q.Issued) && p == r.addressReader.sequence + 1
    requires forall a <- as_ :: ReportableAddress(Q.Wire(p), a)
    requires Flatten(addresses) == AddressDump(Q.Wire(p), as_)
    ensures SyncedOnce(r, D.Run(s, AddressEvents(Delivered(addresses))), LearnAddresses(LearnLinks(r.devices, ls), as_))
  {
    AddressDumpRead(s, p, as_, addresses);
    ReadInTurn(r, s, D.Run(s, AddressEvents(Delivered(addresses))), ls, as_);
  }

  /** From the kernel's bytes to the snapshot. While a device dump is open, its link reports and then the
      address reports of the dump it leads to, which is request `p`, laid out in netlink batches of any sizes,
      synchronise once: the devices handed out are what was known before plus exactly what was reported. */
  lemma DumpsToSnapshot(
    r: Repo, q: nat, ls: seq<LinkReport>, links: seq<seq<N.WellMessage>>,
    p: nat, as_: seq<AddressReport>, addresses: seq<seq<N.WellMessage>>)
    requires r.deviceReader.request == Some(q) && p == r.addressReader.sequence + 1
    requires forall l <- ls :: ReportableLink(Q.Wire(q), l)
    requires forall a <- as_ :: ReportableAddress(Q.Wire(p), a)
    requires Flatten(links) == LinkDump(Q.Wire(q), ls)
    requires Flatten(addresses) == AddressDump(Q.Wire(p), as_)
    ensures var es := DeviceEvents(Delivered(links), Q.Issued) + AddressEvents(Delivered(addresses));
            SyncedOnce(r, D.Run(r, es), LearnAddresses(LearnLinks(r.devices, ls), as_))
  {
    var first, second := DeviceEvents(Delivered(links), Q.Issued), AddressEvents(Delivered(addresses));
    RunAppend(r, first, second);
    LinkDumpRead(r, q, ls, links, Q.Issued);
    AddressesFollow(r, D.Run(r, first), ls, p, as_, addresses);
  }

  // ---------- What is learned ----------

  /** A link reported once is known as it was reported, and its addresses as they were known before. */
  lemma {:induction false} LinksKnown(devices: Devices, ls: seq<LinkReport>, k: nat)
    requires k < |ls| && ls[k].hardware == ARPHRD_ETHER
    requires forall j :: 0 <= j < |ls| && j != k ==> ls[j].index != ls[k].index
    ensures var l, after := ls[k], LearnLinks(devices, ls);
            var d := DeviceAt(devices, l.index);
            && l.index in after
            && after[l.index] == DeviceData(
                 if |l.address| == 6 then Some(l.address) else d.mac, d.ipv4, d.ipv6, Some(l.name),
                 l.flags % 2 == 1 && l.flags / 0x1_0000 % 2 == 1, l.index)
    decreases |ls|
  {
    if k > 0 {
      assert ls[0].index != ls[k].index;
      LinksKnown(LearnLink(devices, ls[0]), ls[1..], k - 1);
    } else {
      LinksElsewhere(LearnLink(devices, ls[0]), ls[1..], ls[0].index);
    }
  }

  /** A device that is not reported stays as it was known. */
  lemma {:induction false} LinksElsewhere(devices: Devices, ls: seq<LinkReport>, i: Uint32)
    requires forall j :: 0 <= j < |ls| ==> ls[j].index != i
    ensures i in LearnLinks(devices, ls) <==> i in devices
    ensures i in devices ==> LearnLinks(devices, ls)[i] == devices[i]
    decreases |ls|
  {
    if ls != [] {
      LinksElsewhere(LearnLink(devices, ls[0]), ls[1..], i);
    }
  }

  predicate SameKind(a: IpAddress, b: IpAddress) {
    a.V4? <==> b.V4?
  }

  function KnownAddress(devices: Devices, i: Uint32, v4: bool): Option<Bytes> {
    var d := DeviceAt(devices, i);
    if v4 then (if d.ipv4.Some? then Some(d.ipv4.value) else None)
    else (if d.ipv6.Some? then Some(d.ipv6.value) else None)
  }

  /** The address known is the one reported last for its device and family that is not secondary. */
  lemma {:induction false} AddressesKnown(devices: Devices, as_: seq<AddressReport>, k: nat)
    requires k < |as_| && as_[k].flags % 2 == 0
    requires forall j :: k < j < |as_| ==>
               as_[j].flags % 2 == 1 || as_[j].index != as_[k].index || !SameKind(as_[j].address, as_[k].address)
    ensures KnownAddress(LearnAddresses(devices, as_), as_[k].index, as_[k].address.V4?)
         == Some(AddressBytes(as_[k].address))
    decreases |as_|
  {
    var rest, now := as_[1..], LearnAddress(devices, as_[0]);
    if k > 0 {
      AddressesKnown(now, rest, k - 1);
    } else {
      AddressesElsewhere(now, rest, as_[0].index, as_[0].address.V4?);
    }
  }

  lemma {:induction false} AddressesElsewhere(devices: Devices, as_: seq<AddressReport>, i: Uint32, v4: bool)
    requires forall j :: 0 <= j < |as_| ==>
               as_[j].flags % 2 == 1 || as_[j].index != i || as_[j].address.V4? != v4
    ensures KnownAddress(LearnAddresses(devices, as_), i, v4) == KnownAddress(devices, i, v4)
    decreases |as_|
  {
    if as_ != [] {
      AddressesElsewhere(LearnAddress(devices, as_[0]), as_[1..], i, v4);
    }
  }

  // ---------- Up to the senders ----------

  /** From the kernel's bytes to the senders: after both dumps there is exactly one sender for each device
      known or reported, with the name and addresses reported last. */
  lemma DumpsToSenders(
    a: L.Agent, es: seq<W.Event>, q: nat, ls: seq<LinkReport>, links: seq<seq<N.WellMessage>>,
    p: nat, as_: seq<AddressReport>, addresses: seq<seq<N.WellMessage>>)
    requires W.Sound(a) && a.repo.deviceReader.request == Some(q) && p == a.repo.addressReader.sequence + 1
    requires forall l <- ls :: ReportableLink(Q.Wire(q), l)
    requires forall x <- as_ :: ReportableAddress(Q.Wire(p), x)
    requires Flatten(links) == LinkDump(Q.Wire(q), ls)
    requires Flatten(addresses) == AddressDump(Q.Wire(p), as_)
    requires W.DeviceEvents(es) == DeviceEvents(Delivered(links), Q.Issued) + AddressEvents(Delivered(addresses))
    ensures var ports, snapshot := W.Run(a, es).ports, LearnAddresses(LearnLinks(a.repo.devices, ls), as_);
            && ports.Keys == snapshot.Keys
            && forall i <- snapshot :: L.SameAddresses(ports[i].sender.device, snapshot[i])
  {
    var snapshot := LearnAddresses(LearnLinks(a.repo.devices, ls), as_);
    var notes := a.repo.notes + [DeviceDone, D.AddressDump(true)];
    DumpsToSnapshot(a.repo, q, ls, links, p, as_, addresses);
    W.RepoRuns(a, es);
    W.RunSound(a, es);
    assert W.Run(a, es).repo.notes == notes + [Synced(snapshot)];
    W.SnapshotAppend(notes, Synced(snapshot));
  }
}
