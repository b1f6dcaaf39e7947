/** What becomes of the dumps of a device repository: an error report and a lost reply both fail an open dump
    and bring the next one forward, other packets change nothing, and the readers' clocks are those of the
    repository. */
module DumpOutcomes {
  import opened Common
  import N = NetlinkFraming
  import Q = DumpReader
  import opened D = DeviceRepository

  // ---------- Packets ----------

  /** A packet that only the trace of its reader remembers. */
  predicate OnlyTraced(r: Repo, t: Repo) {
    t == r.(deviceTrace := t.deviceTrace, addressTrace := t.addressTrace)
  }

  /** An error report fails the open device dump: it is reported, nothing is learned, no addresses are asked
      for, and the next attempt is due in two seconds. */
  lemma DeviceDumpFails(r: Repo, q: nat, v: N.View, outcome: Q.SendOutcome)
    requires r.deviceReader.request == Some(q) && v.ErrorView? && v.header.sequence == Q.Wire(q)
    ensures var t := DevicePacketState(r, v, outcome);
            && t.notes == r.notes + [DeviceError]
            && t.syncTimeout == 2
            && t.deviceReader.request.None?
            && t.addressReader == r.addressReader && t.addressTrace == r.addressTrace
            && t.devices == r.devices
  {
  }

  /** It fails the open address dump likewise, and nothing is synchronised. */
  lemma AddressDumpFails(r: Repo, q: nat, v: N.View)
    requires r.addressReader.request == Some(q) && v.ErrorView? && v.header.sequence == Q.Wire(q)
    ensures var t := AddressPacketState(r, v);
            && t.notes == r.notes + [AddressError]
            && t.syncTimeout == 2
            && t.addressReader.request.None?
            && t.deviceReader == r.deviceReader && t.deviceTrace == r.deviceTrace
            && t.devices == r.devices
  {
  }

  /** The end of the open device dump asks for the addresses; whether that can be sent decides if an address
      dump is open. */
  lemma DeviceDumpEnds(r: Repo, q: nat, v: N.View, outcome: Q.SendOutcome)
    requires r.deviceReader.request == Some(q) && v.DoneView? && v.header.sequence == Q.Wire(q)
    ensures var t := DevicePacketState(r, v, outcome);
            && t.notes == r.notes + [DeviceDone, AddressDump(outcome.Issued?)]
            && t.syncTimeout == r.syncTimeout
            && t.deviceReader.request.None?
            && t.addressReader.request
               == (if outcome.Issued? then Some(r.addressReader.sequence + 1) else r.addressReader.request)
            && t.devices == r.devices
  {
    assert r.notes + [DeviceDone] + [AddressDump(outcome.Issued?)]
        == r.notes + [DeviceDone, AddressDump(outcome.Issued?)];
  }

  /** The end of the open address dump hands out the table as it is. */
  lemma AddressDumpEnds(r: Repo, q: nat, v: N.View)
    requires r.addressReader.request == Some(q) && v.DoneView? && v.header.sequence == Q.Wire(q)
    ensures var t := AddressPacketState(r, v);
            && t.notes == r.notes + [Synced(r.devices)]
            && t.syncTimeout == r.syncTimeout
            && t.addressReader.request.None?
            && t.deviceReader == r.deviceReader && t.devices == r.devices
  {
  }

  /** A device packet matters if and only if it answers the open request with a link, an end or an error. */
  lemma DevicePacketIgnored(r: Repo, v: N.View, outcome: Q.SendOutcome)
    ensures var answers := r.deviceReader.request.Some? && v.header.sequence == Q.Wire(r.deviceReader.request.value);
            !answers || v.MessageView? || v.AddrView? ==> OnlyTraced(r, DevicePacketState(r, v, outcome))
  {
  }

  lemma AddressPacketIgnored(r: Repo, v: N.View)
    ensures var answers :=
              r.addressReader.request.Some? && v.header.sequence == Q.Wire(r.addressReader.request.value);
            !answers || v.MessageView? || v.LinkView? ==> OnlyTraced(r, AddressPacketState(r, v))
  {
  }

  /** A link or address that answers the open request is applied to the table, and changes nothing else. */
  lemma ItemsApplied(r: Repo, v: N.View, outcome: Q.SendOutcome)
    ensures v.LinkView? && r.deviceReader.request.Some?
            && v.header.sequence == Q.Wire(r.deviceReader.request.value) ==>
              var t := DevicePacketState(r, v, outcome);
              t.devices == AfterLink(r.devices, v) && OnlyTraced(r, t.(devices := r.devices))
    ensures v.AddrView? && r.addressReader.request.Some?
            && v.header.sequence == Q.Wire(r.addressReader.request.value) ==>
              var t := AddressPacketState(r, v);
              t.devices == AfterAddress(r.devices, v) && OnlyTraced(r, t.(devices := r.devices))
  {
  }

  /** Only new links of Ethernet devices are learned from. */
  lemma LinksIgnored(devices: Devices, v: N.View)
    requires v.LinkView?
    ensures AfterLink(devices, v) != devices ==> v.header.kind == 16 && FromLittleEndian16(v.link[2..]) == 1
    ensures v.header.kind == 16 && FromLittleEndian16(v.link[2..]) == 1 ==> LinkIndex(v.link) in AfterLink(devices, v)
  {
  }

  /** Only new primary addresses of the two families are learned from. */
  lemma AddressesIgnored(devices: Devices, v: N.View)
    requires v.AddrView?
    ensures var accepted := v.header.kind == 20 && v.address[0] in {2, 10} && v.address[2] % 2 == 0;
            && (!accepted ==> AfterAddress(devices, v) == devices)
            && (accepted ==> FromLittleEndian32(v.address[4..]) in AfterAddress(devices, v))
  {
  }

  predicate Names(a: N.Attribute) {
    a.kind == 3 && |a.value| >= 2
  }

  /** The name is that of the last attribute that holds more than one byte, without a terminating zero. */
  lemma {:induction false} LastNameWins(attributes: seq<N.Attribute>, otherwise: Option<Bytes>, k: nat)
    requires k < |attributes| && Names(attributes[k])
    requires forall j :: k < j < |attributes| ==> !Names(attributes[j])
    ensures var name, value := LastName(attributes, otherwise), attributes[k].value;
            name.Some? && (value == name.value + [0] || (value == name.value && value[|value| - 1] != 0))
  {
    if k == |attributes| - 1 {
      NamePart(attributes[k].value);
    } else {
      LastNameWins(attributes[..|attributes| - 1], otherwise, k);
    }
  }

  lemma {:induction false} NoNames(attributes: seq<N.Attribute>, otherwise: Option<Bytes>)
    requires forall a <- attributes :: !Names(a)
    ensures LastName(attributes, otherwise) == otherwise
  {
    if attributes != [] {
      assert !Names(attributes[|attributes| - 1]);
      NoNames(attributes[..|attributes| - 1], otherwise);
    }
  }

  lemma NamePart(value: Bytes)
    requires |value| >= 2
    ensures value == NameFrom(value) + [0] || (value == NameFrom(value) && value[|value| - 1] != 0)
  {
  }

  // ---------- Clocks ----------

  function TickSeconds(es: seq<Event>): nat {
    if es == [] then 0 else (if es[0].Tick? then es[0].seconds else 0) + TickSeconds(es[1..])
  }

  lemma {:induction false} SecondsAppend(es: seq<Q.Event>, e: Q.Event)
    ensures Q.Seconds(es + [e]) == Q.Seconds(es) + if e.Tick? then e.seconds else 0
  {
    if es == [] {
      assert [e][1..] == [];
    } else {
      assert (es + [e])[1..] == es[1..] + [e];
      SecondsAppend(es[1..], e);
    }
  }

  predicate ClocksAdvance(r: Repo, t: Repo, d: nat) {
    && Q.Seconds(t.deviceTrace) == Q.Seconds(r.deviceTrace) + d
    && Q.Seconds(t.addressTrace) == Q.Seconds(r.addressTrace) + d
  }

  lemma TickClocks(r: Repo, d: nat, outcome: Q.SendOutcome)
    ensures ClocksAdvance(r, TickState(r, d, outcome), d)
  {
    SecondsAppend(r.deviceTrace, Q.Tick(d));
    SecondsAppend(r.addressTrace, Q.Tick(d));
    SecondsAppend(r.deviceTrace + [Q.Tick(d)], Q.Trigger(outcome));
  }

  lemma AddressPacketClocks(r: Repo, v: N.View)
    ensures ClocksAdvance(r, AddressPacketState(r, v), 0)
  {
    SecondsAppend(r.addressTrace, Q.Receive(AddressReply(v)));
  }

  lemma DevicePacketClocks(r: Repo, v: N.View, outcome: Q.SendOutcome)
    ensures ClocksAdvance(r, DevicePacketState(r, v, outcome), 0)
  {
    SecondsAppend(r.deviceTrace, Q.Receive(DeviceReply(v)));
    SecondsAppend(r.addressTrace, Q.Trigger(outcome));
    var (s, signal) := DeviceStep(r, Q.Receive(DeviceReply(v)));
    assert ClocksAdvance(r, s, 0);
  }

  lemma StepClocks(r: Repo, e: Event)
    ensures ClocksAdvance(r, Step(r, e), if e.Tick? then e.seconds else 0)
  {
    match e
    case Tick(d, outcome) => TickClocks(r, d, outcome);
    case Monitor =>
    case DevicePacket(v, outcome) => DevicePacketClocks(r, v, outcome);
    case AddressPacket(v) => AddressPacketClocks(r, v);
  }

  /** In every run both readers have been told of all the time that has passed. */
  lemma {:induction false} RunClocks(r: Repo, es: seq<Event>)
    ensures ClocksAdvance(r, Run(r, es), TickSeconds(es))
    decreases |es|
  {
    if es != [] {
      StepClocks(r, es[0]);
      RunClocks(Step(r, es[0]), es[1..]);
    }
  }

  // ---------- Lost replies ----------

  /** The notes an event adds. */
  function Added(r: Repo, e: Event): seq<Note> {
    if |r.notes| <= |Step(r, e).notes| then Step(r, e).notes[|r.notes|..] else []
  }

  predicate RequestsDevices(notes: seq<Note>) {
    exists i :: 0 <= i < |notes| && notes[i].DeviceDump?
  }

  predicate RequestsAddresses(notes: seq<Note>) {
    exists i :: 0 <= i < |notes| && notes[i].AddressDump?
  }

  /** Device dump `q` is neither answered to its end nor attempted again. */
  predicate DeviceDumpWaits(r: Repo, es: seq<Event>, q: nat)
    decreases |es|
  {
    es != [] ==>
      && !RequestsDevices(Added(r, es[0]))
      && (es[0].DevicePacket? ==> Q.Unanswered(Q.Receive(DeviceReply(es[0].view)), q))
      && DeviceDumpWaits(Step(r, es[0]), es[1..], q)
  }

  predicate AddressDumpWaits(r: Repo, es: seq<Event>, q: nat)
    decreases |es|
  {
    es != [] ==>
      && !RequestsAddresses(Added(r, es[0]))
      && (es[0].AddressPacket? ==> Q.Unanswered(Q.Receive(AddressReply(es[0].view)), q))
      && AddressDumpWaits(Step(r, es[0]), es[1..], q)
  }

  /** What a tick reports, in order: requests that time out, then the time, then the next attempt if it is
      due, which a failure in the same tick brings forward. */
  lemma TickNotes(r: Repo, d: nat, outcome: Q.SendOutcome)
    ensures var devices, addresses := Q.TickState(r.deviceReader, d).1, Q.TickState(r.addressReader, d).1;
            var failures := (if devices.Failed? then [DeviceError] else []) +
                            (if addresses.Failed? then [AddressError] else []);
            var left := if failures != [] then EXPEDITE_TIMEOUT else r.syncTimeout;
            Added(r, Tick(d, outcome))
            == failures + [Elapsed(d)] + (if left > d then [] else [DeviceDump(outcome.Issued?)])
  {
  }

  lemma TickRequests(r: Repo, d: nat, outcome: Q.SendOutcome)
    requires !RequestsDevices(Added(r, Tick(d, outcome)))
    ensures TickState(r, d, outcome).deviceReader == Q.TickState(r.deviceReader, d).0
  {
    TickNotes(r, d, outcome);
    var added := Added(r, Tick(d, outcome));
    assert !added[|added| - 1].DeviceDump?;
  }

  lemma DeviceWaitStep(r: Repo, e: Event, q: nat)
    requires r.deviceReader.request == Some(q) && DeviceDumpWaits(r, [e], q)
    requires e.Tick? ==> e.seconds < r.deviceReader.timeout
    ensures Step(r, e).deviceReader
         == r.deviceReader.(timeout := r.deviceReader.timeout - if e.Tick? then e.seconds else 0)
  {
    match e
    case Tick(d, outcome) => TickRequests(r, d, outcome);
    case Monitor =>
    case DevicePacket(_, _) =>
    case AddressPacket(_) =>
  }

  /** The device dump stays open while less time passes than it had left. */
  lemma {:induction false} DeviceDumpStays(r: Repo, es: seq<Event>, q: nat)
    requires r.deviceReader.request == Some(q) && DeviceDumpWaits(r, es, q)
    requires TickSeconds(es) < r.deviceReader.timeout
    ensures Run(r, es).deviceReader == r.deviceReader.(timeout := r.deviceReader.timeout - TickSeconds(es))
    decreases |es|
  {
    if es != [] {
      assert DeviceDumpWaits(Step(r, es[0]), [], q);
      DeviceWaitStep(r, es[0], q);
      DeviceDumpStays(Step(r, es[0]), es[1..], q);
    }
  }

  /** A device dump whose reply is lost fails at exactly the tick of the repository that reaches its timeout,
      whatever monitor packets, address packets and link messages come in between, unless it is attempted
      again before; the next attempt is then due in two seconds. */
  lemma LostDeviceReply(r: Repo, es: seq<Event>, q: nat, d: nat, outcome: Q.SendOutcome)
    requires r.deviceReader.request == Some(q) && DeviceDumpWaits(r, es, q)
    requires TickSeconds(es) < r.deviceReader.timeout
    ensures var t := Run(r, es);
            && t.deviceReader.request == Some(q)
            && (DeviceError in Added(t, Tick(d, outcome)) <==> TickSeconds(es) + d >= r.deviceReader.timeout)
            && (DeviceError in Added(t, Tick(d, outcome)) ==>
                  TickState(t, d, outcome).syncTimeout
                  == if d < EXPEDITE_TIMEOUT then EXPEDITE_TIMEOUT - d else SYNC_TIMEOUT)
  {
    DeviceDumpStays(r, es, q);
    TickNotes(Run(r, es), d, outcome);
  }

  lemma CompletionRequests(r: Repo, v: N.View, outcome: Q.SendOutcome)
    ensures DeviceStep(r, Q.Receive(DeviceReply(v))).1.Completed? ==>
              RequestsAddresses(Added(r, DevicePacket(v, outcome)))
  {
    if DeviceStep(r, Q.Receive(DeviceReply(v))).1.Completed? {
      assert Added(r, DevicePacket(v, outcome))[1] == AddressDump(outcome.Issued?);
    }
  }

  lemma AddressWaitStep(r: Repo, e: Event, q: nat)
    requires r.addressReader.request == Some(q) && AddressDumpWaits(r, [e], q)
    requires e.Tick? ==> e.seconds < r.addressReader.timeout
    ensures Step(r, e).addressReader
         == r.addressReader.(timeout := r.addressReader.timeout - if e.Tick? then e.seconds else 0)
  {
    match e
    case Tick(_, _) =>
    case Monitor =>
    case DevicePacket(v, outcome) => CompletionRequests(r, v, outcome);
    case AddressPacket(_) =>
  }

  lemma {:induction false} AddressDumpStays(r: Repo, es: seq<Event>, q: nat)
    requires r.addressReader.request == Some(q) && AddressDumpWaits(r, es, q)
    requires TickSeconds(es) < r.addressReader.timeout
    ensures Run(r, es).addressReader == r.addressReader.(timeout := r.addressReader.timeout - TickSeconds(es))
    decreases |es|
  {
    if es != [] {
      assert AddressDumpWaits(Step(r, es[0]), [], q);
      AddressWaitStep(r, es[0], q);
      AddressDumpStays(Step(r, es[0]), es[1..], q);
    }
  }

  /** The same of an address dump. */
  lemma LostAddressReply(r: Repo, es: seq<Event>, q: nat, d: nat, outcome: Q.SendOutcome)
    requires r.addressReader.request == Some(q) && AddressDumpWaits(r, es, q)
    requires TickSeconds(es) < r.addressReader.timeout
    ensures var t := Run(r, es);
            && t.addressReader.request == Some(q)
            && (AddressError in Added(t, Tick(d, outcome)) <==> TickSeconds(es) + d >= r.addressReader.timeout)
            && (AddressError in Added(t, Tick(d, outcome)) ==>
                  TickState(t, d, outcome).syncTimeout
                  == if d < EXPEDITE_TIMEOUT then EXPEDITE_TIMEOUT - d else SYNC_TIMEOUT)
  {
    AddressDumpStays(r, es, q);
    TickNotes(Run(r, es), d, outcome);
  }

  /** Every request starts with five seconds. */
  lemma RequestsHaveFiveSeconds(r: Repo)
    ensures var t := RequestDevices(r, Q.Issued);
            t.deviceReader.request == Some(r.deviceReader.sequence + 1) && t.deviceReader.timeout == 5
    ensures var t := RequestAddresses(r, Q.Issued);
            t.addressReader.request == Some(r.addressReader.sequence + 1) && t.addressReader.timeout == 5
  {
  }
}
