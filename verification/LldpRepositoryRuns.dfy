/** Runs of the whole transmitting side: the device repository reads the kernel's tables, and the end of
    every address dump reconciles the senders with what it has read. The senders follow the latest
    snapshot, through any packets, ticks, timeouts and failures. */
module LldpRepositoryRuns {
  import opened Common
  import S = SenderSpec
  import R = SenderRuns
  import N = NetlinkFraming
  import Q = DumpReader
  import D = DeviceRepository
  import opened L = LldpRepositoryObject

  /** The sends an event may lead to have the outcomes that come with it. */
  datatype Event =
    | Tick(seconds: Uint64, outcome: Q.SendOutcome)
    | Monitor
    | DevicePacket(view: N.View, outcome: Q.SendOutcome)
    | AddressPacket(view: N.View, nets: Uint32 -> S.Network)

  function Step(a: Agent, e: Event): Agent {
    match e
    case Tick(d, outcome) => TickAgent(a, d, outcome)
    case Monitor => a.(repo := D.Step(a.repo, D.Monitor))
    case DevicePacket(v, outcome) => a.(repo := D.Step(a.repo, D.DevicePacket(v, outcome)))
    case AddressPacket(v, nets) => AddressPacketAgent(a, v, nets)
  }

  function Run(a: Agent, es: seq<Event>): Agent
    decreases |es|
  {
    if es == [] then a else Run(Step(a, es[0]), es[1..])
  }

  // ---------- The device repository runs as it does alone ----------

  function DeviceEvent(e: Event): D.Event {
    match e
    case Tick(d, outcome) => D.Tick(d, outcome)
    case Monitor => D.Monitor
    case DevicePacket(v, outcome) => D.DevicePacket(v, outcome)
    case AddressPacket(v, _) => D.AddressPacket(v)
  }

  function DeviceEvents(es: seq<Event>): seq<D.Event>
    decreases |es|
  {
    if es == [] then [] else [DeviceEvent(es[0])] + DeviceEvents(es[1..])
  }

  /** So everything proved about runs of the device repository holds here. */
  lemma {:induction false} RepoRuns(a: Agent, es: seq<Event>)
    ensures Run(a, es).repo == D.Run(a.repo, DeviceEvents(es))
    decreases |es|
  {
    if es != [] {
      RepoRuns(Step(a, es[0]), es[1..]);
    }
  }

  // ---------- The latest snapshot ----------

  /** The devices handed out by the latest synchronisation. */
  function LatestSnapshot(notes: seq<D.Note>): Option<Devices> {
    if notes == [] then None else
      match notes[|notes| - 1]
      case Synced(devices) => Some(devices)
      case _ => LatestSnapshot(notes[..|notes| - 1])
  }

  lemma SnapshotAppend(notes: seq<D.Note>, note: D.Note)
    ensures LatestSnapshot(notes + [note]) == if note.Synced? then Some(note.snapshot) else LatestSnapshot(notes)
  {
    assert (notes + [note])[..|notes|] == notes;
  }

  predicate Kept(before: D.Repo, after: D.Repo) {
    LatestSnapshot(after.notes) == LatestSnapshot(before.notes) && after.devices == before.devices
  }

  lemma NotedKeeps(r: D.Repo, note: D.Note)
    requires !note.Synced?
    ensures Kept(r, D.Noted(r, note)) && Kept(r, D.Expedited(r, note))
  {
    SnapshotAppend(r.notes, note);
  }

  lemma ReadersKeep(r: D.Repo, d: nat)
    ensures Kept(r, D.TickDeviceReader(r, d)) && Kept(r, D.TickAddressReader(r, d))
  {
    NotedKeeps(D.DeviceStep(r, Q.Tick(d)).0, D.DeviceError);
    NotedKeeps(D.AddressStep(r, Q.Tick(d)).0, D.AddressError);
  }

  lemma RequestsKeep(r: D.Repo, outcome: Q.SendOutcome)
    ensures Kept(r, D.RequestDevices(r, outcome)) && Kept(r, D.RequestAddresses(r, outcome))
  {
    NotedKeeps(D.DeviceStep(r, Q.Trigger(outcome)).0, D.DeviceDump(outcome.Issued?));
    NotedKeeps(D.AddressStep(r, Q.Trigger(outcome)).0, D.AddressDump(outcome.Issued?));
  }

  lemma TickKeeps(r: D.Repo, d: nat, outcome: Q.SendOutcome)
    ensures Kept(r, D.TickState(r, d, outcome))
  {
    var s := D.TickDeviceReader(r, d);
    var t := D.TickAddressReader(s, d);
    ReadersKeep(r, d);
    ReadersKeep(s, d);
    NotedKeeps(t, D.Elapsed(d));
    RequestsKeep(D.Noted(t, D.Elapsed(d)), outcome);
  }

  lemma DeviceControlKeeps(r: D.Repo, reply: Q.Reply, outcome: Q.SendOutcome)
    ensures Kept(r, D.DeviceControl(r, reply, outcome).0)
  {
    var (s, signal) := D.DeviceStep(r, Q.Receive(reply));
    assert Kept(r, s);
    match signal
    case Completed(_) =>
      NotedKeeps(s, D.DeviceDone);
      RequestsKeep(D.Noted(s, D.DeviceDone), outcome);
    case Failed(_) => NotedKeeps(s, D.DeviceError);
    case _ =>
  }

  /** An address packet synchronises exactly when it hands the devices out. */
  lemma AddressPacketSnapshot(r: D.Repo, v: N.View)
    ensures LatestSnapshot(D.AddressPacketState(r, v).notes)
         == if HandedOut(r, v).Some? then HandedOut(r, v) else LatestSnapshot(r.notes)
  {
    SnapshotAppend(r.notes, D.Synced(r.devices));
    SnapshotAppend(r.notes, D.AddressError);
  }

  // ---------- The senders follow it ----------

  /** There is exactly one sender for each device of the latest snapshot, with its name and addresses;
      before the first there is none. */
  predicate FollowsSnapshot(a: Agent) {
    match LatestSnapshot(a.repo.notes)
    case None => a.ports == map[]
    case Some(devices) =>
      && a.ports.Keys == devices.Keys
      && forall i <- devices :: SameAddresses(a.ports[i].sender.device, devices[i])
  }

  predicate TableIndexed(devices: Devices) {
    forall i <- devices :: devices[i].ifIndex == i
  }

  /** A sender within its bounds that sends from its own interface and MAC address only. */
  predicate OwnFrames(s: S.Sender, i: Uint32) {
    && R.Bounded(s)
    && s.device.ifIndex == i
    && forall a <- s.log :: a.device.ifIndex == i && a.device.mac == s.device.mac
  }

  predicate Sound(a: Agent) {
    && FollowsSnapshot(a)
    && TableIndexed(a.repo.devices)
    && forall i <- a.ports :: OwnFrames(a.ports[i].sender, i)
  }

  lemma TryTransmitOwn(s: S.Sender, net: S.Network, i: Uint32)
    requires OwnFrames(s, i)
    ensures OwnFrames(S.TryTransmit(s, net), i)
    ensures SameAddresses(S.TryTransmit(s, net).device, s.device)
  {
  }

  lemma TriggerOwn(s: S.Sender, net: S.Network, i: Uint32)
    requires OwnFrames(s, i)
    ensures OwnFrames(S.Trigger(s, net), i) && OwnFrames(S.NewNeighbour(s, net), i)
  {
    var fast := if s.fast == 0 then S.FAST_TRANSMIT_AMOUNT - 1 else s.fast - 1;
    TryTransmitOwn(s.(timer := S.Interval(s.fast), ready := true), net, i);
    TryTransmitOwn(s.(fast := fast, timer := S.Interval(fast), ready := true), net, i);
  }

  lemma TickOwn(s: S.Sender, d: Uint64, net: S.Network, i: Uint32)
    requires OwnFrames(s, i)
    ensures OwnFrames(S.TickState(s, d, net), i)
    ensures SameAddresses(S.TickState(s, d, net).device, s.device)
  {
    var expired := s.timer <= d;
    var fast := if expired && s.fast > 0 then s.fast - 1 else s.fast;
    var timer := if expired then S.Interval(fast) else s.timer - d;
    TryTransmitOwn(
      s.(credits := S.Replenish(s.credits, d), fast := fast, timer := timer, ready := s.ready || expired), net, i);
  }

  lemma UpdateOwn(s: S.Sender, data: DeviceData, net: S.Network, i: Uint32)
    requires OwnFrames(s, i)
    ensures OwnFrames(S.UpdateState(s, data, net), i)
  {
    var merged := S.Merge(s.device, data);
    if merged != s.device {
      var copied := s.(device := merged.(operational := s.device.operational));
      TriggerOwn(copied, net, i);
      var switched :=
        if s.device.operational && !data.operational then S.NewNeighbour(copied, net) else copied;
      TriggerOwn(switched.(device := switched.device.(operational := data.operational)), net, i);
    }
  }

  lemma AddedOwn(device: DeviceData, net: S.Network)
    ensures OwnFrames(S.AddedSender(device, net), device.ifIndex)
  {
    TriggerOwn(S.Sender(device, 0, 0, 0, false, []), net, device.ifIndex);
    TriggerOwn(S.NewSender(device, net), net, device.ifIndex);
  }

  lemma TickSound(a: Agent, d: Uint64, outcome: Q.SendOutcome)
    requires Sound(a)
    ensures Sound(TickAgent(a, d, outcome))
  {
    TickKeeps(a.repo, d, outcome);
    forall i | i in a.ports
      ensures OwnFrames(Ticked(a.ports, d)[i].sender, i)
      ensures SameAddresses(Ticked(a.ports, d)[i].sender.device, a.ports[i].sender.device)
    {
      TickOwn(a.ports[i].sender, d, a.ports[i].net, i);
    }
  }

  lemma ReconciledOwn(ports: map<Uint32, Port>, devices: Devices, nets: Uint32 -> S.Network)
    requires TableIndexed(devices) && forall i <- ports :: OwnFrames(ports[i].sender, i)
    ensures forall i <- devices :: OwnFrames(Reconciled(ports, devices, nets)[i].sender, i)
  {
    forall i | i in devices ensures OwnFrames(Reconciled(ports, devices, nets)[i].sender, i) {
      if i in ports {
        UpdateOwn(ports[i].sender, devices[i], ports[i].net, i);
      } else {
        AddedOwn(devices[i], nets(i));
      }
    }
  }

  lemma TablesStayIndexed(devices: Devices, v: N.View)
    requires TableIndexed(devices)
    ensures v.LinkView? ==> TableIndexed(D.AfterLink(devices, v))
    ensures v.AddrView? ==> TableIndexed(D.AfterAddress(devices, v))
  {
  }

  lemma AddressPacketSound(a: Agent, v: N.View, nets: Uint32 -> S.Network)
    requires Sound(a)
    ensures Sound(AddressPacketAgent(a, v, nets))
  {
    AddressPacketSnapshot(a.repo, v);
    TablesStayIndexed(a.repo.devices, v);
    if HandedOut(a.repo, v).Some? {
      Reconciliation(a.ports, a.repo.devices, nets);
      ReconciledOwn(a.ports, a.repo.devices, nets);
    }
  }

  lemma StepSound(a: Agent, e: Event)
    requires Sound(a)
    ensures Sound(Step(a, e))
  {
    match e
    case Tick(d, outcome) => TickSound(a, d, outcome);
    case Monitor => SnapshotAppend(a.repo.notes, D.Monitored);
    case DevicePacket(v, outcome) =>
      DeviceControlKeeps(a.repo, D.DeviceReply(v), outcome);
      TablesStayIndexed(a.repo.devices, v);
    case AddressPacket(v, nets) => AddressPacketSound(a, v, nets);
  }

  lemma {:induction false} RunSound(a: Agent, es: seq<Event>)
    requires Sound(a)
    ensures Sound(Run(a, es))
    decreases |es|
  {
    if es != [] {
      StepSound(a, es[0]);
      RunSound(Step(a, es[0]), es[1..]);
    }
  }

  /** In every run the senders are those of the latest snapshot, by index, name and addresses; each is
      within its bounds and has sent from its own interface and MAC address only. */
  lemma SendersFollow(es: seq<Event>)
    ensures FollowsSnapshot(Run(NEW_AGENT, es))
    ensures forall i <- Run(NEW_AGENT, es).ports :: OwnFrames(Run(NEW_AGENT, es).ports[i].sender, i)
  {
    RunSound(NEW_AGENT, es);
  }

  lemma {:induction false} SnapshotAt(notes: seq<D.Note>) returns (j: nat)
    requires LatestSnapshot(notes).Some?
    ensures j < |notes| && notes[j] == D.Synced(LatestSnapshot(notes).value)
  {
    j := |notes| - 1;
    if !notes[j].Synced? {
      var front := notes[..j];
      j := SnapshotAt(front);
      assert front[j] == notes[j];
    }
  }

  /** No sender exists before a whole device dump has been read: where there is one, its index, name and
      addresses come from a synchronisation that a completed device dump precedes. */
  lemma SendersComeFromDumps(es: seq<Event>, i: Uint32) returns (k: nat, j: nat)
    requires i in Run(NEW_AGENT, es).ports
    ensures var notes := Run(NEW_AGENT, es).repo.notes;
            && k < j < |notes|
            && notes[k].DeviceDone?
            && notes[j].Synced? && i in notes[j].snapshot
            && SameAddresses(Run(NEW_AGENT, es).ports[i].sender.device, notes[j].snapshot[i])
  {
    SendersFollow(es);
    RepoRuns(NEW_AGENT, es);
    j := SnapshotAt(Run(NEW_AGENT, es).repo.notes);
    k := D.DumpBeforeSync(DeviceEvents(es), j);
  }
}
