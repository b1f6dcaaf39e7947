/** Reconciliation of the per-port senders with a new device snapshot: known devices are updated,
    new ones get a sender, and vanished ones say goodbye with a zero time to live. */
module LldpRepositoryObject {
  import opened Common
  import opened S = SenderSpec
  import R = SenderRuns
  import N = NetlinkFraming
  import Q = DumpReader
  import D = DeviceRepository
  import opened LldpSenderObject
  import opened DeviceRepositoryObject

  // ---------- What reconciliation means ----------

  /** A sender and the outcomes of its transmissions. */
  datatype Port = Port(sender: Sender, net: Network)

  type Devices = map<Uint32, DeviceData>

  function Reconciled(ports: map<Uint32, Port>, devices: Devices, nets: Uint32 -> Network): map<Uint32, Port> {
    map i | i in devices :: Renewed(ports, i, devices[i], nets(i))
  }

  function Renewed(ports: map<Uint32, Port>, i: Uint32, device: DeviceData, net: Network): Port {
    RenewedPort(if i in ports then Some(ports[i]) else None, device, net)
  }

  function RenewedPort(port: Option<Port>, device: DeviceData, net: Network): Port {
    match port
    case Some(p) => Port(S.UpdateState(p.sender, device, p.net), p.net)
    case None => Port(AddedSender(device, net), net)
  }

  function Departed(ports: map<Uint32, Port>, devices: Devices): map<Uint32, Port> {
    map i | i in ports.Keys - devices.Keys ::
      Port(EndTransmission(ports[i].sender, ports[i].net), ports[i].net)
  }

  /** The attempts in a log that withdraw the device from its neighbours. */
  function Farewells(log: seq<Attempt>): nat {
    if log == [] then 0 else
      Farewells(log[..|log| - 1]) + (if log[|log| - 1].ttl == 0 then 1 else 0)
  }

  /** Frames with the target time to live are no farewells. */
  lemma {:induction false} NoFarewells(before: seq<Attempt>, after: seq<Attempt>)
    requires before <= after
    requires forall i :: |before| <= i < |after| ==> after[i].ttl == TARGET_TTL
    ensures Farewells(after) == Farewells(before)
  {
    if |after| > |before| {
      NoFarewells(before, after[..|after| - 1]);
    } else {
      assert after == before;
    }
  }

  predicate SameAddresses(a: DeviceData, b: DeviceData) {
    a.name == b.name && a.ipv4 == b.ipv4 && a.ipv6 == b.ipv6
  }

  lemma TriggerKeepsDevice(s: Sender, net: Network)
    ensures SameAddresses(Trigger(s, net).device, s.device)
    ensures SameAddresses(NewNeighbour(s, net).device, s.device)
  {
  }

  lemma UpdateCopies(s: Sender, data: DeviceData, net: Network)
    ensures SameAddresses(S.UpdateState(s, data, net).device, data)
    ensures S.UpdateState(s, data, net).device.mac == s.device.mac
    ensures S.UpdateState(s, data, net).device.ifIndex == s.device.ifIndex
  {
  }

  lemma AddedCopies(device: DeviceData, net: Network)
    ensures SameAddresses(AddedSender(device, net).device, device)
    ensures Farewells(AddedSender(device, net).log) == 0
  {
    TriggerKeepsDevice(NewSender(device, net), net);
    R.TriggerPays(NewSender(device, net), net);
    NoFarewells([], AddedSender(device, net).log);
  }

  /** After reconciliation there is exactly one sender for each device of the snapshot, it carries
      that device's name and addresses, and it has said no farewell in the course of it; a vanished
      device has attempted exactly one farewell if it could send at all, and none otherwise. */
  lemma Reconciliation(ports: map<Uint32, Port>, devices: Devices, nets: Uint32 -> Network)
    ensures Reconciled(ports, devices, nets).Keys == devices.Keys
    ensures Departed(ports, devices).Keys == ports.Keys - devices.Keys
    ensures forall i <- devices ::
              var s := Reconciled(ports, devices, nets)[i].sender;
              && SameAddresses(s.device, devices[i])
              && Farewells(s.log) == if i in ports then Farewells(ports[i].sender.log) else 0
    ensures forall i <- ports.Keys - devices.Keys ::
              Farewells(Departed(ports, devices)[i].sender.log) ==
              Farewells(ports[i].sender.log) + if CanSend(ports[i].sender.device) then 1 else 0
  {
    forall i | i in devices
      ensures var s := Reconciled(ports, devices, nets)[i].sender;
              && SameAddresses(s.device, devices[i])
              && Farewells(s.log) == if i in ports then Farewells(ports[i].sender.log) else 0
    {
      if i in ports {
        var s, net := ports[i].sender, ports[i].net;
        UpdateCopies(s, devices[i], net);
        R.UpdatePays(s, devices[i], net);
        NoFarewells(s.log, S.UpdateState(s, devices[i], net).log);
      } else {
        AddedCopies(devices[i], nets(i));
      }
    }
    forall i | i in ports.Keys - devices.Keys
      ensures Farewells(Departed(ports, devices)[i].sender.log)
           == Farewells(ports[i].sender.log) + if CanSend(ports[i].sender.device) then 1 else 0
    {
      FarewellSent(ports[i].sender, ports[i].net);
    }
  }

  lemma FarewellSent(s: Sender, net: Network)
    ensures Farewells(EndTransmission(s, net).log) == Farewells(s.log) + if CanSend(s.device) then 1 else 0
  {
    var log := EndTransmission(s, net).log;
    if CanSend(s.device) {
      assert log[..|log| - 1] == s.log;
    }
  }

  // ---------- The repository as a state machine ----------

  /** The device repository it owns, and the senders. */
  datatype Agent = Agent(repo: D.Repo, ports: map<Uint32, Port>)

  const NEW_AGENT := Agent(D.NEW_REPO, map[])

  /** What the synchronisation callback is handed by an address packet, if it is called. */
  function HandedOut(r: D.Repo, v: N.View): Option<Devices> {
    if D.AddressControl(r, D.AddressReply(v)).1.Completed? then Some(r.devices) else None
  }

  function TickedPort(p: Port, d: Uint64): Port {
    Port(TickState(p.sender, d, p.net), p.net)
  }

  function Ticked(ports: map<Uint32, Port>, d: Uint64): map<Uint32, Port> {
    map i | i in ports :: TickedPort(ports[i], d)
  }

  function TickAgent(a: Agent, d: Uint64, outcome: Q.SendOutcome): Agent {
    Agent(D.TickState(a.repo, d, outcome), Ticked(a.ports, d))
  }

  /** An address packet; the end of an address dump reconciles the senders with the device table. */
  function AddressPacketAgent(a: Agent, v: N.View, nets: Uint32 -> Network): Agent {
    Agent(
      D.AddressPacketState(a.repo, v),
      match HandedOut(a.repo, v)
      case None => a.ports
      case Some(devices) => Reconciled(a.ports, devices, nets))
  }

  /** Overlaying all of `goal` but `todo`, and then one more key. */
  lemma OverlayNext<K, V>(before: map<K, V>, goal: map<K, V>, todo: set<K>, k: K)
    requires k in todo && k in goal
    ensures (before + (goal - todo))[k := goal[k]] == before + (goal - (todo - {k}))
    ensures k in before + (goal - todo) <==> k in before
    ensures k in before ==> (before + (goal - todo))[k] == before[k]
  {
  }

  lemma OverlayEnds<K, V>(before: map<K, V>, goal: map<K, V>)
    ensures before + (goal - goal.Keys) == before
    ensures before + (goal - {}) == before + goal
  {
    assert goal - {} == goal;
  }

  // ---------- The repository ----------

  /** `ndisc::LldpRepository`: the senders by interface index, held by value as in the source's map.
      A method on one of them loads it, runs, and stores it back. */
  class LldpRepository {
    var currentState: map<Uint32, Port>
    const deviceRepository: Repository

    ghost function State(): Agent
      reads this, deviceRepository, deviceRepository.deviceReader, deviceRepository.addressReader
    {
      Agent(deviceRepository.State(), currentState)
    }

    constructor ()
      ensures deviceRepository.Valid() && State() == NEW_AGENT
    {
      currentState := map[];
      deviceRepository := new Repository();
    }

    /** One iteration of the first loop of `UpdateState`. */
    method UpdateOne(i: Uint32, device: DeviceData, net: Network)
      modifies `currentState
      ensures currentState == old(currentState)[i := Renewed(old(currentState), i, device, net)]
    {
      if i in currentState {
        var sender := new LldpSender.Load(currentState[i].sender, currentState[i].net);
        sender.Update(device);
        var stored := sender.Store();
        currentState := currentState[i := currentState[i].(sender := stored)];
      } else {
        var sender := new LldpSender(net, device);
        var stored := sender.Store();
        currentState := currentState[i := Port(stored, net)];
        CreateLldpStateMachine(i);
      }
    }

    method CreateLldpStateMachine(i: Uint32)
      modifies `currentState
      ensures currentState == if i !in old(currentState) then old(currentState) else
                var p := old(currentState)[i];
                old(currentState)[i := Port(S.NewNeighbour(p.sender, p.net), p.net)]
    {
      if i in currentState {
        var sender := new LldpSender.Load(currentState[i].sender, currentState[i].net);
        sender.NewNeighbour();
        var stored := sender.Store();
        currentState := currentState[i := currentState[i].(sender := stored)];
      }
    }

    /** Says the farewell and forgets the sender; its last state is returned. An unknown index is
        ignored. */
    method DeleteLldpStateMachine(i: Uint32) returns (last: Option<Port>)
      modifies `currentState
      ensures currentState == old(currentState) - {i}
      ensures last == if i !in old(currentState) then None else
                var p := old(currentState)[i]; Some(Port(EndTransmission(p.sender, p.net), p.net))
    {
      if i !in currentState {
        return None;
      }
      var sender := new LldpSender.Load(currentState[i].sender, currentState[i].net);
      sender.EndTransmission();
      var stored := sender.Store();
      last := Some(Port(stored, currentState[i].net));
      currentState := currentState - {i};
    }

    /** The first loop: every device of the snapshot, in any order. */
    method UpdateAll(devices: Devices, nets: Uint32 -> Network)
      modifies `currentState
      ensures currentState == old(currentState) + Reconciled(old(currentState), devices, nets)
    {
      ghost var before, goal := currentState, Reconciled(currentState, devices, nets);
      var todo := devices.Keys;
      OverlayEnds(before, goal);
      while todo != {}
        invariant todo <= devices.Keys
        invariant currentState == before + (goal - todo)
        decreases |todo|
      {
        var i :| i in todo;
        OverlayNext(before, goal, todo, i);
        UpdateOne(i, devices[i], nets(i));
        assert currentState[i] == goal[i];
        todo := todo - {i};
      }
    }

    /** The second loop: every sender without a device in the snapshot. */
    method DeleteAll(deletables: set<Uint32>) returns (departed: map<Uint32, Port>)
      requires deletables <= currentState.Keys
      modifies `currentState
      ensures currentState == old(currentState) - deletables
      ensures departed == map i | i in deletables ::
                Port(EndTransmission(old(currentState)[i].sender, old(currentState)[i].net), old(currentState)[i].net)
    {
      departed := map[];
      var todo := deletables;
      while todo != {}
        invariant todo <= deletables
        invariant currentState == old(currentState) - (deletables - todo)
        invariant departed == map i | i in deletables - todo ::
                    var p := old(currentState)[i];
                    Port(EndTransmission(p.sender, p.net), p.net)
        decreases |todo|
      {
        var i :| i in todo;
        var last := DeleteLldpStateMachine(i);
        departed := departed[i := last.value];
        todo := todo - {i};
      }
    }

    /** `UpdateState`: the senders become those of the reconciled snapshot; the vanished ones are
        returned as they were after their farewell. */
    method UpdateState(devices: Devices, nets: Uint32 -> Network) returns (departed: map<Uint32, Port>)
      modifies `currentState
      ensures currentState == Reconciled(old(currentState), devices, nets)
      ensures departed == Departed(old(currentState), devices)
    {
      UpdateAll(devices, nets);
      departed := DeleteAll(currentState.Keys - devices.Keys);
    }

    method TickOne(i: Uint32, d: Uint64)
      requires i in currentState
      modifies `currentState
      ensures currentState == old(currentState)[i := TickedPort(old(currentState)[i], d)]
    {
      var sender := new LldpSender.Load(currentState[i].sender, currentState[i].net);
      sender.Tick(d);
      var stored := sender.Store();
      currentState := currentState[i := Port(stored, currentState[i].net)];
    }

    method TickAll(d: Uint64)
      modifies `currentState
      ensures currentState == Ticked(old(currentState), d)
    {
      ghost var before := currentState;
      var todo := currentState.Keys;
      while todo != {}
        invariant todo <= before.Keys == currentState.Keys
        invariant forall i <- before :: currentState[i] == if i in todo then before[i] else TickedPort(before[i], d)
        decreases |todo|
      {
        var i :| i in todo;
        TickOne(i, d);
        todo := todo - {i};
      }
    }

    /** `Tick`: the device repository first, then every sender. */
    method Tick(d: Uint64, outcome: Q.SendOutcome)
      requires deviceRepository.Valid() && d <= INT_MAX
      modifies this, deviceRepository, deviceRepository.deviceReader, deviceRepository.addressReader
      ensures State() == TickAgent(old(State()), d, outcome)
    {
      deviceRepository.Tick(d, outcome);
      TickAll(d);
    }

    /** A packet on the address reader's socket. The repository has set `UpdateState` as the
        synchronisation callback. */
    method OnAddressPacket(v: N.View, nets: Uint32 -> Network)
      requires deviceRepository.Valid()
      modifies this, deviceRepository, deviceRepository.addressReader
      ensures State() == AddressPacketAgent(old(State()), v, nets)
    {
      var snapshot := deviceRepository.OnAddressPacket(v);
      if snapshot.Some? {
        var departed := UpdateState(snapshot.value, nets);
      }
    }
  }
}
