/** The LLDP transmit state machine of one port as a pure transition system.
    `Sender` is the state; `Run` folds any sequence of events over it. */
module SenderSpec {
  import opened Common

  const MAX_TRANSMIT_CREDITS: Uint16 := 5
  const FAST_TRANSMIT_AMOUNT: Uint16 := 4
  const TARGET_TTL: Uint16 := 30
  const PACKET_HOLD_AMOUNT: Uint16 := 5
  const MESSAGE_TRANSMIT_INTERVAL: Uint16 := TARGET_TTL / PACKET_HOLD_AMOUNT
  const MESSAGE_FAST_INTERVAL: Uint16 := 1

  /** Outcome of one `sendto`; ENETDOWN is told apart from the other errors. */
  datatype SendResult = Sent | NetDown | OtherError

  /** The environment: the outcome of the n-th frame this sender hands to the socket. */
  type Network = nat -> SendResult

  /** A frame handed to the socket: its time to live and the device it was built from. */
  datatype Attempt = Attempt(ttl: Uint16, device: DeviceData)

  datatype Sender = Sender(
    device: DeviceData,
    timer: Uint16,
    credits: Uint16,
    fast: Uint16,
    ready: bool,
    log: seq<Attempt>)

  predicate CanSend(device: DeviceData) {
    device.mac.Some? && device.ifIndex <= INT_MAX
  }

  function SendLldp(s: Sender, ttl: Uint16, net: Network): Sender {
    if !CanSend(s.device) then s else
      var down := net(|s.log|).NetDown?;
      s.(log := s.log + [Attempt(ttl, s.device)],
         device := s.device.(operational := s.device.operational && !down))
  }

  function EndTransmission(s: Sender, net: Network): Sender {
    SendLldp(s, 0, net)
  }

  function TryTransmit(s: Sender, net: Network): Sender {
    if s.ready && s.credits > 0 && s.device.mac.Some? then
      SendLldp(s.(ready := false, credits := s.credits - 1), TARGET_TTL, net)
    else
      s
  }

  function Interval(fast: Uint16): Uint16 {
    if fast > 0 then MESSAGE_FAST_INTERVAL else MESSAGE_TRANSMIT_INTERVAL
  }

  function Trigger(s: Sender, net: Network): Sender {
    TryTransmit(s.(timer := Interval(s.fast), ready := true), net)
  }

  function NewNeighbour(s: Sender, net: Network): Sender {
    Trigger(s.(fast := if s.fast == 0 then FAST_TRANSMIT_AMOUNT - 1 else s.fast - 1), net)
  }

  /** Credits after `d` seconds. The comparison is made in 64 bits, and a sum above the
      maximum leaves the credits as they are instead of topping them up. */
  function Replenish(credits: Uint16, d: Uint64): Uint16 {
    var sum := (credits + d) % 0x1_0000_0000_0000_0000;
    if sum <= MAX_TRANSMIT_CREDITS then sum else credits
  }

  /** One clock tick with the nested calls flattened: a single transmission opportunity,
      pending if it was pending before or if the interval timer runs out in this tick. */
  function TickState(s: Sender, d: Uint64, net: Network): Sender {
    if !s.device.operational then s else
      var expired := s.timer <= d;
      var fast := if expired && s.fast > 0 then s.fast - 1 else s.fast;
      var timer := if expired then Interval(fast) else s.timer - d;
      TryTransmit(
        s.(credits := Replenish(s.credits, d), fast := fast, timer := timer, ready := s.ready || expired),
        net)
  }

  /** The device record after `Update`: the MAC address and the interface index are never copied. */
  function Merge(current: DeviceData, data: DeviceData): DeviceData {
    data.(mac := current.mac, ifIndex := current.ifIndex)
  }

  /** As written: becoming operational restarts nothing, ceasing to be operational starts the
      fast phase, and any difference is announced. */
  function UpdateState(s: Sender, data: DeviceData, net: Network): Sender {
    var merged := Merge(s.device, data);
    if merged == s.device then s else
      var copied := s.(device := merged.(operational := s.device.operational));
      var switched :=
        if s.device.operational && !data.operational then NewNeighbour(copied, net) else copied;
      Trigger(switched.(device := switched.device.(operational := data.operational)), net)
  }

  function NewSender(device: DeviceData, net: Network): Sender {
    var idle := Sender(device, 0, 0, 0, false, []);
    if device.operational then NewNeighbour(idle, net) else idle
  }

  /** A sender as `UpdateState` of the repository adds it: constructed, then told of a new neighbour. */
  function AddedSender(device: DeviceData, net: Network): Sender {
    NewNeighbour(NewSender(device, net), net)
  }

  datatype Event =
    | Tick(seconds: Uint64)
    | Update(data: DeviceData)
    | Neighbour
    | LocalChange

  function Step(s: Sender, e: Event, net: Network): Sender {
    match e
    case Tick(d) => TickState(s, d, net)
    case Update(data) => UpdateState(s, data, net)
    case Neighbour => NewNeighbour(s, net)
    case LocalChange => Trigger(s, net)
  }

  function Run(s: Sender, es: seq<Event>, net: Network): Sender
    decreases |es|
  {
    if es == [] then s else Run(Step(s, es[0], net), es[1..], net)
  }

  function Seconds(es: seq<Event>): nat {
    if es == [] then 0 else (if es[0].Tick? then es[0].seconds else 0) + Seconds(es[1..])
  }
}
