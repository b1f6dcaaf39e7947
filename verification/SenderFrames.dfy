/** What the frames of a sender say and when changes are announced: every frame carries the device as it is,
    every change is announced at once or stays pending, and when nothing is pending the last frame says
    exactly what is true of the device now. */
module SenderFrames {
  import opened Common
  import opened SenderSpec
  import opened R = SenderRuns

  // ---------- What a frame says ----------

  /** The same device, apart from whether it is operational. */
  predicate SameDevice(a: DeviceData, b: DeviceData) {
    a.mac == b.mac && a.ipv4 == b.ipv4 && a.ipv6 == b.ipv6 && a.name == b.name && a.ifIndex == b.ifIndex
  }

  /** All frames of `after` that `before` does not have carry the device of `after`. */
  predicate Tells(before: Sender, after: Sender) {
    && before.log <= after.log
    && forall i :: |before.log| <= i < |after.log| ==> SameDevice(after.log[i].device, after.device)
  }

  lemma TriggerTells(s: Sender, net: Network)
    ensures Tells(s, Trigger(s, net)) && Tells(s, NewNeighbour(s, net))
    ensures SameDevice(Trigger(s, net).device, s.device) && SameDevice(NewNeighbour(s, net).device, s.device)
  {
  }

  lemma UpdateTells(s: Sender, data: DeviceData, net: Network)
    ensures Tells(s, UpdateState(s, data, net))
    ensures SameDevice(UpdateState(s, data, net).device, Merge(s.device, data))
  {
    var merged := Merge(s.device, data);
    if merged != s.device {
      var copied := s.(device := merged.(operational := s.device.operational));
      TriggerTells(copied, net);
      var switched :=
        if s.device.operational && !data.operational then NewNeighbour(copied, net) else copied;
      TriggerTells(switched.(device := switched.device.(operational := data.operational)), net);
    }
  }

  /** Every frame an event sends carries the device as it is after the event. */
  lemma StepTells(s: Sender, e: Event, net: Network)
    ensures Tells(s, Step(s, e, net))
    ensures SameDevice(Step(s, e, net).device, if e.Update? then Merge(s.device, e.data) else s.device)
  {
    match e
    case Update(data) => UpdateTells(s, data, net);
    case Neighbour => TriggerTells(s, net);
    case LocalChange => TriggerTells(s, net);
    case Tick(_) =>
  }

  /** Nothing is ever sent without a MAC address or from an index that is no signed 32-bit number, and every
      frame but a farewell asks to be kept for thirty seconds. */
  lemma SendsNeed(s: Sender, e: Event, net: Network)
    ensures var t := Step(s, e, net);
            |t.log| > |s.log| ==>
              && s.device.mac.Some? && s.device.ifIndex <= 2147483647
              && forall i :: |s.log| <= i < |t.log| ==> t.log[i].ttl == 30
    ensures |EndTransmission(s, net).log| > |s.log| <==> s.device.mac.Some? && s.device.ifIndex <= 2147483647
  {
    StepPays(s, e, net);
  }

  /** The farewell carries it too. */
  lemma FarewellTells(s: Sender, net: Network)
    ensures Tells(s, EndTransmission(s, net))
    ensures forall i :: |s.log| <= i < |EndTransmission(s, net).log| ==> EndTransmission(s, net).log[i].ttl == 0
  {
  }

  /** ENETDOWN, and it alone, takes a device down without an update; the device an update brings up stays up
      unless its announcement is answered with it. */
  lemma StepOperational(s: Sender, e: Event, net: Network)
    ensures var t := Step(s, e, net);
            var sent := |t.log| > |s.log|;
            t.device.operational <==>
              if e.Update? && Changes(s, e.data) then
                e.data.operational && !(sent && net(|s.log|).NetDown?)
              else
                s.device.operational && !(sent && net(|s.log|).NetDown?)
  {
  }

  /** The farewell is answered likewise. */
  lemma FarewellOperational(s: Sender, net: Network)
    ensures EndTransmission(s, net).device.operational <==>
            s.device.operational && !(CanSend(s.device) && net(|s.log|).NetDown?)
  {
  }

  // ---------- When a change is announced ----------

  predicate Changes(s: Sender, data: DeviceData) {
    || s.device.name != data.name
    || s.device.ipv4 != data.ipv4
    || s.device.ipv6 != data.ipv6
    || s.device.operational != data.operational
  }

  function AtMost(n: nat, limit: nat): nat {
    if n <= limit then n else limit
  }

  /** An update that changes nothing has no effect at all. One that does restarts the interval, and announces
      the change with one frame, or with two when it takes the device down; what the credits do not pay for
      stays pending. */
  lemma UpdateAnnounces(s: Sender, data: DeviceData, net: Network)
    ensures !Changes(s, data) ==> UpdateState(s, data, net) == s
    ensures Changes(s, data) ==>
              var t := UpdateState(s, data, net);
              var due := if s.device.operational && !data.operational then 2 else 1;
              var sent := if s.device.mac.Some? then AtMost(due, s.credits) else 0;
              && t.timer == Interval(t.fast)
              && t.credits == s.credits - sent
              && |t.log| == |s.log| + (if CanSend(s.device) then sent else 0)
              && (t.ready <==> sent < due)
  {
  }

  /** The same of a local change and of a new neighbour. */
  lemma TriggerAnnounces(s: Sender, net: Network)
    ensures forall t <- [Trigger(s, net), NewNeighbour(s, net)] ::
              var sent := if s.device.mac.Some? then AtMost(1, s.credits) else 0;
              && t.timer == Interval(t.fast)
              && t.credits == s.credits - sent
              && |t.log| == |s.log| + (if CanSend(s.device) then sent else 0)
              && (t.ready <==> sent == 0)
  {
  }

  // ---------- Freshness ----------

  /** Unless something is pending, the last frame says what is true of the device now. */
  predicate Fresh(s: Sender) {
    !s.ready ==> s.log != [] && SameDevice(s.log[|s.log| - 1].device, s.device)
  }

  lemma StepFresh(s: Sender, e: Event, net: Network)
    requires Fresh(s) && CanSend(s.device)
    ensures Fresh(Step(s, e, net)) && CanSend(Step(s, e, net).device)
  {
    StepTells(s, e, net);
    match e
    case Update(data) => UpdateAnnounces(s, data, net);
    case Neighbour => TriggerAnnounces(s, net);
    case LocalChange => TriggerAnnounces(s, net);
    case Tick(_) =>
  }

  /** The device after a run, read off the updates alone. */
  function DeviceAfter(device: DeviceData, es: seq<Event>): DeviceData
    decreases |es|
  {
    if es == [] then device
    else DeviceAfter(if es[0].Update? then Merge(device, es[0].data) else device, es[1..])
  }

  /** Freshness over every run and network: the device follows the updates, and unless something is pending
      the last frame carries it as the updates have left it. */
  lemma {:induction false} RunFresh(s: Sender, es: seq<Event>, net: Network)
    requires Fresh(s) && CanSend(s.device)
    ensures var t := Run(s, es, net);
            && CanSend(t.device) && Fresh(t)
            && SameDevice(t.device, DeviceAfter(s.device, es))
    decreases |es|
  {
    if es != [] {
      var t := Step(s, es[0], net);
      StepFresh(s, es[0], net);
      StepTells(s, es[0], net);
      RunFresh(t, es[1..], net);
      SameAfter(t.device, if es[0].Update? then Merge(s.device, es[0].data) else s.device, es[1..]);
    }
  }

  lemma {:induction false} SameAfter(a: DeviceData, b: DeviceData, es: seq<Event>)
    requires SameDevice(a, b)
    ensures SameDevice(DeviceAfter(a, es), DeviceAfter(b, es))
    decreases |es|
  {
    if es != [] {
      SameAfter(if es[0].Update? then Merge(a, es[0].data) else a,
                if es[0].Update? then Merge(b, es[0].data) else b, es[1..]);
    }
  }

  /** A sender starts fresh: its first frame is pending. */
  lemma AddedIsFresh(device: DeviceData, net: Network)
    ensures Fresh(AddedSender(device, net)) && AddedSender(device, net).device == device
  {
  }

  /** Nothing stays pending beyond a tick of one to five seconds. */
  lemma TickSettles(s: Sender, d: Uint64, net: Network)
    requires Healthy(s) && 1 <= d <= MAX_TRANSMIT_CREDITS
    ensures !TickState(s, d, net).ready
  {
  }

  /** So after such a tick the last frame carries the device as the updates have left it. */
  lemma SettledTruth(s: Sender, es: seq<Event>, d: Uint64, net: Network)
    requires Fresh(s) && CanSend(s.device) && Healthy(Run(s, es, net)) && 1 <= d <= MAX_TRANSMIT_CREDITS
    ensures var t := TickState(Run(s, es, net), d, net);
            t.log != [] && SameDevice(t.log[|t.log| - 1].device, DeviceAfter(s.device, es))
  {
    RunFresh(s, es, net);
    StepFresh(Run(s, es, net), Tick(d), net);
    StepTells(Run(s, es, net), Tick(d), net);
    TickSettles(Run(s, es, net), d, net);
  }

  // ---------- Credits ----------

  /** Credits after any tick: topped up if the whole of it fits, left alone if not, and lowered by one
      that is so long that the 64-bit sum wraps. */
  lemma ReplenishCases(credits: Uint16, d: Uint64)
    requires credits <= MAX_TRANSMIT_CREDITS
    ensures Replenish(credits, d) ==
            if credits + d <= MAX_TRANSMIT_CREDITS then credits + d
            else if credits + d < 0x1_0000_0000_0000_0000 then credits
            else credits + d - 0x1_0000_0000_0000_0000
  {
  }

  /** A sender at rest saves one credit a second, up to five, until its timer runs out. */
  lemma {:induction false} IdleSaves(s: Sender, n: nat, net: Network)
    requires s.device.operational && !s.ready && s.credits <= MAX_TRANSMIT_CREDITS && n < s.timer
    ensures Run(s, Ticks(1, n), net)
         == s.(timer := s.timer - n, credits := AtMost(s.credits + n, MAX_TRANSMIT_CREDITS))
    decreases n
  {
    if n > 0 {
      assert Ticks(1, n)[1..] == Ticks(1, n - 1);
      IdleSaves(Step(s, Tick(1), net), n - 1, net);
    }
  }

  function LocalChanges(n: nat): seq<Event> {
    seq(n, _ => LocalChange)
  }

  /** A burst of local changes sends as many frames as there are credits, and leaves one pending exactly if
      there were more changes. */
  lemma {:induction false} BurstSpends(s: Sender, n: nat, net: Network)
    requires CanSend(s.device) && n > 0
    ensures var t := Run(s, LocalChanges(n), net);
            && |t.log| == |s.log| + AtMost(n, s.credits)
            && t.credits == s.credits - AtMost(n, s.credits)
            && (t.ready <==> n > s.credits)
    decreases n
  {
    var t := Step(s, LocalChange, net);
    assert LocalChanges(n)[1..] == LocalChanges(n - 1);
    if n > 1 {
      BurstSpends(t, n - 1, net);
    } else {
      assert Run(t, LocalChanges(0), net) == t;
    }
  }
}
