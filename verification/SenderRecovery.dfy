/** What happens to the fast phase of a sender whose device goes down and comes back. An update that takes
    the device down starts or shortens it, ticks are ignored while it is down, and the update that brings
    it back leaves the fast counter alone: the phase is run then, late but whole. */
module SenderRecovery {
  import opened Common
  import opened SenderSpec
  import opened R = SenderRuns

  /** The fast counter after a new neighbour. */
  function Refreshed(fast: Uint16): Uint16 {
    if fast == 0 then FAST_TRANSMIT_AMOUNT - 1 else fast - 1
  }

  /** Only the update that takes a device down touches the fast counter, as a new neighbour does. */
  lemma UpdateFast(s: Sender, data: DeviceData, net: Network)
    ensures UpdateState(s, data, net).fast
         == if s.device.operational && !data.operational then Refreshed(s.fast) else s.fast
    ensures UpdateState(s, data, net).device.operational == data.operational
            || net(|s.log|).NetDown? || net(|s.log| + 1).NetDown?
  {
  }

  // ---------- While the device is down ----------

  /** Updates that leave the device down; anything else may happen. */
  predicate StaysDown(es: seq<Event>) {
    forall e <- es :: e.Update? ==> !e.data.operational
  }

  /** The fast counter after a run on a device that is down: ticks do not count. */
  function FastAfter(fast: Uint16, es: seq<Event>): Uint16
    decreases |es|
  {
    if es == [] then fast else FastAfter(if es[0].Neighbour? then Refreshed(fast) else fast, es[1..])
  }

  lemma DownStep(s: Sender, e: Event, net: Network)
    requires !s.device.operational && (e.Update? ==> !e.data.operational)
    ensures var t := Step(s, e, net);
            && !t.device.operational
            && t.device.mac == s.device.mac && t.device.ifIndex == s.device.ifIndex
            && t.fast == if e.Neighbour? then Refreshed(s.fast) else s.fast
  {
  }

  lemma {:induction false} DownRun(s: Sender, es: seq<Event>, net: Network)
    requires !s.device.operational && StaysDown(es)
    ensures var t := Run(s, es, net);
            && !t.device.operational
            && t.device.mac == s.device.mac && t.device.ifIndex == s.device.ifIndex
            && t.fast == FastAfter(s.fast, es)
    decreases |es|
  {
    if es != [] {
      assert es[0] in es;
      DownStep(s, es[0], net);
      DownRun(Step(s, es[0], net), es[1..], net);
    }
  }

  lemma {:induction false} NoNeighbours(fast: Uint16, es: seq<Event>)
    requires forall e <- es :: !e.Neighbour?
    ensures FastAfter(fast, es) == fast
    decreases |es|
  {
    if es != [] {
      assert es[0] in es;
      NoNeighbours(fast, es[1..]);
    }
  }

  // ---------- When it comes back ----------

  /** A device that comes back starts on the schedule of whatever fast counter it went through the outage
      with; the announcement is still pending only if no credits were left. */
  lemma BackOnSchedule(t: Sender, up: DeviceData, net: Network)
    requires Bounded(t) && CanSend(t.device) && !t.device.operational
    requires up.operational && !net(|t.log|).NetDown?
    ensures var back := UpdateState(t, up, net);
            && OnSchedule(back, t.fast, 0)
            && back.log[..|t.log|] == t.log
            && |back.log| == |t.log| + (if t.credits > 0 then 1 else 0)
            && (back.ready <==> t.credits == 0)
  {
  }

  /** The recovery schedule. However the device went down, and whatever happened meanwhile but updates that
      bring it up, its frames leave exactly at seconds 1..k and k + 6j after it has come back, where k is
      what its fast counter was left at; with k = 0 a pending announcement leaves at the first second. */
  lemma RecoverySchedule(s: Sender, es: seq<Event>, up: DeviceData, n: nat, net: Network)
    requires Bounded(s) && CanSend(s.device) && !s.device.operational
    requires StaysDown(es) && up.operational && n >= 1
    requires NeverDown(net, |Run(s, es, net).log|)
    ensures var t := Run(s, es, net);
            var k, back := FastAfter(s.fast, es), UpdateState(t, up, net);
            |Run(back, Ticks(1, n), net).log| - |Run(back, Ticks(1, n - 1), net).log|
            == if SendsAt(k, n) || (n == 1 && t.credits == 0) then 1 else 0
  {
    var t := Run(s, es, net);
    DownRun(s, es, net);
    RateBound(s, es, net);
    BackOnSchedule(t, up, net);
    ExactSchedule(UpdateState(t, up, net), t.fast, n, net);
  }

  // ---------- From going down to coming back ----------

  /** A sender on a working device that is taken down by an update, goes through `es`, and is brought back
      by another. */
  function Bounced(s: Sender, down: DeviceData, es: seq<Event>, up: DeviceData, net: Network): Sender {
    UpdateState(Run(UpdateState(s, down, net), es, net), up, net)
  }

  predicate Outage(s: Sender, down: DeviceData, es: seq<Event>, up: DeviceData) {
    && Bounded(s) && CanSend(s.device) && s.device.operational
    && !down.operational && StaysDown(es) && up.operational
  }

  lemma OutageRun(s: Sender, down: DeviceData, es: seq<Event>, up: DeviceData, net: Network)
    requires Outage(s, down, es, up)
    ensures var t := Run(UpdateState(s, down, net), es, net);
            && Bounded(t) && CanSend(t.device) && !t.device.operational
            && t.fast == FastAfter(Refreshed(s.fast), es)
  {
    UpdateFast(s, down, net);
    UpdatePays(s, down, net);
    assert !UpdateState(s, down, net).device.operational;
    DownRun(UpdateState(s, down, net), es, net);
    RateBound(UpdateState(s, down, net), es, net);
  }

  /** The fast phase runs on recovery if and only if the counter is not zero by then; without new
      neighbours in the meantime, if and only if it was not exactly one when the device went down. */
  lemma FastOnRecoveryIff(s: Sender, down: DeviceData, es: seq<Event>, up: DeviceData, net: Network)
    requires Outage(s, down, es, up)
    ensures var back := Bounced(s, down, es, up, net);
            && (back.fast > 0 && back.timer == MESSAGE_FAST_INTERVAL <==> FastAfter(Refreshed(s.fast), es) > 0)
            && ((forall e <- es :: !e.Neighbour?) ==>
                  (back.fast > 0 && back.timer == MESSAGE_FAST_INTERVAL <==> s.fast != 1))
  {
    OutageRun(s, down, es, up, net);
    var t := Run(UpdateState(s, down, net), es, net);
    UpdateFast(t, up, net);
    if forall e <- es :: !e.Neighbour? {
      NoNeighbours(Refreshed(s.fast), es);
    }
  }

  /** The frames after the recovery: with the fast counter at rest and no new neighbours in the meantime,
      at seconds 1, 2, 3, 9, 15 and so on. */
  lemma BouncedSchedule(s: Sender, down: DeviceData, es: seq<Event>, up: DeviceData, n: nat, net: Network)
    requires Outage(s, down, es, up) && n >= 1
    requires NeverDown(net, |Run(UpdateState(s, down, net), es, net).log|)
    ensures var t, back := Run(UpdateState(s, down, net), es, net), Bounced(s, down, es, up, net);
            var k := FastAfter(Refreshed(s.fast), es);
            && |Run(back, Ticks(1, n), net).log| - |Run(back, Ticks(1, n - 1), net).log|
               == (if SendsAt(k, n) || (n == 1 && t.credits == 0) then 1 else 0)
            && ((forall e <- es :: !e.Neighbour?) ==>
                  k == if s.fast == 0 then FAST_TRANSMIT_AMOUNT - 1 else s.fast - 1)
  {
    OutageRun(s, down, es, up, net);
    var t := Run(UpdateState(s, down, net), es, net);
    RecoverySchedule(t, [], up, n, net);
    if forall e <- es :: !e.Neighbour? {
      NoNeighbours(Refreshed(s.fast), es);
    }
  }

  /** A sender added for a device that is down runs a fast phase of three when the device first comes up. */
  lemma FirstUpSchedule(device: DeviceData, es: seq<Event>, up: DeviceData, n: nat, net: Network)
    requires CanSend(device) && !device.operational && n >= 1
    requires StaysDown(es) && up.operational && forall e <- es :: !e.Neighbour?
    requires NeverDown(net, |Run(AddedSender(device, net), es, net).log|)
    ensures var back := UpdateState(Run(AddedSender(device, net), es, net), up, net);
            |Run(back, Ticks(1, n), net).log| - |Run(back, Ticks(1, n - 1), net).log|
            == if SendsAt(FAST_TRANSMIT_AMOUNT - 1, n) then 1 else 0
  {
    var s := AddedSender(device, net);
    NoNeighbours(s.fast, es);
    RecoverySchedule(s, es, up, n, net);
  }
}
