/** Whole-run properties of the transmit state machine: the rate bound, the longest silence,
    the exact schedule, and the starvation caused by long ticks. */
module SenderRuns {
  import opened Common
  import opened SenderSpec

  // ---------- What every event keeps ----------

  predicate Bounded(s: Sender) {
    s.credits <= MAX_TRANSMIT_CREDITS && s.fast <= FAST_TRANSMIT_AMOUNT && s.timer <= MESSAGE_TRANSMIT_INTERVAL
  }

  /** `after` extends the log of `before` by frames that carry the target time to live. */
  predicate Extends(before: Sender, after: Sender) {
    && before.log <= after.log
    && forall i :: |before.log| <= i < |after.log| ==> after.log[i].ttl == TARGET_TTL
  }

  /** From `before` to `after` frames are paid for by credits and at most `seconds` new credits. */
  predicate Pays(before: Sender, after: Sender, seconds: nat) {
    && Extends(before, after)
    && (Bounded(before) ==> Bounded(after))
    && |after.log| + after.credits <= |before.log| + before.credits + seconds
  }

  lemma TriggerPays(s: Sender, net: Network)
    ensures Pays(s, Trigger(s, net), 0)
    ensures Pays(s, NewNeighbour(s, net), 0)
  {
  }

  lemma TickPays(s: Sender, d: Uint64, net: Network)
    ensures Pays(s, TickState(s, d, net), d)
    ensures |TickState(s, d, net).log| <= |s.log| + 1
  {
  }

  lemma UpdatePays(s: Sender, data: DeviceData, net: Network)
    ensures Pays(s, UpdateState(s, data, net), 0)
  {
    var merged := Merge(s.device, data);
    if merged != s.device {
      var copied := s.(device := merged.(operational := s.device.operational));
      TriggerPays(copied, net);
      var switched :=
        if s.device.operational && !data.operational then NewNeighbour(copied, net) else copied;
      var settled := switched.(device := switched.device.(operational := data.operational));
      TriggerPays(settled, net);
      PaysTransitive(s, settled, UpdateState(s, data, net), 0, 0);
    }
  }

  lemma PaysTransitive(s: Sender, t: Sender, u: Sender, d: nat, e: nat)
    requires Pays(s, t, d) && Pays(t, u, e)
    ensures Pays(s, u, d + e)
  {
    forall i | |s.log| <= i < |u.log| ensures u.log[i].ttl == TARGET_TTL {
      if i < |t.log| {
        assert u.log[i] == t.log[i];
      }
    }
  }

  /** Every event pays for its frames, and a tick sends at most one. */
  lemma StepPays(s: Sender, e: Event, net: Network)
    ensures Pays(s, Step(s, e, net), if e.Tick? then e.seconds else 0)
    ensures e.Tick? ==> |Step(s, e, net).log| <= |s.log| + 1
  {
    match e
    case Tick(d) => TickPays(s, d, net);
    case Update(data) => UpdatePays(s, data, net);
    case Neighbour => TriggerPays(s, net);
    case LocalChange => TriggerPays(s, net);
  }

  /** Rate bound. In any window, whatever the events and the network do, the frames sent plus the
      credits left never exceed the credits at its start plus the seconds ticked in it; all of
      them carry the target time to live, and the bounds on the state are kept. */
  lemma {:induction false} RateBound(s: Sender, es: seq<Event>, net: Network)
    ensures Extends(s, Run(s, es, net))
    ensures Bounded(s) ==> Bounded(Run(s, es, net))
    ensures |Run(s, es, net).log| - |s.log| + Run(s, es, net).credits <= s.credits + Seconds(es)
    decreases |es|
  {
    if es != [] {
      var t := Step(s, es[0], net);
      StepPays(s, es[0], net);
      RateBound(t, es[1..], net);
      PaysTransitive(s, t, Run(s, es, net), if es[0].Tick? then es[0].seconds else 0, Seconds(es[1..]));
    }
  }

  /** Every reachable state is bounded: credits <= 5, fast counter <= 4, timer <= 6. */
  lemma ReachableIsBounded(device: DeviceData, es: seq<Event>, net: Network)
    ensures Bounded(Run(NewSender(device, net), es, net))
    ensures Bounded(Run(AddedSender(device, net), es, net))
  {
    RateBound(NewSender(device, net), es, net);
    RateBound(AddedSender(device, net), es, net);
  }

  lemma {:induction false} RunAppend(s: Sender, es: seq<Event>, fs: seq<Event>, net: Network)
    ensures Run(s, es + fs, net) == Run(Run(s, es, net), fs, net)
    ensures Seconds(es + fs) == Seconds(es) + Seconds(fs)
    decreases |es|
  {
    if es == [] {
      assert es + fs == fs;
    } else {
      assert (es + fs)[1..] == es[1..] + fs;
      RunAppend(Step(s, es[0], net), es[1..], fs, net);
    }
  }

  // ---------- The longest silence ----------

  /** The state between events of a sender on a working device: nothing is pending unless the
      credits are spent. */
  predicate Healthy(s: Sender) {
    && s.device.operational
    && CanSend(s.device)
    && 1 <= s.timer <= MESSAGE_TRANSMIT_INTERVAL
    && s.credits <= MAX_TRANSMIT_CREDITS
    && s.fast <= FAST_TRANSMIT_AMOUNT
    && (s.ready ==> s.credits == 0)
  }

  /** Events while the device stays operational, with every tick between one and `longest` seconds. */
  predicate Steady(e: Event, longest: nat) {
    match e
    case Tick(d) => 1 <= d <= longest
    case Update(data) => data.operational
    case _ => true
  }

  /** No frame from the `from`-th on is answered with ENETDOWN; earlier ones may have been. */
  ghost predicate NeverDown(net: Network, from: nat) {
    forall n: nat | n >= from :: !net(n).NetDown?
  }

  /** Upper bound, readable off the state, on the seconds since the last frame. */
  function Quiet(s: Sender): int {
    if s.ready then MESSAGE_TRANSMIT_INTERVAL - 1 else MESSAGE_TRANSMIT_INTERVAL - s.timer
  }

  /** With ticks of at most `MAX_TRANSMIT_CREDITS` seconds a step keeps the sender healthy, and
      either sends or lets the quiet time grow by no less than the seconds that passed. */
  lemma HealthyStep(s: Sender, e: Event, net: Network)
    requires Healthy(s) && Steady(e, MAX_TRANSMIT_CREDITS)
    requires NeverDown(net, |s.log|) || |Step(s, e, net).log| == |s.log|
    ensures var t := Step(s, e, net);
            && Healthy(t)
            && t.device.mac == s.device.mac
            && t.device.ifIndex == s.device.ifIndex
            && 0 <= Quiet(t) <= MESSAGE_TRANSMIT_INTERVAL - 1
            && (|t.log| > |s.log| || Quiet(t) >= Quiet(s) + (if e.Tick? then e.seconds else 0))
  {
  }

  lemma {:induction false} HealthyRun(s: Sender, es: seq<Event>, net: Network)
    requires Healthy(s) && NeverDown(net, |s.log|)
    requires forall e <- es :: Steady(e, MAX_TRANSMIT_CREDITS)
    ensures Healthy(Run(s, es, net))
    decreases |es|
  {
    if es != [] {
      HealthyStep(s, es[0], net);
      StepPays(s, es[0], net);
      HealthyRun(Step(s, es[0], net), es[1..], net);
    }
  }

  /** An operational sender is healthy from the moment the repository adds it. */
  lemma AddedIsHealthy(device: DeviceData, net: Network)
    requires device.operational && CanSend(device)
    ensures Healthy(AddedSender(device, net))
  {
  }

  /** So is a sender that was down, for whatever reason, once an update makes it operational again. */
  lemma RestoredIsHealthy(s: Sender, data: DeviceData, net: Network)
    requires Bounded(s) && CanSend(s.device)
    requires !s.device.operational && data.operational && !net(|s.log|).NetDown?
    ensures Healthy(UpdateState(s, data, net))
  {
  }

  /** A window without a frame lasts at most five seconds, whatever the network did before. */
  lemma {:induction false} MaximumSilence(s: Sender, es: seq<Event>, net: Network)
    requires Healthy(s)
    requires forall e <- es :: Steady(e, MAX_TRANSMIT_CREDITS)
    requires |Run(s, es, net).log| == |s.log|
    ensures Quiet(s) + Seconds(es) <= MESSAGE_TRANSMIT_INTERVAL - 1
    decreases |es|
  {
    if es != [] {
      var t := Step(s, es[0], net);
      StepPays(s, es[0], net);
      RateBound(t, es[1..], net);
      HealthyStep(s, es[0], net);
      MaximumSilence(t, es[1..], net);
    }
  }

  /** Consecutive frames are at most 5 + `longest` seconds apart: ten seconds with ticks of up to
      five seconds, six with one-second ticks. `es` leads from one frame to the next one. */
  lemma MaximumGap(s: Sender, es: seq<Event>, last: Event, longest: nat, net: Network)
    requires Healthy(s) && longest <= MAX_TRANSMIT_CREDITS
    requires forall e <- es + [last] :: Steady(e, longest)
    requires |Run(s, es, net).log| == |s.log|
    ensures Seconds(es + [last]) <= 5 + longest
  {
    assert forall e <- es :: e in es + [last];
    assert last in es + [last];
    MaximumSilence(s, es, net);
    assert 0 <= Quiet(s);
    RunAppend(s, es, [last], net);
    assert Seconds([last]) == (if last.Tick? then last.seconds else 0) + Seconds([]);
  }

  // ---------- Ticks longer than the bucket ----------

  /** The bound on the tick length is exact. A sender without credits, as every new one is, never
      sends again while all its ticks are empty or longer than the bucket, whatever else happens. */
  lemma {:induction false} LongTicksStarve(s: Sender, es: seq<Event>, net: Network)
    requires s.credits == 0
    requires forall e <- es :: e.Tick? ==> e.seconds == 0 || e.seconds > MAX_TRANSMIT_CREDITS
    ensures Run(s, es, net).log == s.log && Run(s, es, net).credits == 0
    decreases |es|
  {
    if es != [] {
      assert es[0] in es;
      LongTicksStarve(Step(s, es[0], net), es[1..], net);
    }
  }

  /** A tick of one to five seconds while the device is operational, as the updates leave it. */
  predicate ShortTick(operational: bool, es: seq<Event>)
    decreases |es|
  {
    es != [] &&
    match es[0]
    case Tick(d) => (operational && 1 <= d <= MAX_TRANSMIT_CREDITS) || ShortTick(operational, es[1..])
    case Update(data) => ShortTick(data.operational, es[1..])
    case _ => ShortTick(operational, es[1..])
  }

  lemma {:induction false} MuteRun(s: Sender, es: seq<Event>, net: Network)
    requires !CanSend(s.device)
    ensures Run(s, es, net).log == s.log
    decreases |es|
  {
    if es != [] {
      MuteRun(Step(s, es[0], net), es[1..], net);
    }
  }

  /** A pending frame waits for a credit. */
  predicate Waiting(s: Sender) {
    s.ready && s.credits == 0 && CanSend(s.device)
  }

  lemma WaitingStep(s: Sender, e: Event, net: Network)
    requires Waiting(s)
    ensures var t := Step(s, e, net);
            if e.Tick? && s.device.operational && 1 <= e.seconds <= MAX_TRANSMIT_CREDITS then
              |t.log| == |s.log| + 1
            else
              && Waiting(t) && t.log == s.log
              && t.device.operational == if e.Update? then e.data.operational else s.device.operational
  {
  }

  /** A sender whose frame waits for a credit sends again if and only if a tick of one to five
      seconds finds its device operational, over all runs and all networks. */
  lemma {:induction false} WaitingSendsIff(s: Sender, es: seq<Event>, net: Network)
    requires Waiting(s)
    ensures |Run(s, es, net).log| > |s.log| <==> ShortTick(s.device.operational, es)
    decreases |es|
  {
    if es != [] {
      var t := Step(s, es[0], net);
      WaitingStep(s, es[0], net);
      if |t.log| > |s.log| {
        RateBound(t, es[1..], net);
      } else {
        WaitingSendsIff(t, es[1..], net);
      }
    }
  }

  /** Every sender the repository adds starts that way, so over any run it has sent a frame if and
      only if its device can send and some short tick found it operational. */
  lemma EverSentIff(device: DeviceData, es: seq<Event>, net: Network)
    ensures |Run(AddedSender(device, net), es, net).log| > 0 <==> CanSend(device) && ShortTick(device.operational, es)
  {
    var s := AddedSender(device, net);
    if CanSend(device) {
      WaitingSendsIff(s, es, net);
    } else {
      MuteRun(s, es, net);
    }
  }

  /** While the updates keep the device operational, any tick of one to five seconds will do. */
  lemma {:induction false} ShortTickIff(es: seq<Event>)
    requires forall e <- es :: e.Update? ==> e.data.operational
    ensures ShortTick(true, es) <==> exists e <- es :: e.Tick? && 1 <= e.seconds <= MAX_TRANSMIT_CREDITS
    decreases |es|
  {
    if es != [] {
      assert es[0] in es;
      ShortTickIff(es[1..]);
    }
  }

  // ---------- The exact schedule ----------

  function Ticks(d: Uint64, n: nat): seq<Event> {
    seq(n, _ => Tick(d))
  }

  /** The n-th one-second tick after the start of a fast phase of `k` frames carries a frame; without a
      fast phase `k` is zero. */
  predicate SendsAt(k: nat, n: nat) {
    n <= k || (n - k) % MESSAGE_TRANSMIT_INTERVAL == 0
  }

  /** The state after `n` one-second ticks from the start of that phase. */
  predicate OnSchedule(t: Sender, k: nat, n: nat) {
    && t.device.operational
    && CanSend(t.device)
    && t.credits <= MAX_TRANSMIT_CREDITS
    && (n > 0 ==> !t.ready)
    && t.fast == (if n < k then k - n else 0)
    && t.timer == (if n < k then 1 else MESSAGE_TRANSMIT_INTERVAL - (n - k) % MESSAGE_TRANSMIT_INTERVAL)
  }

  /** One second on a schedule, in the fast phase. */
  lemma FastScheduleStep(t: Sender, k: nat, n: nat, net: Network)
    requires OnSchedule(t, k, n) && n < k && !net(|t.log|).NetDown?
    ensures OnSchedule(TickState(t, 1, net), k, n + 1)
    ensures |TickState(t, 1, net).log| == |t.log| + 1
  {
  }

  /** How the remainder moves with the seconds. */
  lemma NextSecond(m: nat)
    ensures var now, next := m % MESSAGE_TRANSMIT_INTERVAL, (m + 1) % MESSAGE_TRANSMIT_INTERVAL;
            next == if now == MESSAGE_TRANSMIT_INTERVAL - 1 then 0 else now + 1
  {
  }

  lemma SlowScheduleStep(t: Sender, k: nat, n: nat, net: Network)
    requires OnSchedule(t, k, n) && k <= n && !net(|t.log|).NetDown?
    ensures OnSchedule(TickState(t, 1, net), k, n + 1)
    ensures |TickState(t, 1, net).log| == |t.log| + (if SendsAt(k, n + 1) || t.ready then 1 else 0)
  {
    NextSecond(n - k);
  }

  /** One second on a schedule: a frame that was pending leaves at its first second. */
  lemma ScheduleStep(t: Sender, k: nat, n: nat, net: Network)
    requires OnSchedule(t, k, n) && !net(|t.log|).NetDown?
    ensures OnSchedule(TickState(t, 1, net), k, n + 1)
    ensures |TickState(t, 1, net).log| == |t.log| + (if SendsAt(k, n + 1) || t.ready then 1 else 0)
  {
    if n < k {
      FastScheduleStep(t, k, n, net);
    } else {
      SlowScheduleStep(t, k, n, net);
    }
  }

  lemma {:induction false} ScheduleHolds(s: Sender, k: nat, n: nat, net: Network)
    requires OnSchedule(s, k, 0) && NeverDown(net, |s.log|)
    ensures OnSchedule(Run(s, Ticks(1, n), net), k, n)
    ensures |Run(s, Ticks(1, n), net).log| >= |s.log|
    ensures Run(s, Ticks(1, n + 1), net) == TickState(Run(s, Ticks(1, n), net), 1, net)
  {
    RateBound(s, Ticks(1, n), net);
    if n > 0 {
      ScheduleHolds(s, k, n - 1, net);
      ScheduleStep(Run(s, Ticks(1, n - 1), net), k, n - 1, net);
    }
    assert Ticks(1, n + 1) == Ticks(1, n) + [Tick(1)];
    RunAppend(s, Ticks(1, n), [Tick(1)], net);
    var t := Run(s, Ticks(1, n), net);
    assert Run(t, [Tick(1)], net) == Run(Step(t, Tick(1), net), [], net);
  }

  /** Frames leave at seconds 1..k and then at k + 6j for every j >= 1, and at no other second, except
      that a frame pending at the start leaves at the first second. */
  lemma ExactSchedule(s: Sender, k: nat, n: nat, net: Network)
    requires OnSchedule(s, k, 0) && NeverDown(net, |s.log|) && n >= 1
    ensures |Run(s, Ticks(1, n), net).log| - |Run(s, Ticks(1, n - 1), net).log|
         == if SendsAt(k, n) || (n == 1 && s.ready) then 1 else 0
  {
    ScheduleHolds(s, k, n - 1, net);
    ScheduleStep(Run(s, Ticks(1, n - 1), net), k, n - 1, net);
    assert n == 1 ==> Run(s, Ticks(1, n - 1), net) == s;
  }

  /** A sender the repository adds for an operational device is on a schedule with k = 2: its
      frames leave at seconds 1, 2, 8, 14 and so on. */
  lemma AddedSchedule(device: DeviceData, n: nat, net: Network)
    requires device.operational && CanSend(device) && NeverDown(net, 0) && n >= 1
    ensures var s := AddedSender(device, net);
            && s.log == []
            && |Run(s, Ticks(1, n), net).log| - |Run(s, Ticks(1, n - 1), net).log|
            == if SendsAt(2, n) then 1 else 0
  {
    ExactSchedule(AddedSender(device, net), 2, n, net);
  }
}
