/** A sender and a receiver on one link, ageing by the same seconds: frames go out as bytes, may be
    lost, and refresh the receiver's table; other neighbours are heard in between. */
module KeepAlive {
  import opened Common
  import opened S = SenderSpec
  import R = SenderRuns
  import M = LldpMonitor
  import T = NeighbourTable
  import F = FrameMeaning

  /** The environment of the link. The functions give, for the n-th frame: the outcome of handing it
      to the socket, whether the link loses it, and the address and padding it arrives with. */
  datatype Link = Link(
    machineId: Bytes,
    net: Network,
    loses: nat -> bool,
    address: nat -> M.Address,
    padding: nat -> Bytes)

  ghost predicate Wired(link: Link) {
    && |link.machineId| <= F.MAX_MACHINE_ID
    && forall n: nat :: M.FromEthernet(link.address(n))
  }

  predicate Arrives(link: Link, n: nat) {
    link.net(n).Sent? && !link.loses(n)
  }

  datatype Joint = Joint(sender: Sender, table: T.Table)

  /** The clocks of both sides advance together, in either order; anything else happens on the
      sender, or the receiver hears some other neighbour. */
  datatype JointEvent =
    | Clock(seconds: Uint64, receiverFirst: bool)
    | Local(event: Event)
    | Other(address: M.Address, frame: Bytes)

  /** The receiver's table after the n-th frame, whether it arrives or not. */
  ghost function Hear(link: Link, t: T.Table, n: nat, frame: Attempt): T.Table
    requires Wired(link)
  {
    if !Arrives(link, n) || frame.device.mac.None? then t else
      F.EndToEnd(frame.ttl, frame.device, link.machineId, link.padding(n), link.address(n));
      M.Receive(t, link.address(n), F.Payload(frame.ttl, frame.device, link.machineId, link.padding(n)))
  }

  ghost function HearAll(link: Link, t: T.Table, log: seq<Attempt>, from: nat): T.Table
    requires Wired(link) && from <= |log|
    decreases |log| - from
  {
    if from == |log| then t else HearAll(link, Hear(link, t, from, log[from]), log, from + 1)
  }

  ghost function JointStep(link: Link, j: Joint, e: JointEvent): Joint
    requires Wired(link)
    requires e.Other? ==> M.TtlReadable(e.frame)
  {
    match e
    case Clock(d, receiverFirst) =>
      var sender := TickState(j.sender, d, link.net);
      R.StepPays(j.sender, Tick(d), link.net);
      var before := |j.sender.log|;
      if receiverFirst then Joint(sender, HearAll(link, T.Age(j.table, d), sender.log, before))
      else Joint(sender, T.Age(HearAll(link, j.table, sender.log, before), d))
    case Local(event) =>
      var sender := Step(j.sender, event, link.net);
      R.StepPays(j.sender, event, link.net);
      Joint(sender, HearAll(link, j.table, sender.log, |j.sender.log|))
    case Other(address, frame) => j.(table := M.Receive(j.table, address, frame))
  }

  ghost predicate Readable(es: seq<JointEvent>) {
    forall e <- es :: e.Other? ==> M.TtlReadable(e.frame)
  }

  ghost function JointRun(link: Link, j: Joint, es: seq<JointEvent>): Joint
    requires Wired(link) && Readable(es)
    decreases |es|
  {
    if es == [] then j else JointRun(link, JointStep(link, j, es[0]), es[1..])
  }

  /** What the receiver's table holds for the sender. */
  function Known(link: Link, mac: Mac, t: T.Table): Option<T.Entry> {
    T.Lookup(t, [F.CHASSIS_SUBTYPE_LOCAL] + link.machineId, [F.PORT_SUBTYPE_MAC] + mac)
  }

  /** Frames lost in a row just before the n-th one. */
  function Misses(link: Link, n: nat): nat {
    if n == 0 || Arrives(link, n - 1) then 0 else 1 + Misses(link, n - 1)
  }

  /** The receiver's age for the sender is at most one longest gap for each miss, plus the time
      since the last frame, plus a slack for the order in which the two clocks advance. */
  ghost predicate RecentlyHeard(link: Link, mac: Mac, j: Joint, gap: nat, slack: nat) {
    var known := Known(link, mac, j.table);
    && j.sender.device.mac == Some(mac)
    && known.Some?
    && TARGET_TTL - known.value.ttl <= Misses(link, |j.sender.log|) * gap + R.Quiet(j.sender) + slack
  }

  /** Time passes by the clocks alone, and nobody else uses the sender's identifiers. */
  predicate Proper(link: Link, mac: Mac, e: JointEvent) {
    match e
    case Clock(_, _) => true
    case Local(event) => !event.Tick?
    case Other(address, frame) =>
      M.TtlReadable(frame) &&
      match M.Interpret(address, frame)
      case None => true
      case Some(entry) =>
        !(entry.chassis == [F.CHASSIS_SUBTYPE_LOCAL] + link.machineId && entry.port == [F.PORT_SUBTYPE_MAC] + mac)
  }

  predicate SteadyEvent(link: Link, mac: Mac, e: JointEvent, longest: nat) {
    && Proper(link, mac, e)
    && (e.Clock? ==> 1 <= e.seconds <= longest)
    && (e.Local? ==> R.Steady(e.event, longest))
  }

  /** Before none of the frames from the `from`-th on more than `losses` frames in a row are lost, and
      `losses` + 1 longest gaps and one more tick fit in the time to live. */
  ghost predicate Tolerable(link: Link, from: nat, losses: nat, longest: nat) {
    && (forall n: nat | n >= from :: Misses(link, n) <= losses)
    && (losses + 1) * (5 + longest) + longest < TARGET_TTL
  }

  // ---------- Hearing ----------

  lemma HearKnown(link: Link, mac: Mac, t: T.Table, n: nat, frame: Attempt)
    requires Wired(link) && frame.device.mac == Some(mac)
    ensures Known(link, mac, Hear(link, t, n, frame))
         == if Arrives(link, n) then
              Some(F.Meaning(frame.ttl, frame.device, link.machineId, link.address(n).ifIndex % 0x1_0000))
            else Known(link, mac, t)
  {
    if Arrives(link, n) {
      var entry := F.Meaning(frame.ttl, frame.device, link.machineId, link.address(n).ifIndex % 0x1_0000);
      F.EndToEnd(frame.ttl, frame.device, link.machineId, link.padding(n), link.address(n));
      T.LookupInsert(t, entry, [F.CHASSIS_SUBTYPE_LOCAL] + link.machineId, [F.PORT_SUBTYPE_MAC] + mac);
    }
  }

  /** A step of a healthy sender adds at most one frame, built from its device. */
  lemma OneFrame(s: Sender, e: Event, net: Network)
    requires R.Healthy(s) && R.Steady(e, MAX_TRANSMIT_CREDITS)
    requires R.NeverDown(net, |s.log|)
    ensures var t := Step(s, e, net);
            t.log == s.log ||
            (|t.log| == |s.log| + 1 && s.log <= t.log && t.log[|s.log|].ttl == TARGET_TTL
             && t.log[|s.log|].device.mac == s.device.mac)
  {
  }

  lemma MissesStep(link: Link, n: nat, gap: nat)
    ensures Misses(link, n + 1) * gap == if Arrives(link, n) then 0 else Misses(link, n) * gap + gap
  {
  }

  /** What is heard of a step: the entry of its frame, if there is one and it arrives. */
  lemma StepHeard(link: Link, mac: Mac, j: Joint, e: Event)
    requires Wired(link) && R.NeverDown(link.net, |j.sender.log|) && j.sender.device.mac == Some(mac)
    requires R.Healthy(j.sender) && R.Steady(e, MAX_TRANSMIT_CREDITS)
    ensures var n, sender := |j.sender.log|, Step(j.sender, e, link.net);
            && n <= |sender.log| <= n + 1
            && var known := Known(link, mac, HearAll(link, j.table, sender.log, n));
               if |sender.log| > n && Arrives(link, n) then known.Some? && known.value.ttl == TARGET_TTL
               else known == Known(link, mac, j.table)
  {
    var n, sender := |j.sender.log|, Step(j.sender, e, link.net);
    OneFrame(j.sender, e, link.net);
    if |sender.log| > n {
      HearKnown(link, mac, j.table, n, sender.log[n]);
      var heard := Hear(link, j.table, n, sender.log[n]);
      assert HearAll(link, j.table, sender.log, n) == HearAll(link, heard, sender.log, n + 1) == heard;
    }
  }

  /** The sender's part of a step keeps the bound: a frame that arrives resets the age, one that is
      lost pays for a gap, and without a frame the quiet time grows with the seconds. */
  lemma HearStep(link: Link, mac: Mac, j: Joint, e: Event, longest: nat, slack: nat)
    requires Wired(link) && R.NeverDown(link.net, |j.sender.log|) && longest <= MAX_TRANSMIT_CREDITS
    requires R.Healthy(j.sender) && R.Steady(e, longest)
    requires RecentlyHeard(link, mac, j, 5 + longest, slack + if e.Tick? then e.seconds else 0)
    ensures var n, sender := |j.sender.log|, Step(j.sender, e, link.net);
            && R.Healthy(sender)
            && n <= |sender.log|
            && RecentlyHeard(link, mac, Joint(sender, HearAll(link, j.table, sender.log, n)), 5 + longest, slack)
            && var before, after := Known(link, mac, j.table), Known(link, mac, HearAll(link, j.table, sender.log, n));
               after.value.ttl >= if before.value.ttl <= TARGET_TTL then before.value.ttl else TARGET_TTL
  {
    var n, gap, sender := |j.sender.log|, 5 + longest, Step(j.sender, e, link.net);
    R.HealthyStep(j.sender, e, link.net);
    StepHeard(link, mac, j, e);
    MissesStep(link, n, gap);
    var owed := Misses(link, n) * gap;
    if |sender.log| > n {
      assert Misses(link, |sender.log|) * gap == if Arrives(link, n) then 0 else owed + gap;
    } else {
      assert Misses(link, |sender.log|) * gap == owed;
    }
  }

  // ---------- Ageing ----------

  /** One tick of the receiver cannot reach the end of the time to live. */
  lemma AgeFits(link: Link, mac: Mac, j: Joint, d: nat, losses: nat, longest: nat)
    requires RecentlyHeard(link, mac, j, 5 + longest, longest)
    requires R.Quiet(j.sender) <= 5 && d <= longest && Tolerable(link, |j.sender.log|, losses, longest)
    ensures Known(link, mac, j.table).value.ttl > d
  {
    var misses := Misses(link, |j.sender.log|);
    assert misses * (5 + longest) <= losses * (5 + longest);
    assert (losses + 1) * (5 + longest) == losses * (5 + longest) + 5 + longest;
  }

  lemma AgeKnown(link: Link, mac: Mac, t: T.Table, d: nat)
    ensures Known(link, mac, T.Age(t, d)) == T.AgeEntry(Known(link, mac, t), d)
  {
    T.LookupAge(t, d, [F.CHASSIS_SUBTYPE_LOCAL] + link.machineId, [F.PORT_SUBTYPE_MAC] + mac);
  }

  lemma JointStepKeeps(link: Link, mac: Mac, j: Joint, e: JointEvent, losses: nat, longest: nat)
    requires Wired(link) && R.NeverDown(link.net, |j.sender.log|)
    requires longest <= MAX_TRANSMIT_CREDITS && Tolerable(link, |j.sender.log|, losses, longest)
    requires R.Healthy(j.sender) && SteadyEvent(link, mac, e, longest)
    requires RecentlyHeard(link, mac, j, 5 + longest, longest)
    ensures var k := JointStep(link, j, e);
            && |k.sender.log| >= |j.sender.log|
            && R.Healthy(k.sender) && RecentlyHeard(link, mac, k, 5 + longest, longest)
  {
    match e
    case Clock(d, receiverFirst) =>
      AgeFits(link, mac, j, d, losses, longest);
      if receiverFirst {
        AgeKnown(link, mac, j.table, d);
        HearStep(link, mac, j.(table := T.Age(j.table, d)), Tick(d), longest, longest);
      } else {
        HearStep(link, mac, j, Tick(d), longest, longest - d);
        var sender := TickState(j.sender, d, link.net);
        AgeKnown(link, mac, HearAll(link, j.table, sender.log, |j.sender.log|), d);
      }
    case Local(event) =>
      HearStep(link, mac, j, event, longest, longest);
    case Other(address, frame) =>
      var entry := M.Interpret(address, frame);
      if entry.Some? {
        T.LookupInsert(j.table, entry.value, [F.CHASSIS_SUBTYPE_LOCAL] + link.machineId, [F.PORT_SUBTYPE_MAC] + mac);
      }
  }

  /** Keep-alive. Once a frame has been heard, the receiver knows the sender for ever after: over
      any run with ticks of one to `longest` <= 5 seconds, whatever local changes, updates and other
      neighbours come in between, as long as from now on no more than `losses` frames in a row are lost. */
  lemma {:induction false} NeverForgotten(
    link: Link, mac: Mac, j: Joint, es: seq<JointEvent>, losses: nat, longest: nat)
    requires Wired(link) && R.NeverDown(link.net, |j.sender.log|)
    requires longest <= MAX_TRANSMIT_CREDITS && Tolerable(link, |j.sender.log|, losses, longest)
    requires R.Healthy(j.sender) && RecentlyHeard(link, mac, j, 5 + longest, longest)
    requires forall e <- es :: SteadyEvent(link, mac, e, longest)
    ensures Readable(es) && Known(link, mac, JointRun(link, j, es).table).Some?
    decreases |es|
  {
    if es != [] {
      JointStepKeeps(link, mac, j, es[0], losses, longest);
      NeverForgotten(link, mac, JointStep(link, j, es[0]), es[1..], losses, longest);
    }
  }

  /** The run may start at any frame just heard, whatever the link lost before. Three lost frames in a
      row are tolerable with one-second ticks, one with ticks of up to five seconds. */
  lemma KeepAlive(link: Link, mac: Mac, j: Joint, es: seq<JointEvent>, losses: nat, longest: nat)
    requires Wired(link) && R.NeverDown(link.net, |j.sender.log|)
    requires longest <= MAX_TRANSMIT_CREDITS && Tolerable(link, |j.sender.log|, losses, longest)
    requires R.Healthy(j.sender) && j.sender.device.mac == Some(mac)
    requires Known(link, mac, j.table).Some? && Known(link, mac, j.table).value.ttl == TARGET_TTL
    requires forall e <- es :: SteadyEvent(link, mac, e, longest)
    ensures Readable(es) && Known(link, mac, JointRun(link, j, es).table).Some?
  {
    assert R.Quiet(j.sender) >= 0;
    assert Misses(link, |j.sender.log|) * (5 + longest) >= 0;
    NeverForgotten(link, mac, j, es, losses, longest);
  }

  // ---------- The other side of the bound ----------

  function JointSeconds(es: seq<JointEvent>): nat {
    if es == [] then 0 else (if es[0].Clock? then es[0].seconds else 0) + JointSeconds(es[1..])
  }

  ghost predicate DeafFrom(link: Link, from: nat) {
    forall n: nat | n >= from :: !Arrives(link, n)
  }

  lemma {:induction false} HearNothing(link: Link, t: T.Table, log: seq<Attempt>, from: nat)
    requires Wired(link) && from <= |log| && DeafFrom(link, from)
    ensures HearAll(link, t, log, from) == t
    decreases |log| - from
  {
    if from < |log| {
      HearNothing(link, t, log, from + 1);
    }
  }

  function Clocks(es: seq<JointEvent>): nat {
    if es == [] then 0 else (if es[0].Clock? then 1 else 0) + Clocks(es[1..])
  }

  /** From `before` to `after` the entry has aged by `d` seconds, if any tick happened at all. */
  predicate Aged(link: Link, mac: Mac, before: T.Table, after: T.Table, clocks: nat, d: nat) {
    Known(link, mac, after) == if clocks == 0 then Known(link, mac, before) else T.AgeEntry(Known(link, mac, before), d)
  }

  lemma UnheardStep(link: Link, mac: Mac, j: Joint, e: JointEvent)
    requires Wired(link) && Proper(link, mac, e) && DeafFrom(link, |j.sender.log|)
    ensures |JointStep(link, j, e).sender.log| >= |j.sender.log|
    ensures Aged(link, mac, j.table, JointStep(link, j, e).table,
                 if e.Clock? then 1 else 0, if e.Clock? then e.seconds else 0)
  {
    match e
    case Clock(d, receiverFirst) =>
      var sender := TickState(j.sender, d, link.net);
      R.StepPays(j.sender, Tick(d), link.net);
      HearNothing(link, j.table, sender.log, |j.sender.log|);
      HearNothing(link, T.Age(j.table, d), sender.log, |j.sender.log|);
      AgeKnown(link, mac, j.table, d);
    case Local(event) =>
      R.StepPays(j.sender, event, link.net);
      HearNothing(link, j.table, Step(j.sender, event, link.net).log, |j.sender.log|);
    case Other(address, frame) =>
      var entry := M.Interpret(address, frame);
      if entry.Some? {
        T.LookupInsert(j.table, entry.value, [F.CHASSIS_SUBTYPE_LOCAL] + link.machineId, [F.PORT_SUBTYPE_MAC] + mac);
      }
  }

  lemma ProperIsReadable(link: Link, mac: Mac, es: seq<JointEvent>)
    requires forall e <- es :: Proper(link, mac, e)
    ensures Readable(es)
  {
  }

  lemma AgedTwice(
    link: Link, mac: Mac, t: T.Table, u: T.Table, w: T.Table, n: nat, d: nat, m: nat, e: nat)
    requires Aged(link, mac, t, u, n, d) && Aged(link, mac, u, w, m, e)
    requires (n == 0 ==> d == 0) && (m == 0 ==> e == 0)
    ensures Aged(link, mac, t, w, n + m, d + e)
  {
    T.AgeEntryTwice(Known(link, mac, t), d, e);
  }

  lemma {:induction false} NoClocks(es: seq<JointEvent>)
    ensures Clocks(es) == 0 ==> JointSeconds(es) == 0
  {
    if es != [] {
      NoClocks(es[1..]);
    }
  }

  /** When no frame arrives any more, for instance because the device was taken down, the sender is
      known exactly until a tick brings the time passed to the time to live it had left. */
  lemma {:induction false} Unheard(link: Link, mac: Mac, j: Joint, es: seq<JointEvent>)
    requires Wired(link) && DeafFrom(link, |j.sender.log|)
    requires forall e <- es :: Proper(link, mac, e)
    ensures Readable(es)
    ensures Aged(link, mac, j.table, JointRun(link, j, es).table, Clocks(es), JointSeconds(es))
    decreases |es|, 1
  {
    ProperIsReadable(link, mac, es);
    if es != [] {
      UnheardStep(link, mac, j, es[0]);
      UnheardNext(link, mac, j, es);
    }
  }

  /** The first step and the run after it. */
  lemma {:induction false} UnheardNext(link: Link, mac: Mac, j: Joint, es: seq<JointEvent>)
    requires Wired(link) && DeafFrom(link, |j.sender.log|)
    requires es != [] && Proper(link, mac, es[0]) && forall e <- es :: Proper(link, mac, e)
    requires |JointStep(link, j, es[0]).sender.log| >= |j.sender.log|
    requires var d := if es[0].Clock? then es[0].seconds else 0;
             Aged(link, mac, j.table, JointStep(link, j, es[0]).table, if es[0].Clock? then 1 else 0, d)
    ensures Readable(es)
    ensures Aged(link, mac, j.table, JointRun(link, j, es).table, Clocks(es), JointSeconds(es))
    decreases |es|, 0
  {
    ProperIsReadable(link, mac, es);
    var k := JointStep(link, j, es[0]);
    Unheard(link, mac, k, es[1..]);
    NoClocks(es[1..]);
    AgedTwice(link, mac, j.table, k.table, JointRun(link, k, es[1..]).table,
              if es[0].Clock? then 1 else 0, if es[0].Clock? then es[0].seconds else 0,
              Clocks(es[1..]), JointSeconds(es[1..]));
  }
}
