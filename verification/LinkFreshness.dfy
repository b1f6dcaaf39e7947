/** What the receiver knows of a sender on a lossy link: when a frame arrives the receiver knows the sender's
    own addresses, and it goes on doing so until a change is pending or its announcement is lost. */
module LinkFreshness {
  import opened Common
  import opened S = SenderSpec
  import opened F = SenderFrames
  import M = LldpMonitor
  import T = NeighbourTable
  import W = FrameMeaning
  import opened K = KeepAlive

  /** What a receiver stores for the n-th frame of the link. */
  function Stored(link: Link, mac: Mac, n: nat, frame: Attempt): T.Entry
    requires frame.device.mac == Some(mac)
  {
    W.Meaning(frame.ttl, frame.device, link.machineId, link.address(n).ifIndex % 0x1_0000)
  }

  /** When the last of some frames arrives, it is what the receiver knows. */
  lemma {:induction false} LastHeard(link: Link, mac: Mac, t: T.Table, log: seq<Attempt>, from: nat)
    requires Wired(link) && from < |log| && Arrives(link, |log| - 1)
    requires forall i :: from <= i < |log| ==> log[i].device.mac == Some(mac)
    ensures Known(link, mac, HearAll(link, t, log, from)) == Some(Stored(link, mac, |log| - 1, log[|log| - 1]))
    decreases |log| - from
  {
    var heard := Hear(link, t, from, log[from]);
    if from < |log| - 1 {
      LastHeard(link, mac, heard, log, from + 1);
    } else {
      HearKnown(link, mac, t, from, log[from]);
      assert HearAll(link, heard, log, from + 1) == heard;
    }
  }

  /** After any event whose last frame arrives, the receiver knows the sender's own addresses. */
  lemma FrameTeaches(link: Link, mac: Mac, t: T.Table, s: Sender, e: Event)
    requires Wired(link) && s.device.mac == Some(mac)
    requires |Step(s, e, link.net).log| > |s.log| && Arrives(link, |Step(s, e, link.net).log| - 1)
    ensures var u := Step(s, e, link.net);
            var known := Known(link, mac, HearAll(link, t, u.log, |s.log|));
            && known.Some?
            && known.value.ipv4 == u.device.ipv4 && known.value.ipv6 == u.device.ipv6
  {
    StepTells(s, e, link.net);
    LastHeard(link, mac, t, Step(s, e, link.net).log, |s.log|);
  }

  /** If the last frame has arrived and the sender is known at all, it is known by the addresses in it. */
  ghost predicate Informed(link: Link, mac: Mac, j: Joint) {
    var known, log := Known(link, mac, j.table), j.sender.log;
    log != [] && Arrives(link, |log| - 1) && known.Some? ==>
      && known.value.ipv4 == log[|log| - 1].device.ipv4
      && known.value.ipv6 == log[|log| - 1].device.ipv6
  }

  lemma ExtensionInforms(link: Link, mac: Mac, j: Joint, u: Sender)
    requires Wired(link) && Informed(link, mac, j)
    requires Tells(j.sender, u) && u.device.mac == Some(mac)
    ensures Informed(link, mac, Joint(u, HearAll(link, j.table, u.log, |j.sender.log|)))
  {
    if |u.log| == |j.sender.log| {
      assert u.log == j.sender.log;
    } else if Arrives(link, |u.log| - 1) {
      LastHeard(link, mac, j.table, u.log, |j.sender.log|);
    }
  }

  lemma HearingInforms(link: Link, mac: Mac, j: Joint, e: Event)
    requires Wired(link) && j.sender.device.mac == Some(mac) && Informed(link, mac, j)
    ensures var u := Step(j.sender, e, link.net);
            && |j.sender.log| <= |u.log|
            && Informed(link, mac, Joint(u, HearAll(link, j.table, u.log, |j.sender.log|)))
  {
    StepTells(j.sender, e, link.net);
    ExtensionInforms(link, mac, j, Step(j.sender, e, link.net));
  }

  lemma AgeingInforms(link: Link, mac: Mac, j: Joint, d: nat)
    requires Informed(link, mac, j)
    ensures Informed(link, mac, j.(table := T.Age(j.table, d)))
  {
    AgeKnown(link, mac, j.table, d);
  }

  lemma StepInforms(link: Link, mac: Mac, j: Joint, e: JointEvent)
    requires Wired(link) && Proper(link, mac, e)
    requires j.sender.device.mac == Some(mac) && Informed(link, mac, j)
    ensures Informed(link, mac, JointStep(link, j, e))
  {
    match e
    case Clock(d, receiverFirst) =>
      if receiverFirst {
        AgeingInforms(link, mac, j, d);
        HearingInforms(link, mac, j.(table := T.Age(j.table, d)), Tick(d));
      } else {
        HearingInforms(link, mac, j, Tick(d));
        var u := Step(j.sender, Tick(d), link.net);
        AgeingInforms(link, mac, Joint(u, HearAll(link, j.table, u.log, |j.sender.log|)), d);
      }
    case Local(event) => HearingInforms(link, mac, j, event);
    case Other(address, frame) =>
      var entry := M.Interpret(address, frame);
      if entry.Some? {
        T.LookupInsert(j.table, entry.value, [W.CHASSIS_SUBTYPE_LOCAL] + link.machineId, [W.PORT_SUBTYPE_MAC] + mac);
      }
  }

  lemma JointStepFresh(link: Link, mac: Mac, j: Joint, e: JointEvent)
    requires Wired(link) && Proper(link, mac, e)
    requires CanSend(j.sender.device) && Fresh(j.sender) && j.sender.device.mac == Some(mac)
    ensures var k := JointStep(link, j, e);
            CanSend(k.sender.device) && Fresh(k.sender) && k.sender.device.mac == Some(mac)
  {
    match e
    case Clock(d, _) =>
      StepFresh(j.sender, Tick(d), link.net);
      StepTells(j.sender, Tick(d), link.net);
    case Local(event) =>
      StepFresh(j.sender, event, link.net);
      StepTells(j.sender, event, link.net);
    case Other(_, _) =>
  }

  /** The receiver tells the truth. Over any run, whatever updates, outages, losses and other neighbours there
      are: as long as nothing is pending and the last frame has arrived, a sender that is known is known by
      exactly the addresses its device has. */
  lemma {:induction false} KnownTruth(link: Link, mac: Mac, j: Joint, es: seq<JointEvent>)
    requires Wired(link) && forall e <- es :: Proper(link, mac, e)
    requires CanSend(j.sender.device) && Fresh(j.sender) && j.sender.device.mac == Some(mac)
    requires Informed(link, mac, j)
    ensures Readable(es)
    ensures var k := JointRun(link, j, es);
            var known := Known(link, mac, k.table);
            && (!k.sender.ready ==> k.sender.log != [])
            && (!k.sender.ready && Arrives(link, |k.sender.log| - 1) && known.Some? ==>
                  known.value.ipv4 == k.sender.device.ipv4 && known.value.ipv6 == k.sender.device.ipv6)
    decreases |es|
  {
    ProperIsReadable(link, mac, es);
    if es != [] {
      StepInforms(link, mac, j, es[0]);
      JointStepFresh(link, mac, j, es[0]);
      KnownTruth(link, mac, JointStep(link, j, es[0]), es[1..]);
    }
  }
}
