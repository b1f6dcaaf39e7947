/** One port of the whole transmitting side: from the synchronisation that adds it on, its sender runs as the
    transmit state machine does alone, on the ticks and the snapshots of its device. So everything proved
    about runs of a sender holds of every port. */
module LldpRepositoryPorts {
  import opened Common
  import S = SenderSpec
  import R = SenderRuns
  import opened L = LldpRepositoryObject
  import opened W = LldpRepositoryRuns

  /** What an event hands out to the senders, if it synchronises. */
  function Snapshot(a: Agent, e: Event): Option<Devices> {
    if e.AddressPacket? then HandedOut(a.repo, e.view) else None
  }

  /** The device is in every snapshot of the run. */
  predicate Stays(a: Agent, es: seq<Event>, i: Uint32)
    decreases |es|
  {
    es != [] ==>
      && (Snapshot(a, es[0]).Some? ==> i in Snapshot(a, es[0]).value)
      && Stays(Step(a, es[0]), es[1..], i)
  }

  /** What one event is to the sender of a device. */
  function PortEvent(a: Agent, e: Event, i: Uint32): seq<S.Event> {
    if e.Tick? then [S.Tick(e.seconds)]
    else if Snapshot(a, e).Some? && i in Snapshot(a, e).value then [S.Update(Snapshot(a, e).value[i])]
    else []
  }

  function PortEvents(a: Agent, es: seq<Event>, i: Uint32): seq<S.Event>
    decreases |es|
  {
    if es == [] then [] else PortEvent(a, es[0], i) + PortEvents(Step(a, es[0]), es[1..], i)
  }

  function RunPort(p: Port, es: seq<S.Event>): Port {
    Port(S.Run(p.sender, es, p.net), p.net)
  }

  lemma RunOne(p: Port, e: S.Event)
    ensures RunPort(p, [e]) == Port(S.Step(p.sender, e, p.net), p.net)
  {
    assert [e][1..] == [];
    assert S.Run(S.Step(p.sender, e, p.net), [], p.net) == S.Step(p.sender, e, p.net);
  }

  lemma StepPort(a: Agent, e: Event, i: Uint32)
    requires i in a.ports && (Snapshot(a, e).Some? ==> i in Snapshot(a, e).value)
    ensures i in Step(a, e).ports && Step(a, e).ports[i] == RunPort(a.ports[i], PortEvent(a, e, i))
  {
    if e.Tick? {
      RunOne(a.ports[i], S.Tick(e.seconds));
    } else if Snapshot(a, e).Some? {
      RunOne(a.ports[i], S.Update(Snapshot(a, e).value[i]));
    }
  }

  /** A port that stays runs on its own events. */
  lemma {:induction false} PortRuns(a: Agent, es: seq<Event>, i: Uint32)
    requires i in a.ports && Stays(a, es, i)
    ensures i in Run(a, es).ports && Run(a, es).ports[i] == RunPort(a.ports[i], PortEvents(a, es, i))
    decreases |es|
  {
    if es != [] {
      var p := a.ports[i];
      StepPort(a, es[0], i);
      PortRuns(Step(a, es[0]), es[1..], i);
      R.RunAppend(p.sender, PortEvent(a, es[0], i), PortEvents(Step(a, es[0]), es[1..], i), p.net);
    }
  }

  /** The ticks of a port are those of the run. */
  function Seconds(es: seq<Event>): nat {
    if es == [] then 0 else (if es[0].Tick? then es[0].seconds else 0) + Seconds(es[1..])
  }

  lemma {:induction false} PortSeconds(a: Agent, es: seq<Event>, i: Uint32)
    ensures S.Seconds(PortEvents(a, es, i)) == Seconds(es)
    decreases |es|
  {
    if es != [] {
      var first, rest := PortEvent(a, es[0], i), PortEvents(Step(a, es[0]), es[1..], i);
      PortSeconds(Step(a, es[0]), es[1..], i);
      if first == [] {
        assert first + rest == rest;
      } else {
        assert (first + rest)[1..] == rest;
      }
    }
  }

  // ---------- Births ----------

  lemma {:induction false} RunAppend(a: Agent, es: seq<Event>, fs: seq<Event>)
    ensures Run(a, es + fs) == Run(Run(a, es), fs)
    decreases |es|
  {
    if es == [] {
      assert es + fs == fs;
    } else {
      assert (es + fs)[1..] == es[1..] + fs;
      RunAppend(Step(a, es[0]), es[1..], fs);
    }
  }

  /** A run up to an event, with it, and from then on. */
  lemma RunSplit(a: Agent, es: seq<Event>, k: nat)
    requires k < |es|
    ensures Run(a, es[..k + 1]) == Step(Run(a, es[..k]), es[k])
    ensures Run(a, es) == Run(Run(a, es[..k + 1]), es[k + 1..])
  {
    var b, e := Run(a, es[..k]), es[k];
    assert es[..k + 1] == es[..k] + [e];
    RunAppend(a, es[..k], [e]);
    assert [e][1..] == [];
    assert Run(b, [e]) == Run(Step(b, e), []);
    assert es == es[..k + 1] + es[k + 1..];
    RunAppend(a, es[..k + 1], es[k + 1..]);
  }

  lemma {:induction false} StaysAppend(a: Agent, es: seq<Event>, e: Event, i: Uint32)
    requires Stays(a, es, i)
    requires Snapshot(Run(a, es), e).Some? ==> i in Snapshot(Run(a, es), e).value
    ensures Stays(a, es + [e], i)
    decreases |es|
  {
    if es == [] {
      assert [e][1..] == [];
      assert es + [e] == [e];
    } else {
      assert (es + [e])[1..] == es[1..] + [e];
      StaysAppend(Step(a, es[0]), es[1..], e, i);
    }
  }

  /** The event adds the port: a synchronisation hands its device out for the first time. */
  predicate Born(a: Agent, e: Event, i: Uint32) {
    && i !in a.ports
    && e.AddressPacket?
    && Snapshot(a, e).Some? && i in Snapshot(a, e).value
  }

  lemma BornPort(a: Agent, e: Event, i: Uint32)
    requires i !in a.ports && i in Step(a, e).ports
    ensures Born(a, e, i)
  {
  }

  lemma PortAtBirth(a: Agent, e: Event, i: Uint32)
    requires Born(a, e, i)
    ensures i in Step(a, e).ports
    ensures Step(a, e).ports[i] == Port(S.AddedSender(Snapshot(a, e).value[i], e.nets(i)), e.nets(i))
  {
  }

  lemma StaysOneMore(a: Agent, es: seq<Event>, e: Event, i: Uint32)
    requires Stays(a, es, i) && i in Run(a, es).ports && i in Step(Run(a, es), e).ports
    ensures Stays(a, es + [e], i)
  {
    StaysAppend(a, es, e, i);
  }

  lemma Slices<X>(s: seq<X>, k: nat)
    requires k < |s| - 1
    ensures var front := s[..|s| - 1];
            && front[..k] == s[..k] && front[..k + 1] == s[..k + 1] && front[k] == s[k]
            && s[k + 1..] == front[k + 1..] + [s[|s| - 1]]
  {
  }

  /** Every port has been born at some event of the run, and has stayed since. */
  lemma {:induction false} BirthOf(es: seq<Event>, i: Uint32) returns (k: nat)
    requires i in Run(NEW_AGENT, es).ports
    ensures k < |es| && Born(Run(NEW_AGENT, es[..k]), es[k], i)
    ensures Stays(Run(NEW_AGENT, es[..k + 1]), es[k + 1..], i)
    decreases |es|
  {
    k := |es| - 1;
    var front, last := es[..k], es[k];
    RunSplit(NEW_AGENT, es, k);
    if i in Run(NEW_AGENT, front).ports {
      k := BirthOf(front, i);
      RunSplit(NEW_AGENT, front, k);
      Slices(es, k);
      StaysOneMore(Run(NEW_AGENT, front[..k + 1]), front[k + 1..], last, i);
    } else {
      BornPort(Run(NEW_AGENT, front), last, i);
    }
  }

  /** In every run of the whole, each port is the run of one sender: added for its device by the
      synchronisation that handed the device out, and run since then on the ticks and on the later snapshots
      of the device, and on nothing else. */
  lemma PortIsSenderRun(es: seq<Event>, i: Uint32) returns (k: nat)
    requires i in Run(NEW_AGENT, es).ports
    ensures k < |es| && Born(Run(NEW_AGENT, es[..k]), es[k], i)
    ensures var a, e := Run(NEW_AGENT, es[..k]), es[k];
            var device, net := Snapshot(a, e).value[i], e.nets(i);
            Run(NEW_AGENT, es).ports[i]
            == Port(S.Run(S.AddedSender(device, net), PortEvents(Step(a, e), es[k + 1..], i), net), net)
  {
    k := BirthOf(es, i);
    RunSplit(NEW_AGENT, es, k);
    var a, e := Run(NEW_AGENT, es[..k]), es[k];
    PortAtBirth(a, e, i);
    PortRuns(Step(a, e), es[k + 1..], i);
  }

  // ---------- What this carries over ----------

  /** The rate bound of a port over any window of any run in which it stays. */
  lemma PortRateBound(a: Agent, es: seq<Event>, i: Uint32)
    requires i in a.ports && Stays(a, es, i)
    ensures i in Run(a, es).ports
    ensures var s, t := a.ports[i].sender, Run(a, es).ports[i].sender;
            && R.Extends(s, t)
            && |t.log| - |s.log| + t.credits <= s.credits + Seconds(es)
  {
    PortRuns(a, es, i);
    R.RateBound(a.ports[i].sender, PortEvents(a, es, i), a.ports[i].net);
    PortSeconds(a, es, i);
  }

  /** While its device is operational in every snapshot and ticks take one to five seconds, the silence of a
      healthy port is bounded, whatever goes on around it. */
  lemma PortSilence(a: Agent, es: seq<Event>, i: Uint32)
    requires i in a.ports && Stays(a, es, i) && R.Healthy(a.ports[i].sender)
    requires forall e <- PortEvents(a, es, i) :: R.Steady(e, S.MAX_TRANSMIT_CREDITS)
    ensures i in Run(a, es).ports
    ensures |Run(a, es).ports[i].sender.log| == |a.ports[i].sender.log| ==>
              R.Quiet(a.ports[i].sender) + Seconds(es) <= S.MESSAGE_TRANSMIT_INTERVAL - 1
  {
    PortRuns(a, es, i);
    PortSeconds(a, es, i);
    if |Run(a, es).ports[i].sender.log| == |a.ports[i].sender.log| {
      R.MaximumSilence(a.ports[i].sender, PortEvents(a, es, i), a.ports[i].net);
    }
  }

  /** A port of a run from the start has ever sent if and only if its device can send and since its birth some
      tick of one to five seconds found it operational; and never more frames than seconds. */
  lemma PortEverSent(es: seq<Event>, i: Uint32) returns (k: nat)
    requires i in Run(NEW_AGENT, es).ports
    ensures k < |es| && Born(Run(NEW_AGENT, es[..k]), es[k], i)
    ensures var a, log := Run(NEW_AGENT, es[..k]), Run(NEW_AGENT, es).ports[i].sender.log;
            var device := Snapshot(a, es[k]).value[i];
            && (|log| > 0 <==>
                  S.CanSend(device)
                  && R.ShortTick(device.operational, PortEvents(Step(a, es[k]), es[k + 1..], i)))
            && |log| <= Seconds(es[k + 1..])
  {
    k := PortIsSenderRun(es, i);
    var a, e := Run(NEW_AGENT, es[..k]), es[k];
    var device, net := Snapshot(a, e).value[i], e.nets(i);
    var events := PortEvents(Step(a, e), es[k + 1..], i);
    R.EverSentIff(device, events, net);
    R.RateBound(S.AddedSender(device, net), events, net);
    PortSeconds(Step(a, e), es[k + 1..], i);
    assert S.AddedSender(device, net).credits == 0 && S.AddedSender(device, net).log == [];
  }
}
