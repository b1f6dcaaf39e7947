/** The two ends of a client connection: the service's dump loop, the client's bounded read loop,
    and the alignment of any number of dumps on one reliable ordered stream. */
module ClientConnection {
  import opened Common
  import opened W = ClientWire
  import opened V = ClientSnapshot
  import T = NeighbourTable

  const MAX_PACKETS := 100000
  const EAGAIN := 11

  /** What the service hands to a connection: an entry under the id of its request, or the end marker. */
  datatype Outgoing = Entry(requestId: Uint16, message: Message) | End

  function PacketOf(o: Outgoing): ClientPacket
    requires o.Entry? ==> Fits(o.message)
  {
    match o
    case Entry(requestId, m) => Encode(requestId, m)
    case End => END_PACKET
  }

  predicate AllFit(ms: seq<Message>) {
    forall m <- ms :: Fits(m)
  }

  function Entries(requestId: Uint16, ms: seq<Message>): (r: seq<Outgoing>)
    ensures |r| == |ms|
  {
    seq(|ms|, i requires 0 <= i < |ms| => Entry(requestId, ms[i]))
  }

  /** The packets of one dump, its end marker last. */
  function Dump(requestId: Uint16, groups: seq<Group>, devices: Devices): seq<Outgoing> {
    Entries(requestId, DumpMessages(0, 0, groups, devices)) + [End]
  }

  lemma FitsAppend(a: seq<Message>, b: seq<Message>)
    ensures AllFit(a + b) <==> AllFit(a) && AllFit(b)
  {
    if AllFit(a + b) {
      assert forall m <- a :: m in a + b;
      assert forall m <- b :: m in a + b;
    }
  }

  lemma EntryFits(c: Uint16, n: Uint16, e: T.Entry, devices: Devices)
    requires Sendable(e, devices)
    ensures AllFit(EntryMessages(c, n, e, devices))
  {
  }

  lemma {:induction false} EntriesFit(c: Uint16, start: Uint16, es: seq<T.Entry>, devices: Devices)
    requires forall e <- es :: Sendable(e, devices)
    ensures AllFit(EntriesMessages(c, start, es, devices))
    decreases |es|
  {
    if es != [] {
      EntryFits(c, start, es[0], devices);
      EntriesFit(c, Incremented(start), es[1..], devices);
      FitsAppend(EntryMessages(c, start, es[0], devices),
                 EntriesMessages(c, Incremented(start), es[1..], devices));
    }
  }

  lemma {:induction false} DumpFits(c: Uint16, start: Uint16, groups: seq<Group>, devices: Devices)
    requires AllSendable(groups, devices)
    ensures AllFit(DumpMessages(c, start, groups, devices))
    decreases |groups|
  {
    if groups != [] {
      var g, next := groups[0], Advanced(start, |groups[0].entries|);
      assert g in groups;
      EntriesFit(c, start, g.entries, devices);
      DumpFits(Incremented(c), next, groups[1..], devices);
      FitsAppend(ChassisMessages(c, g.chassis), EntriesMessages(c, start, g.entries, devices));
      FitsAppend(GroupMessages(c, start, g, devices), DumpMessages(Incremented(c), next, groups[1..], devices));
    }
  }

  /** Every packet of a dump carries the id of its request and one entry, the end marker none. */
  lemma DumpPackets(requestId: Uint16, groups: seq<Group>, devices: Devices, i: nat)
    requires AllSendable(groups, devices) && i < |Dump(requestId, groups, devices)|
    ensures var o := Dump(requestId, groups, devices)[i];
            && (o.End? <==> i == |Dump(requestId, groups, devices)| - 1)
            && (o.Entry? ==> Fits(o.message) && PacketOf(o).requestId == requestId && 1 <= PacketOf(o).kind <= 5)
            && (o.End? ==> PacketOf(o).requestId == 0 && PacketOf(o).kind == 0)
  {
    DumpFits(0, 0, groups, devices);
  }

  // ---------- Reading ----------

  /** What one receive on the socket gives; the end of the stream is a closed connection. */
  datatype Incoming = Packet(packet: ClientPacket) | ReadError(errno: int)

  /** `readDataPacket` and what the loop around it makes of the outcome. */
  datatype Read = Item(message: Message) | Again | Stop

  function ReadOf(i: Incoming): Read {
    match i
    case ReadError(errno) => if errno == EAGAIN then Again else Stop
    case Packet(p) => match Decode(p) { case None => Stop case Some(m) => Item(m) }
  }

  function ReadsOf(s: seq<Incoming>): (r: seq<Read>)
    ensures |r| == |s|
    ensures forall i :: 0 <= i < |s| ==> r[i] == ReadOf(s[i])
  {
    seq(|s|, i requires 0 <= i < |s| => ReadOf(s[i]))
  }

  /** The view after at most `budget` reads, and how many were made. */
  function Drain(v: View, input: seq<Read>, budget: nat): (r: (View, nat))
    ensures r.1 <= |input|
    decreases |input|
  {
    if budget == 0 || input == [] then (v, 0)
    else if input[0].Stop? then (v, 1)
    else
      var w := if input[0].Item? then Process(v, input[0].message) else v;
      var (last, n) := Drain(w, input[1..], budget - 1);
      (last, n + 1)
  }

  function Items(ms: seq<Message>): (r: seq<Read>)
    ensures |r| == |ms|
  {
    seq(|ms|, i requires 0 <= i < |ms| => Item(AsSeen(ms[i])))
  }

  predicate Deliverable(out: seq<Outgoing>) {
    forall o <- out :: o.Entry? ==> Fits(o.message)
  }

  function Delivered(out: seq<Outgoing>): (r: seq<Incoming>)
    requires Deliverable(out)
    ensures |r| == |out|
  {
    seq(|out|, i requires 0 <= i < |out| => Packet(PacketOf(out[i])))
  }

  lemma EntryReads(requestId: Uint16, m: Message)
    requires Fits(m)
    ensures ReadOf(Packet(PacketOf(Entry(requestId, m)))) == Item(AsSeen(m))
  {
    WireRoundTrip(requestId, m);
  }

  lemma EndReads()
    ensures ReadOf(Packet(PacketOf(End))) == Stop
  {
  }

  /** What one read means: an entry that was encoded comes back as a client sees it; the end marker, any
      other type and every error but EAGAIN stop the loop. */
  lemma ReadMeaning(i: Incoming)
    ensures i.Packet? ==>
              forall requestId, m | Fits(m) && i.packet == Encode(requestId, m) :: ReadOf(i) == Item(AsSeen(m))
    ensures ReadOf(i).Item? <==>
            i.Packet? && i.packet.kind in {CHASSIS_ENTRY, NEIGHBOUR_ENTRY, IP_ENTRY, IPV6_ENTRY, LOCAL_INTERFACE_ENTRY}
    ensures ReadOf(i).Again? <==> i == ReadError(EAGAIN)
  {
    forall requestId, m | Fits(m) && i.Packet? && i.packet == Encode(requestId, m)
      ensures ReadOf(i) == Item(AsSeen(m))
    {
      WireRoundTrip(requestId, m);
    }
  }

  lemma EntriesDeliverable(requestId: Uint16, ms: seq<Message>)
    requires AllFit(ms)
    ensures Deliverable(Entries(requestId, ms) + [End])
  {
    var out := Entries(requestId, ms) + [End];
    forall o | o in out ensures o.Entry? ==> Fits(o.message) {
      var i :| 0 <= i < |out| && out[i] == o;
      if i < |ms| {
        assert o.message == ms[i];
      }
    }
  }

  /** A delivered dump reads as its messages, each as a client sees it, and a stop. */
  lemma DumpReads(requestId: Uint16, groups: seq<Group>, devices: Devices)
    requires AllSendable(groups, devices)
    ensures Deliverable(Dump(requestId, groups, devices))
    ensures ReadsOf(Delivered(Dump(requestId, groups, devices))) == Items(DumpMessages(0, 0, groups, devices)) + [Stop]
  {
    DumpFits(0, 0, groups, devices);
    EntriesRead(requestId, DumpMessages(0, 0, groups, devices));
  }

  lemma EntriesRead(requestId: Uint16, ms: seq<Message>)
    requires AllFit(ms)
    ensures var out := Entries(requestId, ms) + [End];
            Deliverable(out) && ReadsOf(Delivered(out)) == Items(ms) + [Stop]
  {
    var out := Entries(requestId, ms) + [End];
    EntriesDeliverable(requestId, ms);
    var read := ReadsOf(Delivered(out));
    forall i | 0 <= i < |out| ensures read[i] == (Items(ms) + [Stop])[i] {
      assert Delivered(out)[i] == Packet(PacketOf(out[i]));
      if i < |ms| {
        EntryReads(requestId, ms[i]);
      } else {
        EndReads();
      }
    }
  }

  /** Items in front of the stream are folded into the view one by one, up to the budget. */
  lemma {:induction false} DrainItems(v: View, ms: seq<Message>, rest: seq<Read>, budget: nat)
    ensures var r := Drain(v, Items(ms) + rest, budget);
            if |ms| > budget then r.1 == budget
            else var (w, n) := Drain(Fold(v, ms), rest, budget - |ms|); r == (w, |ms| + n)
    decreases |ms|
  {
    var input := Items(ms) + rest;
    if ms == [] {
      assert input == rest;
    } else if budget > 0 {
      assert input[0] == Item(AsSeen(ms[0]));
      assert input[1..] == Items(ms[1..]) + rest;
      DrainItems(Process(v, AsSeen(ms[0])), ms[1..], rest, budget - 1);
    }
  }

  /** Items and a stop are drained to exactly that stop if and only if the budget reaches it. */
  lemma DrainToStop(v: View, ms: seq<Message>, rest: seq<Read>, budget: nat)
    ensures var r := Drain(v, Items(ms) + [Stop] + rest, budget);
            if |ms| < budget then r == (Fold(v, ms), |ms| + 1) else r.1 == budget
  {
    var after := [Stop] + rest;
    assert Items(ms) + [Stop] + rest == Items(ms) + after;
    DrainItems(v, ms, after, budget);
  }

  /** Snapshot. Whatever the packet limit, which is `MAX_PACKETS` in a client, a read takes exactly one
      dump off the stream, end marker included, if and only if the dump is within the limit; it then
      rebuilds the devices the dump means, under the numbers of their positions. */
  lemma Snapshot(limit: nat, requestId: Uint16, groups: seq<Group>, devices: Devices, rest: seq<Read>)
    requires AllSendable(groups, devices)
    ensures Deliverable(Dump(requestId, groups, devices))
    ensures var dump := Dump(requestId, groups, devices);
            var (view, used) := Drain(EMPTY_VIEW, ReadsOf(Delivered(dump)) + rest, limit);
            && (used == |dump| <==> |dump| <= limit)
            && (|dump| <= limit ==> view.devices == Overlay(map[], 0, SeenAll(map[], 0, groups, devices)))
  {
    var ms := DumpMessages(0, 0, groups, devices);
    DumpReads(requestId, groups, devices);
    DrainToStop(EMPTY_VIEW, ms, rest, limit);
    FoldDump(EMPTY_VIEW, map[], 0, 0, groups, devices);
  }

  /** Round trip. No neighbour is lost if and only if there are at most 65536; then key i of the client's
      map holds the i-th neighbour with its port, interface name and addresses, and its chassis if that
      fits. */
  lemma SnapshotRoundTrip(limit: nat, requestId: Uint16, groups: seq<Group>, devices: Devices, rest: seq<Read>)
    requires AllSendable(groups, devices)
    requires |Dump(requestId, groups, devices)| <= limit
    ensures Deliverable(Dump(requestId, groups, devices))
    ensures var told := ToldAll(groups, devices);
            var view := Drain(EMPTY_VIEW, ReadsOf(Delivered(Dump(requestId, groups, devices))) + rest, limit).0;
            && (|view.devices| == |told| <==> |told| <= COUNTERS)
            && (|told| <= COUNTERS ==> view.devices.Keys == Numbers(|told|))
            && (|told| <= COUNTERS && ChassisApart(groups) ==>
                  forall i :: 0 <= i < |told| ==> i in view.devices && view.devices[i] == told[i])
  {
    Snapshot(limit, requestId, groups, devices, rest);
    var seen := SeenAll(map[], 0, groups, devices);
    SeenSize(map[], 0, groups, devices);
    NoneLostIff(seen);
    if |seen| <= COUNTERS {
      AllDelivered(seen);
      if ChassisApart(groups) {
        SeenAsTold(groups, devices);
      }
    }
  }

  // ---------- Many requests on one connection ----------

  /** One request and the table and devices it was answered from. */
  datatype Request = Request(requestId: Uint16, groups: seq<Group>, devices: Devices)

  predicate Answerable(limit: nat, r: Request) {
    AllSendable(r.groups, r.devices) && |Dump(r.requestId, r.groups, r.devices)| <= limit
  }

  /** The stream of the answers, in the order of the requests. */
  function Answers(limit: nat, requests: seq<Request>): seq<Incoming>
    requires forall r <- requests :: Answerable(limit, r)
  {
    if requests == [] then [] else
      var r := requests[0];
      assert r in requests && Answerable(limit, r);
      DumpReads(r.requestId, r.groups, r.devices);
      Delivered(Dump(r.requestId, r.groups, r.devices)) + Answers(limit, requests[1..])
  }

  /** What `n` reads in a row give. */
  function Results(limit: nat, incoming: seq<Incoming>, n: nat): seq<map<Uint16, Device>> {
    if n == 0 then [] else
      var (view, used) := Drain(EMPTY_VIEW, ReadsOf(incoming), limit);
      [view.devices] + Results(limit, incoming[used..], n - 1)
  }

  function Meant(r: Request): map<Uint16, Device> {
    Overlay(map[], 0, SeenAll(map[], 0, r.groups, r.devices))
  }

  lemma ReadFirst(limit: nat, r: Request, rest: seq<Incoming>, n: nat)
    requires Answerable(limit, r)
    ensures Deliverable(Dump(r.requestId, r.groups, r.devices))
    ensures Results(limit, Delivered(Dump(r.requestId, r.groups, r.devices)) + rest, n + 1)
         == [Meant(r)] + Results(limit, rest, n)
  {
    Snapshot(limit, r.requestId, r.groups, r.devices, ReadsOf(rest));
    ReadsAppend(Delivered(Dump(r.requestId, r.groups, r.devices)), rest);
  }

  lemma ReadsAppend(a: seq<Incoming>, b: seq<Incoming>)
    ensures ReadsOf(a + b) == ReadsOf(a) + ReadsOf(b)
    ensures (a + b)[|a|..] == b
  {
    forall i | 0 <= i < |a + b| ensures ReadsOf(a + b)[i] == (ReadsOf(a) + ReadsOf(b))[i] {
      assert (a + b)[i] == if i < |a| then a[i] else b[i - |a|];
    }
  }

  /** Results never mix snapshots: the i-th read returns exactly what the i-th dump means, whatever
      the table was at the other requests. */
  lemma {:induction false} StreamAlignment(limit: nat, requests: seq<Request>)
    requires forall r <- requests :: Answerable(limit, r)
    ensures |Results(limit, Answers(limit, requests), |requests|)| == |requests|
    ensures forall i :: 0 <= i < |requests| ==>
              Results(limit, Answers(limit, requests), |requests|)[i] == Meant(requests[i])
    decreases |requests|
  {
    if requests != [] {
      assert Answerable(limit, requests[0]);
      ReadFirst(limit, requests[0], Answers(limit, requests[1..]), |requests| - 1);
      StreamAlignment(limit, requests[1..]);
      assert Results(limit, Answers(limit, requests), |requests|)
          == [Meant(requests[0])] + Results(limit, Answers(limit, requests[1..]), |requests[1..]|);
    }
  }

  // ---------- The loops ----------

  lemma EntriesAppend(requestId: Uint16, a: seq<Message>, b: seq<Message>)
    ensures Entries(requestId, a + b) == Entries(requestId, a) + Entries(requestId, b)
  {
  }

  /** What is sent and what is left, around one more neighbour. */
  lemma EntriesNext(
    out: seq<Outgoing>, requestId: Uint16, c: Uint16, n: Uint16, es: seq<T.Entry>, j: nat, devices: Devices)
    requires j < |es|
    ensures out + Entries(requestId, EntriesMessages(c, n, es[j..], devices))
         == (out + Entries(requestId, EntryMessages(c, n, es[j], devices)))
          + Entries(requestId, EntriesMessages(c, Incremented(n), es[j + 1..], devices))
  {
    assert es[j..][1..] == es[j + 1..];
    EntriesAppend(requestId, EntryMessages(c, n, es[j], devices),
                  EntriesMessages(c, Incremented(n), es[j + 1..], devices));
  }

  /** The same around one more chassis. */
  lemma DumpNext(
    out: seq<Outgoing>, requestId: Uint16, c: Uint16, n: Uint16, groups: seq<Group>, i: nat, devices: Devices)
    requires i < |groups|
    ensures out + Entries(requestId, DumpMessages(c, n, groups[i..], devices))
         == (out + Entries(requestId, GroupMessages(c, n, groups[i], devices)))
          + Entries(requestId, DumpMessages(Incremented(c), Advanced(n, |groups[i].entries|), groups[i + 1..], devices))
  {
    assert groups[i..][1..] == groups[i + 1..];
    EntriesAppend(requestId, GroupMessages(c, n, groups[i], devices),
                  DumpMessages(Incremented(c), Advanced(n, |groups[i].entries|), groups[i + 1..], devices));
  }

  /** `client::ClientSenderSocket`: `outbox` is what was handed to the connection. */
  class ClientSenderSocket {
    var outbox: seq<Outgoing>

    method SendChassisEntryPacket(requestId: Uint16, c: Uint16, chassis: Bytes)
      modifies this
      ensures outbox == old(outbox) + Entries(requestId, ChassisMessages(c, chassis))
    {
      if |chassis| > CHASSIS_NAME_SIZE {
        return;
      }
      outbox := outbox + [Entry(requestId, Chassis(c, chassis))];
    }

    /** The packets of one neighbour. */
    method SendEntry(requestId: Uint16, c: Uint16, n: Uint16, e: T.Entry, devices: Devices)
      modifies this
      ensures outbox == old(outbox) + Entries(requestId, EntryMessages(c, n, e, devices))
    {
      var sent := [Entry(requestId, Neighbour(c, n, e.port))];
      if e.interfaceIndex in devices && devices[e.interfaceIndex].name.Some? {
        sent := sent + [Entry(requestId, LocalInterface(n, e.interfaceIndex, devices[e.interfaceIndex].name.value))];
      }
      if e.ipv4.Some? {
        sent := sent + [Entry(requestId, Ip(n, e.ipv4.value))];
      }
      if e.ipv6.Some? {
        sent := sent + [Entry(requestId, Ip6(n, e.ipv6.value))];
      }
      assert sent == Entries(requestId, EntryMessages(c, n, e, devices));
      outbox := outbox + sent;
    }

    /** The inner loop over the ports of one chassis. */
    method SendEntries(requestId: Uint16, c: Uint16, start: Uint16, es: seq<T.Entry>, devices: Devices)
      returns (next: Uint16)
      modifies this
      ensures next == Advanced(start, |es|)
      ensures outbox == old(outbox) + Entries(requestId, EntriesMessages(c, start, es, devices))
    {
      next := start;
      ghost var goal := outbox + Entries(requestId, EntriesMessages(c, start, es, devices));
      assert es[0..] == es;
      for j := 0 to |es|
        invariant Advanced(next, |es| - j) == Advanced(start, |es|)
        invariant outbox + Entries(requestId, EntriesMessages(c, next, es[j..], devices)) == goal
      {
        EntriesNext(outbox, requestId, c, next, es, j, devices);
        SendEntry(requestId, c, next, es[j], devices);
        next := Incremented(next);
      }
    }

    /** One iteration of the outer loop. */
    method SendGroup(requestId: Uint16, c: Uint16, start: Uint16, g: Group, devices: Devices) returns (next: Uint16)
      modifies this
      ensures next == Advanced(start, |g.entries|)
      ensures outbox == old(outbox) + Entries(requestId, GroupMessages(c, start, g, devices))
    {
      SendChassisEntryPacket(requestId, c, g.chassis);
      next := SendEntries(requestId, c, start, g.entries, devices);
      EntriesAppend(requestId, ChassisMessages(c, g.chassis), EntriesMessages(c, start, g.entries, devices));
    }

    /** `DumpData`: two counters of 16 bits number the chassis and the neighbours. */
    method DumpData(requestId: Uint16, groups: seq<Group>, devices: Devices)
      modifies this
      ensures outbox == old(outbox) + Dump(requestId, groups, devices)
    {
      var chassisCounter: Uint16, neighbourCounter: Uint16 := 0, 0;
      ghost var goal := outbox + Entries(requestId, DumpMessages(0, 0, groups, devices));
      assert groups[0..] == groups;
      for i := 0 to |groups|
        invariant outbox + Entries(requestId, DumpMessages(chassisCounter, neighbourCounter, groups[i..], devices))
               == goal
      {
        DumpNext(outbox, requestId, chassisCounter, neighbourCounter, groups, i, devices);
        neighbourCounter := SendGroup(requestId, chassisCounter, neighbourCounter, groups[i], devices);
        chassisCounter := Incremented(chassisCounter);
      }
      assert outbox == goal;
      outbox := outbox + [End];
    }
  }

  /** After `used` reads of `all` the view is `v`. While `open`, draining what is left within the budget
      reaches `goal`; afterwards `goal` is reached. */
  predicate Reading(goal: (View, nat), v: View, all: seq<Incoming>, used: nat, budget: nat, open: bool) {
    used <= |all| &&
    if open then
      var (w, n) := Drain(v, ReadsOf(all[used..]), budget);
      goal == (w, used + n)
    else
      goal == (v, used)
  }

  lemma ReadingStarts(all: seq<Incoming>, limit: nat)
    ensures Reading(Drain(EMPTY_VIEW, ReadsOf(all), limit), EMPTY_VIEW, all, 0, limit, true)
  {
    assert all[0..] == all;
  }

  /** One iteration of the read loop. */
  lemma ReadingNext(goal: (View, nat), v: View, all: seq<Incoming>, used: nat, budget: nat)
    requires Reading(goal, v, all, used, budget, true) && budget > 0 && used < |all|
    ensures match ReadOf(all[used])
            case Stop => Reading(goal, v, all, used + 1, budget - 1, false)
            case Again => Reading(goal, v, all, used + 1, budget - 1, true)
            case Item(m) => Reading(goal, Process(v, m), all, used + 1, budget - 1, true)
  {
    var rest := all[used..];
    assert ReadsOf(rest)[0] == ReadOf(all[used]);
    assert ReadsOf(rest)[1..] == ReadsOf(all[used + 1..]);
  }

  lemma ReadingEnds(goal: (View, nat), v: View, all: seq<Incoming>, used: nat, budget: nat, open: bool)
    requires Reading(goal, v, all, used, budget, open) && (open ==> budget == 0 || used == |all|)
    ensures goal == (v, used)
  {
  }

  /** `client::ClientReceiverSocket`: `incoming` is what is still to be read from the connection. */
  class ClientReceiverSocket {
    var requestId: Uint16
    var requests: seq<Uint16>
    var incoming: seq<Incoming>

    constructor (incoming: seq<Incoming>)
      ensures requestId == 1 && requests == [] && this.incoming == incoming
    {
      requestId := 1;
      requests := [];
      this.incoming := incoming;
    }

    /** `GetData`: a request, and then the read loop. */
    method GetData() returns (devices: map<Uint16, Device>)
      modifies this
      ensures var (view, used) := Drain(EMPTY_VIEW, ReadsOf(old(incoming)), 100000);
              devices == view.devices && incoming == old(incoming)[used..]
      ensures requests == old(requests) + [old(requestId)]
      ensures requestId == Incremented(old(requestId))
    {
      requests := requests + [requestId];
      devices, incoming := Receive(incoming, MAX_PACKETS);
      requestId := Incremented(requestId);
    }

    /** Reads up to the end marker, an error, or the packet limit. */
    static method Receive(incoming: seq<Incoming>, limit: nat)
      returns (devices: map<Uint16, Device>, rest: seq<Incoming>)
      ensures var (view, used) := Drain(EMPTY_VIEW, ReadsOf(incoming), limit);
              devices == view.devices && rest == incoming[used..]
    {
      ghost var goal := Drain(EMPTY_VIEW, ReadsOf(incoming), limit);
      var view := EMPTY_VIEW;
      var used: nat, open := 0, true;
      ReadingStarts(incoming, limit);
      while used < limit && open && used < |incoming|
        invariant used <= limit && used <= |incoming|
        invariant Reading(goal, view, incoming, used, limit - used, open)
        decreases limit - used
      {
        view, open := ReceiveOne(goal, view, incoming, used, limit - used);
        used := used + 1;
      }
      ReadingEnds(goal, view, incoming, used, limit - used, open);
      devices := view.devices;
      rest := incoming[used..];
    }

    /** One iteration of the loop. */
    static method ReceiveOne(ghost goal: (View, nat), view: View, incoming: seq<Incoming>, used: nat, ghost budget: nat)
      returns (newView: View, open: bool)
      requires budget > 0 && used < |incoming| && Reading(goal, view, incoming, used, budget, true)
      ensures Reading(goal, newView, incoming, used + 1, budget - 1, open)
    {
      ReadingNext(goal, view, incoming, used, budget);
      var read := ReadDataPacket(incoming[used]);
      match read
      case Again => return view, true;
      case Stop => return view, false;
      case Item(m) =>
        var names, devices := ProcessDataPacket(view.names, view.devices, m);
        return View(names, devices), true;
    }

    static method ReadDataPacket(i: Incoming) returns (read: Read)
      ensures read == ReadOf(i)
    {
      if i.ReadError? {
        read := if i.errno == EAGAIN then Again else Stop;
        return;
      }
      var message := Decode(i.packet);
      return if message.None? then Stop else Item(message.value);
    }

    /** `processDataPacket`: the two maps after one entry. */
    static method ProcessDataPacket(names: map<Uint16, Bytes>, devices: map<Uint16, Device>, m: Message)
      returns (newNames: map<Uint16, Bytes>, newDevices: map<Uint16, Device>)
      ensures View(newNames, newDevices) == Process(View(names, devices), m)
    {
      newNames, newDevices := names, devices;
      match m {
        case Chassis(c, name) =>
          newNames := newNames[c := name];
        case Neighbour(c, n, port) =>
          if c !in newNames {
            newNames := newNames[c := []];
          }
          newDevices := newDevices[n := Device(newNames[c], port, None, None, None)];
        case Ip(n, a) =>
          newDevices := newDevices[n := DeviceOf(View(names, devices), n).(ipv4 := Some(a))];
        case Ip6(n, a) =>
          newDevices := newDevices[n := DeviceOf(View(names, devices), n).(ipv6 := Some(a))];
        case LocalInterface(n, _, name) =>
          newDevices := newDevices[n := DeviceOf(View(names, devices), n).(localName := Some(name))];
      }
    }
  }
}
