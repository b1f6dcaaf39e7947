/** The device repository: two dump readers chained one after the other, the resynchronisation
    timer, and the device table their messages fill. `Run` folds any events over it; `notes` records
    what happened, and the main properties are stated about the notes alone. */
module DeviceRepository {
  import opened Common
  import N = NetlinkFraming
  import R = DumpReader

  const SYNC_TIMEOUT := 120
  const EXPEDITE_TIMEOUT := 2

  const ARPHRD_ETHER: Uint16 := 1
  const IFLA_ADDRESS: Uint16 := 1
  const IFLA_IFNAME: Uint16 := 3
  const IFA_ADDRESS: Uint16 := 1
  const AF_INET: Byte := 2
  const AF_INET6: Byte := 10

  type Devices = map<Uint32, DeviceData>

  // ---------- What a message does to the table ----------

  function DeviceAt(devices: Devices, i: Uint32): DeviceData {
    if i in devices then devices[i] else DeviceData(None, None, None, None, false, 0)
  }

  predicate IsMac(a: N.Attribute) {
    a.kind == IFLA_ADDRESS && |a.value| == 6
  }

  /** The value of the last attribute that is a whole MAC address, or `otherwise`. */
  function LastMac(attributes: seq<N.Attribute>, otherwise: Option<Mac>): Option<Mac> {
    if attributes == [] then otherwise
    else if IsMac(attributes[|attributes| - 1]) then Some(attributes[|attributes| - 1].value)
    else LastMac(attributes[..|attributes| - 1], otherwise)
  }

  predicate IsName(a: N.Attribute) {
    a.kind == IFLA_IFNAME && |a.value| > 1
  }

  /** A name without its terminating zero. */
  function NameFrom(value: Bytes): Bytes {
    if value != [] && value[|value| - 1] == 0 then value[..|value| - 1] else value
  }

  function LastName(attributes: seq<N.Attribute>, otherwise: Option<Bytes>): Option<Bytes> {
    if attributes == [] then otherwise
    else if IsName(attributes[|attributes| - 1]) then Some(NameFrom(attributes[|attributes| - 1].value))
    else LastName(attributes[..|attributes| - 1], otherwise)
  }

  function LastAddress(attributes: seq<N.Attribute>, size: nat, otherwise: Option<Bytes>): (r: Option<Bytes>)
    requires otherwise.Some? ==> |otherwise.value| == size
    ensures r.Some? ==> |r.value| == size
  {
    if attributes == [] then otherwise
    else
      var last := attributes[|attributes| - 1];
      if last.kind == IFA_ADDRESS && |last.value| == size then Some(last.value)
      else LastAddress(attributes[..|attributes| - 1], size, otherwise)
  }

  function LastIpv4(attributes: seq<N.Attribute>, otherwise: Option<Ipv4>): Option<Ipv4> {
    match LastAddress(attributes, 4, if otherwise.Some? then Some(otherwise.value) else None)
    case None => None
    case Some(a) => Some(a)
  }

  function LastIpv6(attributes: seq<N.Attribute>, otherwise: Option<Ipv6>): Option<Ipv6> {
    match LastAddress(attributes, 16, if otherwise.Some? then Some(otherwise.value) else None)
    case None => None
    case Some(a) => Some(a)
  }

  function LinkIndex(info: N.LinkInfo): Uint32 {
    FromLittleEndian32(info[4..])
  }

  /** Administratively up and with a carrier: flags 0 and 16. */
  predicate Operational(info: N.LinkInfo) {
    var flags := FromLittleEndian32(info[8..]);
    flags % 2 == 1 && flags / 0x1_0000 % 2 == 1
  }

  function AfterLink(devices: Devices, v: N.View): Devices
    requires v.LinkView?
  {
    if v.header.kind != N.RTM_NEWLINK || FromLittleEndian16(v.link[2..]) != ARPHRD_ETHER then devices
    else
      var i := LinkIndex(v.link);
      var d := DeviceAt(devices, i);
      devices[i := d.(
        ifIndex := i,
        operational := Operational(v.link),
        name := LastName(v.attributes, d.name),
        mac := LastMac(v.attributes, d.mac))]
  }

  /** Secondary addresses are not taken. */
  predicate AddressAccepted(v: N.View)
    requires v.AddrView?
  {
    v.header.kind == N.RTM_NEWADDR && (v.address[0] == AF_INET || v.address[0] == AF_INET6) && v.address[2] % 2 == 0
  }

  function AfterAddress(devices: Devices, v: N.View): Devices
    requires v.AddrView?
  {
    if !AddressAccepted(v) then devices
    else
      var i := FromLittleEndian32(v.address[4..]);
      var d := DeviceAt(devices, i).(ifIndex := i);
      devices[i :=
        if v.address[0] == AF_INET then d.(ipv4 := LastIpv4(v.attributes, d.ipv4))
        else d.(ipv6 := LastIpv6(v.attributes, d.ipv6))]
  }

  /** A message changes one device only; link messages leave its addresses alone, and address
      messages everything but the address of their family. No device is ever dropped. */
  lemma TableFrame(devices: Devices, v: N.View, j: Uint32)
    requires v.LinkView? || v.AddrView?
    ensures var after := if v.LinkView? then AfterLink(devices, v) else AfterAddress(devices, v);
            var i := if v.LinkView? then LinkIndex(v.link) else FromLittleEndian32(v.address[4..]);
            && devices.Keys <= after.Keys <= devices.Keys + {i}
            && (j != i && j in devices ==> after[j] == devices[j])
            && (i in after && after != devices ==>
                  && after[i].ifIndex == i
                  && (v.LinkView? ==>
                        && after[i].ipv4 == DeviceAt(devices, i).ipv4
                        && after[i].ipv6 == DeviceAt(devices, i).ipv6)
                  && (v.AddrView? ==>
                        && after[i].mac == DeviceAt(devices, i).mac
                        && after[i].name == DeviceAt(devices, i).name
                        && after[i].operational == DeviceAt(devices, i).operational))
  {
  }

  // ---------- The state machine ----------

  datatype Note =
    | Elapsed(seconds: nat)
    | Monitored
    | DeviceDump(issued: bool)
    | DeviceDone
    | DeviceError
    | AddressDump(issued: bool)
    | Synced(snapshot: Devices)
    | AddressError

  /** `deviceTrace` and `addressTrace` are the events the two readers have seen. */
  datatype Repo = Repo(
    syncTimeout: int,
    deviceReader: R.Reader,
    addressReader: R.Reader,
    devices: Devices,
    notes: seq<Note>,
    deviceTrace: seq<R.Event>,
    addressTrace: seq<R.Event>)

  const NEW_REPO := Repo(-1, R.NEW_READER, R.NEW_READER, map[], [], [], [])

  /** The sends an event may lead to have the outcome that comes with it. */
  datatype Event =
    | Tick(seconds: nat, outcome: R.SendOutcome)
    | Monitor
    | DevicePacket(view: N.View, outcome: R.SendOutcome)
    | AddressPacket(view: N.View)

  function Noted(r: Repo, note: Note): Repo {
    r.(notes := r.notes + [note])
  }

  function Expedited(r: Repo, note: Note): Repo {
    Noted(r, note).(syncTimeout := EXPEDITE_TIMEOUT)
  }

  function DeviceStep(r: Repo, e: R.Event): (Repo, R.Signal) {
    var (reader, signal) := R.Step(r.deviceReader, e);
    (r.(deviceReader := reader, deviceTrace := r.deviceTrace + [e]), signal)
  }

  function AddressStep(r: Repo, e: R.Event): (Repo, R.Signal) {
    var (reader, signal) := R.Step(r.addressReader, e);
    (r.(addressReader := reader, addressTrace := r.addressTrace + [e]), signal)
  }

  function RequestDevices(r: Repo, outcome: R.SendOutcome): Repo {
    Noted(DeviceStep(r, R.Trigger(outcome)).0, DeviceDump(outcome.Issued?))
  }

  function RequestAddresses(r: Repo, outcome: R.SendOutcome): Repo {
    Noted(AddressStep(r, R.Trigger(outcome)).0, AddressDump(outcome.Issued?))
  }

  function TickDeviceReader(r: Repo, d: nat): Repo {
    var (s, signal) := DeviceStep(r, R.Tick(d));
    if signal.Failed? then Expedited(s, DeviceError) else s
  }

  function TickAddressReader(r: Repo, d: nat): Repo {
    var (s, signal) := AddressStep(r, R.Tick(d));
    if signal.Failed? then Expedited(s, AddressError) else s
  }

  function TickTimer(r: Repo, d: nat, outcome: R.SendOutcome): Repo {
    var s := Noted(r, Elapsed(d));
    if r.syncTimeout > d then s.(syncTimeout := r.syncTimeout - d)
    else RequestDevices(s, outcome).(syncTimeout := SYNC_TIMEOUT)
  }

  function TickState(r: Repo, d: nat, outcome: R.SendOutcome): Repo {
    TickTimer(TickAddressReader(TickDeviceReader(r, d), d), d, outcome)
  }

  function SequenceOf(v: N.View): Uint32 {
    v.header.sequence
  }

  function DeviceReply(v: N.View): R.Reply {
    R.Reply(SequenceOf(v), match v case LinkView(_, _, _) => R.Item case DoneView(_, _) => R.Done
                                   case ErrorView(_) => R.Error case _ => R.Other)
  }

  function AddressReply(v: N.View): R.Reply {
    R.Reply(SequenceOf(v), match v case AddrView(_, _, _) => R.Item case DoneView(_, _) => R.Done
                                   case ErrorView(_) => R.Error case _ => R.Other)
  }

  /** What a device packet does apart from the table: the end of a device dump starts an address dump. */
  function DeviceControl(r: Repo, reply: R.Reply, outcome: R.SendOutcome): (Repo, R.Signal) {
    var (s, signal) := DeviceStep(r, R.Receive(reply));
    (match signal
     case Completed(_) => RequestAddresses(Noted(s, DeviceDone), outcome)
     case Failed(_) => Expedited(s, DeviceError)
     case _ => s,
     signal)
  }

  function DevicePacketState(r: Repo, v: N.View, outcome: R.SendOutcome): Repo {
    var (s, signal) := DeviceControl(r, DeviceReply(v), outcome);
    if signal.HandedOver? && v.LinkView? then s.(devices := AfterLink(r.devices, v)) else s
  }

  /** What an address packet does apart from the table: the end of an address dump synchronises. */
  function AddressControl(r: Repo, reply: R.Reply): (Repo, R.Signal) {
    var (s, signal) := AddressStep(r, R.Receive(reply));
    (match signal
     case Completed(_) => Noted(s, Synced(r.devices))
     case Failed(_) => Expedited(s, AddressError)
     case _ => s,
     signal)
  }

  function AddressPacketState(r: Repo, v: N.View): Repo {
    var (s, signal) := AddressControl(r, AddressReply(v));
    if signal.HandedOver? && v.AddrView? then s.(devices := AfterAddress(r.devices, v)) else s
  }

  function Step(r: Repo, e: Event): Repo {
    match e
    case Tick(d, outcome) => TickState(r, d, outcome)
    case Monitor => Expedited(r, Monitored)
    case DevicePacket(v, outcome) => DevicePacketState(r, v, outcome)
    case AddressPacket(v) => AddressPacketState(r, v)
  }

  function Run(r: Repo, es: seq<Event>): Repo
    decreases |es|
  {
    if es == [] then r else Run(Step(r, es[0]), es[1..])
  }

  // ---------- The readers ----------

  /** Each reader is in the state its own events lead to, so everything proved about runs of a reader
      holds of both of them. */
  predicate Traced(r: Repo) {
    r.deviceReader == R.Run(r.deviceTrace).0 && r.addressReader == R.Run(r.addressTrace).0
  }

  lemma TraceAppend(es: seq<R.Event>, e: R.Event)
    ensures R.Run(es + [e]).0 == R.Step(R.Run(es).0, e).0
  {
    assert (es + [e])[..|es|] == es;
  }

  lemma DeviceStepTraced(r: Repo, e: R.Event)
    requires Traced(r)
    ensures Traced(DeviceStep(r, e).0)
  {
    TraceAppend(r.deviceTrace, e);
  }

  lemma AddressStepTraced(r: Repo, e: R.Event)
    requires Traced(r)
    ensures Traced(AddressStep(r, e).0)
  {
    TraceAppend(r.addressTrace, e);
  }

  lemma TimerTraced(r: Repo, d: nat, outcome: R.SendOutcome)
    requires Traced(r)
    ensures Traced(TickTimer(r, d, outcome))
  {
    DeviceStepTraced(Noted(r, Elapsed(d)), R.Trigger(outcome));
  }

  lemma DeviceControlTraced(r: Repo, reply: R.Reply, outcome: R.SendOutcome)
    requires Traced(r)
    ensures Traced(DeviceControl(r, reply, outcome).0)
  {
    DeviceStepTraced(r, R.Receive(reply));
    var s := DeviceStep(r, R.Receive(reply)).0;
    AddressStepTraced(Noted(s, DeviceDone), R.Trigger(outcome));
  }

  lemma StepTraced(r: Repo, e: Event)
    requires Traced(r)
    ensures Traced(Step(r, e))
  {
    match e
    case Tick(d, outcome) =>
      DeviceStepTraced(r, R.Tick(d));
      var s := TickDeviceReader(r, d);
      AddressStepTraced(s, R.Tick(d));
      TimerTraced(TickAddressReader(s, d), d, outcome);
    case Monitor =>
    case DevicePacket(v, outcome) => DeviceControlTraced(r, DeviceReply(v), outcome);
    case AddressPacket(v) => AddressStepTraced(r, R.Receive(AddressReply(v)));
  }

  // ---------- The order of dumps and synchronisations ----------

  datatype Totals = Totals(syncs: nat, addressIssued: nat, deviceDone: nat, deviceIssued: nat)

  function TotalsOf(notes: seq<Note>): Totals {
    if notes == [] then Totals(0, 0, 0, 0) else
      var t := TotalsOf(notes[..|notes| - 1]);
      match notes[|notes| - 1]
      case Synced(_) => t.(syncs := t.syncs + 1)
      case AddressDump(issued) => if issued then t.(addressIssued := t.addressIssued + 1) else t
      case DeviceDone => t.(deviceDone := t.deviceDone + 1)
      case DeviceDump(issued) => if issued then t.(deviceIssued := t.deviceIssued + 1) else t
      case _ => t
  }

  /** A device dump has completed since the last synchronisation. */
  predicate DoneSinceSync(notes: seq<Note>) {
    notes != [] &&
    match notes[|notes| - 1]
    case DeviceDone => true
    case Synced(_) => false
    case _ => DoneSinceSync(notes[..|notes| - 1])
  }

  predicate SyncsAfterDone(notes: seq<Note>) {
    forall i :: 0 <= i < |notes| && notes[i].Synced? ==> DoneSinceSync(notes[..i])
  }

  function OpenCount(r: R.Reader): nat {
    if r.request.Some? then 1 else 0
  }

  predicate OrderedBy(notes: seq<Note>, devices: R.Reader, addresses: R.Reader) {
    var t := TotalsOf(notes);
    && t.syncs + OpenCount(addresses) <= t.addressIssued <= t.deviceDone
    && t.deviceDone + OpenCount(devices) <= t.deviceIssued
    && (addresses.request.Some? ==> DoneSinceSync(notes))
    && SyncsAfterDone(notes)
  }

  predicate Ordered(r: Repo) {
    OrderedBy(r.notes, r.deviceReader, r.addressReader)
  }

  lemma NoteTotals(notes: seq<Note>, note: Note)
    requires SyncsAfterDone(notes) && (note.Synced? ==> DoneSinceSync(notes))
    ensures SyncsAfterDone(notes + [note])
    ensures DoneSinceSync(notes + [note]) <==> note.DeviceDone? || (!note.Synced? && DoneSinceSync(notes))
    ensures var t := TotalsOf(notes);
            TotalsOf(notes + [note]) == match note
              case Synced(_) => t.(syncs := t.syncs + 1)
              case AddressDump(issued) => if issued then t.(addressIssued := t.addressIssued + 1) else t
              case DeviceDone => t.(deviceDone := t.deviceDone + 1)
              case DeviceDump(issued) => if issued then t.(deviceIssued := t.deviceIssued + 1) else t
              case _ => t
  {
    var all := notes + [note];
    assert all[..|notes|] == notes;
    forall i | 0 <= i < |all| && all[i].Synced? ensures DoneSinceSync(all[..i]) {
      assert all[..i] == notes[..i];
      assert notes[..|notes|] == notes;
    }
  }

  /** A note that counts for nothing, while requests may only be closed. */
  lemma PlainOrdered(
    notes: seq<Note>, note: Note, d: R.Reader, a: R.Reader, d': R.Reader, a': R.Reader)
    requires OrderedBy(notes, d, a)
    requires !note.Synced? && !note.DeviceDone? && !note.DeviceDump? && !note.AddressDump?
    requires OpenCount(d') <= OpenCount(d) && OpenCount(a') <= OpenCount(a)
    ensures OrderedBy(notes + [note], d', a')
  {
    NoteTotals(notes, note);
  }

  lemma SyncedOrdered(notes: seq<Note>, snapshot: Devices, d: R.Reader, a: R.Reader, a': R.Reader)
    requires OrderedBy(notes, d, a) && a.request.Some? && a'.request.None?
    ensures OrderedBy(notes + [Synced(snapshot)], d, a')
  {
    NoteTotals(notes, Synced(snapshot));
  }

  /** The end of a device dump and the address dump tried after it. */
  lemma DoneOrdered(
    notes: seq<Note>, issued: bool, d: R.Reader, a: R.Reader, d': R.Reader, a': R.Reader)
    requires OrderedBy(notes, d, a) && d.request.Some? && d'.request.None?
    requires if issued then a'.request.Some? else a'.request == a.request
    ensures OrderedBy(notes + [DeviceDone] + [AddressDump(issued)], d', a')
  {
    NoteTotals(notes, DeviceDone);
    NoteTotals(notes + [DeviceDone], AddressDump(issued));
  }

  lemma DumpOrdered(notes: seq<Note>, issued: bool, d: R.Reader, a: R.Reader, d': R.Reader)
    requires OrderedBy(notes, d, a)
    requires if issued then d'.request.Some? else d'.request == d.request
    ensures OrderedBy(notes + [DeviceDump(issued)], d', a)
  {
    NoteTotals(notes, DeviceDump(issued));
  }

  lemma TimerOrdered(r: Repo, d: nat, outcome: R.SendOutcome)
    requires Ordered(r)
    ensures Ordered(TickTimer(r, d, outcome))
  {
    PlainOrdered(r.notes, Elapsed(d), r.deviceReader, r.addressReader, r.deviceReader, r.addressReader);
    DumpOrdered(r.notes + [Elapsed(d)], outcome.Issued?, r.deviceReader, r.addressReader,
                R.Step(r.deviceReader, R.Trigger(outcome)).0);
  }

  lemma DeviceControlOrdered(r: Repo, reply: R.Reply, outcome: R.SendOutcome)
    requires Ordered(r)
    ensures Ordered(DeviceControl(r, reply, outcome).0)
  {
    var (d, signal) := R.Step(r.deviceReader, R.Receive(reply));
    match signal
    case Completed(_) =>
      DoneOrdered(r.notes, outcome.Issued?, r.deviceReader, r.addressReader, d,
                  R.Step(r.addressReader, R.Trigger(outcome)).0);
    case Failed(_) => PlainOrdered(r.notes, DeviceError, r.deviceReader, r.addressReader, d, r.addressReader);
    case _ =>
  }

  lemma AddressControlOrdered(r: Repo, reply: R.Reply)
    requires Ordered(r)
    ensures Ordered(AddressControl(r, reply).0)
  {
    var (a, signal) := R.Step(r.addressReader, R.Receive(reply));
    match signal
    case Completed(_) => SyncedOrdered(r.notes, r.devices, r.deviceReader, r.addressReader, a);
    case Failed(_) => PlainOrdered(r.notes, AddressError, r.deviceReader, r.addressReader, r.deviceReader, a);
    case _ =>
  }

  lemma StepOrdered(r: Repo, e: Event)
    requires Ordered(r)
    ensures Ordered(Step(r, e))
  {
    match e
    case Tick(d, outcome) =>
      var s := TickDeviceReader(r, d);
      PlainOrdered(r.notes, DeviceError, r.deviceReader, r.addressReader, s.deviceReader, s.addressReader);
      var u := TickAddressReader(s, d);
      PlainOrdered(s.notes, AddressError, s.deviceReader, s.addressReader, u.deviceReader, u.addressReader);
      TimerOrdered(TickAddressReader(s, d), d, outcome);
    case Monitor => PlainOrdered(r.notes, Monitored, r.deviceReader, r.addressReader, r.deviceReader, r.addressReader);
    case DevicePacket(v, outcome) => DeviceControlOrdered(r, DeviceReply(v), outcome);
    case AddressPacket(v) => AddressControlOrdered(r, AddressReply(v));
  }

  // ---------- The timer ----------

  /** The seconds allowed since the timer was last set. */
  function Budget(notes: seq<Note>): int {
    if notes == [] then -1 else
      match notes[|notes| - 1]
      case DeviceDump(_) => SYNC_TIMEOUT
      case Monitored => EXPEDITE_TIMEOUT
      case DeviceError => EXPEDITE_TIMEOUT
      case AddressError => EXPEDITE_TIMEOUT
      case _ => Budget(notes[..|notes| - 1])
  }

  /** The seconds that have passed since then. */
  function Spent(notes: seq<Note>): nat {
    if notes == [] then 0 else
      match notes[|notes| - 1]
      case DeviceDump(_) => 0
      case Monitored => 0
      case DeviceError => 0
      case AddressError => 0
      case Elapsed(d) => Spent(notes[..|notes| - 1]) + d
      case _ => Spent(notes[..|notes| - 1])
  }

  /** Time has just passed and used up what was allowed. */
  predicate Due(notes: seq<Note>) {
    notes != [] && notes[|notes| - 1].Elapsed? && Spent(notes) >= Budget(notes)
  }

  /** A device dump is attempted at every point where one is due, and at no other. */
  predicate Scheduled(notes: seq<Note>) {
    forall i :: 0 <= i < |notes| ==> (notes[i].DeviceDump? <==> Due(notes[..i]))
  }

  predicate Ticked(notes: seq<Note>) {
    exists i :: 0 <= i < |notes| && notes[i].Elapsed?
  }

  predicate TimedBy(notes: seq<Note>, timeout: int) {
    && Scheduled(notes)
    && !Due(notes)
    && timeout == Budget(notes) - Spent(notes)
    && (1 <= timeout <= SYNC_TIMEOUT || (timeout == -1 && !Ticked(notes)))
  }

  predicate Timed(r: Repo) {
    TimedBy(r.notes, r.syncTimeout)
  }

  lemma NoteTimed(notes: seq<Note>, note: Note)
    requires Scheduled(notes) && (note.DeviceDump? <==> Due(notes))
    ensures Scheduled(notes + [note])
    ensures Budget(notes + [note]) == match note
              case DeviceDump(_) => SYNC_TIMEOUT
              case Monitored => EXPEDITE_TIMEOUT
              case DeviceError => EXPEDITE_TIMEOUT
              case AddressError => EXPEDITE_TIMEOUT
              case _ => Budget(notes)
    ensures Spent(notes + [note]) == match note
              case DeviceDump(_) => 0
              case Monitored => 0
              case DeviceError => 0
              case AddressError => 0
              case Elapsed(d) => Spent(notes) + d
              case _ => Spent(notes)
    ensures Due(notes + [note]) <==> note.Elapsed? && Spent(notes + [note]) >= Budget(notes + [note])
    ensures !note.Elapsed? && !Ticked(notes) ==> !Ticked(notes + [note])
  {
    var all := notes + [note];
    assert all[..|notes|] == notes;
    forall i | 0 <= i < |all| ensures all[i].DeviceDump? <==> Due(all[..i]) {
      assert all[..i] == notes[..i];
      assert notes[..|notes|] == notes;
    }
  }

  predicate Resets(note: Note) {
    note.Monitored? || note.DeviceError? || note.AddressError?
  }

  lemma ResetTimed(notes: seq<Note>, timeout: int, note: Note)
    requires TimedBy(notes, timeout) && Resets(note)
    ensures TimedBy(notes + [note], EXPEDITE_TIMEOUT)
  {
    NoteTimed(notes, note);
  }

  lemma OtherTimed(notes: seq<Note>, timeout: int, note: Note)
    requires TimedBy(notes, timeout) && !Resets(note) && !note.Elapsed? && !note.DeviceDump?
    ensures TimedBy(notes + [note], timeout)
  {
    NoteTimed(notes, note);
  }

  lemma TimerTimed(r: Repo, d: nat, outcome: R.SendOutcome)
    requires Timed(r)
    ensures Timed(TickTimer(r, d, outcome))
  {
    NoteTimed(r.notes, Elapsed(d));
    if r.syncTimeout <= d {
      NoteTimed(r.notes + [Elapsed(d)], DeviceDump(outcome.Issued?));
    }
  }

  lemma DeviceControlTimed(r: Repo, reply: R.Reply, outcome: R.SendOutcome)
    requires Timed(r)
    ensures Timed(DeviceControl(r, reply, outcome).0)
  {
    match DeviceStep(r, R.Receive(reply)).1
    case Completed(_) =>
      OtherTimed(r.notes, r.syncTimeout, DeviceDone);
      OtherTimed(r.notes + [DeviceDone], r.syncTimeout, AddressDump(outcome.Issued?));
    case Failed(_) => ResetTimed(r.notes, r.syncTimeout, DeviceError);
    case _ =>
  }

  lemma AddressControlTimed(r: Repo, reply: R.Reply)
    requires Timed(r)
    ensures Timed(AddressControl(r, reply).0)
  {
    ResetTimed(r.notes, r.syncTimeout, AddressError);
    OtherTimed(r.notes, r.syncTimeout, Synced(r.devices));
  }

  lemma StepTimed(r: Repo, e: Event)
    requires Timed(r)
    ensures Timed(Step(r, e))
  {
    match e
    case Tick(d, outcome) =>
      ResetTimed(r.notes, r.syncTimeout, DeviceError);
      var s := TickDeviceReader(r, d);
      ResetTimed(s.notes, s.syncTimeout, AddressError);
      TimerTimed(TickAddressReader(s, d), d, outcome);
    case Monitor => ResetTimed(r.notes, r.syncTimeout, Monitored);
    case DevicePacket(v, outcome) => DeviceControlTimed(r, DeviceReply(v), outcome);
    case AddressPacket(v) => AddressControlTimed(r, AddressReply(v));
  }

  // ---------- Whole runs ----------

  predicate Invariant(r: Repo) {
    Traced(r) && Ordered(r) && Timed(r)
  }

  lemma {:induction false} RunKeeps(r: Repo, es: seq<Event>)
    requires Invariant(r)
    ensures Invariant(Run(r, es))
    decreases |es|
  {
    if es != [] {
      StepTraced(r, es[0]);
      StepOrdered(r, es[0]);
      StepTimed(r, es[0]);
      RunKeeps(Step(r, es[0]), es[1..]);
    }
  }

  lemma Reachable(es: seq<Event>)
    ensures Invariant(Run(NEW_REPO, es))
  {
    RunKeeps(NEW_REPO, es);
  }

  /** The device dump that completed since the last synchronisation. */
  lemma {:induction false} FindDone(notes: seq<Note>) returns (k: nat)
    requires DoneSinceSync(notes)
    ensures k < |notes| && notes[k].DeviceDone?
    ensures forall m :: k < m < |notes| ==> !notes[m].Synced?
  {
    k := |notes| - 1;
    if !notes[k].DeviceDone? {
      var front := notes[..k];
      k := FindDone(front);
      forall m | k < m < |notes| ensures !notes[m].Synced? {
        if m < |notes| - 1 {
          assert front[m] == notes[m];
        }
      }
    }
  }

  /** In every run synchronisations never outnumber the address dumps issued, nor those the device dumps
      completed, nor those the device dumps issued. */
  lemma SyncTotals(es: seq<Event>)
    ensures var t := TotalsOf(Run(NEW_REPO, es).notes);
            t.syncs <= t.addressIssued <= t.deviceDone <= t.deviceIssued
  {
    Reachable(es);
  }

  /** Before every synchronisation, the first one included, a device dump completes, with no other
      synchronisation in between. */
  lemma DumpBeforeSync(es: seq<Event>, j: nat) returns (k: nat)
    requires j < |Run(NEW_REPO, es).notes| && Run(NEW_REPO, es).notes[j].Synced?
    ensures k < j && Run(NEW_REPO, es).notes[k].DeviceDone?
    ensures forall m :: k < m < j ==> !Run(NEW_REPO, es).notes[m].Synced?
  {
    Reachable(es);
    var notes := Run(NEW_REPO, es).notes;
    var before := notes[..j];
    k := FindDone(before);
    assert before[k] == notes[k];
    forall m | k < m < j ensures !notes[m].Synced? {
      assert before[m] == notes[m];
    }
  }

  /** So between any two synchronisations at least one device dump completes. */
  lemma SyncOrdering(es: seq<Event>, i: nat, j: nat)
    requires i < j < |Run(NEW_REPO, es).notes|
    requires Run(NEW_REPO, es).notes[i].Synced? && Run(NEW_REPO, es).notes[j].Synced?
    ensures exists k :: i < k < j && Run(NEW_REPO, es).notes[k].DeviceDone?
  {
    var k := DumpBeforeSync(es, j);
    assert k != i;
    assert i < k < j;
  }

  /** Timers. A device dump is attempted exactly when a tick brings the seconds since the timer was
      set to what was allowed: two after a monitor packet or a reader error, 120 after the last
      attempt, none before the first tick; from then on the timer stays between 1 and 120. */
  lemma ResyncTimer(es: seq<Event>, i: nat)
    requires i < |Run(NEW_REPO, es).notes|
    ensures var notes := Run(NEW_REPO, es).notes; notes[i].DeviceDump? <==> Due(notes[..i])
    ensures !Due(Run(NEW_REPO, es).notes)
    ensures Ticked(Run(NEW_REPO, es).notes) ==> 1 <= Run(NEW_REPO, es).syncTimeout <= SYNC_TIMEOUT
  {
    Reachable(es);
  }

  /** Both readers of a repository conserve their requests. */
  lemma ReadersConserve(es: seq<Event>)
    ensures var r := Run(NEW_REPO, es);
            var t, u := R.TallyOf(R.Run(r.deviceTrace).1), R.TallyOf(R.Run(r.addressTrace).1);
            && t.requested == t.completed + t.failed + t.superseded + OpenCount(r.deviceReader)
            && u.requested == u.completed + u.failed + u.superseded + OpenCount(r.addressReader)
  {
    Reachable(es);
    R.Conservation(Run(NEW_REPO, es).deviceTrace);
    R.Conservation(Run(NEW_REPO, es).addressTrace);
  }
}
