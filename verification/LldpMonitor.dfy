/** The receiving side: what an LLDP frame says about a neighbour, and the neighbour list that
    stores it and is aged in place. */
module LldpMonitor {
  import opened Common
  import P = LldpPacket
  import T = NeighbourTable

  const AF_PACKET: Uint16 := 17
  const ETH_P_LLDP: Uint16 := 0x88CC
  const ARPHRD_ETHER: Uint16 := 1
  const ETH_ALEN: Byte := 6

  const SUBTYPE_IPV4: Byte := 1
  const SUBTYPE_IPV6: Byte := 2
  const SUBTYPE_MAC: Byte := 6

  /** The link-layer source address of a frame; the protocol is in host order. */
  datatype Address = Address(family: Uint16, protocol: Uint16, hardware: Uint16, size: Byte, ifIndex: int)

  predicate FromEthernet(a: Address) {
    a.family == AF_PACKET && a.protocol == ETH_P_LLDP && a.hardware == ARPHRD_ETHER && a.size == ETH_ALEN
  }

  // ---------- Interpretation ----------

  datatype Management = V4(ipv4: Ipv4) | V6(ipv6: Ipv6) | Link(mac: Mac)

  /** The management address in a TLV value: its length byte counts the subtype and the address. */
  function ManagementString(value: Bytes): Option<Management> {
    if value == [] || value[0] == 0 || |value| - 1 < value[0] then None
    else if value[1] == SUBTYPE_IPV4 && value[0] == 5 then Some(V4(value[2..6]))
    else if value[1] == SUBTYPE_IPV6 && value[0] == 17 then Some(V6(value[2..18]))
    else if value[1] == SUBTYPE_MAC && value[0] == 7 then Some(Link(value[2..8]))
    else None
  }

  function ManagementOf(t: P.Tlv): Option<Management> {
    if t.kind == P.MANAGEMENT_ADDRESS then ManagementString(t.value) else None
  }

  /** The IPv4 address of the last TLV that carries one. */
  function LastIpv4(ts: seq<P.Tlv>): Option<Ipv4> {
    if ts == [] then None else
      match ManagementOf(ts[|ts| - 1])
      case Some(V4(a)) => Some(a)
      case _ => LastIpv4(ts[..|ts| - 1])
  }

  function LastIpv6(ts: seq<P.Tlv>): Option<Ipv6> {
    if ts == [] then None else
      match ManagementOf(ts[|ts| - 1])
      case Some(V6(a)) => Some(a)
      case _ => LastIpv6(ts[..|ts| - 1])
  }

  /** What a management value must look like, byte for byte, to be read as an address of each kind; any other
      is not read. */
  lemma ManagementGrammar(value: Bytes, m: Management)
    ensures ManagementString(value) == Some(m) <==>
            match m
            case V4(a) => [5, 1] + a <= value
            case V6(a) => [17, 2] + a <= value
            case Link(a) => [7, 6] + a <= value
  {
    match m
    case V4(a) => PrefixParts(value, 5, 1, a);
    case V6(a) => PrefixParts(value, 17, 2, a);
    case Link(a) => PrefixParts(value, 7, 6, a);
  }

  /** Only TLVs of type 8 are looked at. */
  lemma ManagementType(t: P.Tlv, m: Management)
    ensures ManagementOf(t) == Some(m) <==> t.kind == 8 && ManagementString(t.value) == Some(m)
  {
  }

  lemma PrefixParts(value: Bytes, length: Byte, subtype: Byte, a: Bytes)
    requires length == 1 + |a|
    ensures [length, subtype] + a <= value <==>
            |value| >= 2 + |a| && value[0] == length && value[1] == subtype && value[2..2 + |a|] == a
  {
    if |value| >= 2 + |a| {
      assert value[..2 + |a|] == [value[0], value[1]] + value[2..2 + |a|];
    }
  }

  predicate Carries4(t: P.Tlv) {
    ManagementOf(t).Some? && ManagementOf(t).value.V4?
  }

  predicate Carries6(t: P.Tlv) {
    ManagementOf(t).Some? && ManagementOf(t).value.V6?
  }

  /** Of several addresses of a family the last one wins, and there is none only if no TLV carries one. */
  lemma {:induction false} LastWins4(ts: seq<P.Tlv>)
    ensures LastIpv4(ts).None? <==> forall t <- ts :: !Carries4(t)
    ensures forall k :: 0 <= k < |ts| && Carries4(ts[k]) && (forall j :: k < j < |ts| ==> !Carries4(ts[j])) ==>
              LastIpv4(ts) == Some(ManagementOf(ts[k]).value.ipv4)
  {
    if ts != [] {
      var front := ts[..|ts| - 1];
      var last := ts[|ts| - 1];
      LastWins4(front);
      assert LastIpv4(ts) == if Carries4(last) then Some(ManagementOf(last).value.ipv4) else LastIpv4(front);
      assert ts == front + [last];
      assert (forall t <- ts :: !Carries4(t)) <==> !Carries4(last) && forall t <- front :: !Carries4(t);
      assert forall k :: 0 <= k < |front| ==> front[k] == ts[k];
    }
  }

  lemma {:induction false} LastWins6(ts: seq<P.Tlv>)
    ensures LastIpv6(ts).None? <==> forall t <- ts :: !Carries6(t)
    ensures forall k :: 0 <= k < |ts| && Carries6(ts[k]) && (forall j :: k < j < |ts| ==> !Carries6(ts[j])) ==>
              LastIpv6(ts) == Some(ManagementOf(ts[k]).value.ipv6)
  {
    if ts != [] {
      var front := ts[..|ts| - 1];
      var last := ts[|ts| - 1];
      LastWins6(front);
      assert LastIpv6(ts) == if Carries6(last) then Some(ManagementOf(last).value.ipv6) else LastIpv6(front);
      assert ts == front + [last];
      assert (forall t <- ts :: !Carries6(t)) <==> !Carries6(last) && forall t <- front :: !Carries6(t);
      assert forall k :: 0 <= k < |front| ==> front[k] == ts[k];
    }
  }

  function ToEntry(u: P.DataUnit, ifIndex: Uint16): T.Entry
    requires |u.timeToLive.value| >= 2
  {
    T.Entry(
      u.chassisId.value,
      u.portId.value,
      ifIndex,
      FromBigEndian16(u.timeToLive.value[0], u.timeToLive.value[1]),
      LastIpv4(u.optional),
      LastIpv6(u.optional))
  }

  /** The parser does not check the length of the time-to-live TLV, but two of its bytes are read. */
  predicate TtlReadable(frame: Bytes) {
    match P.Parse(frame)
    case None => true
    case Some(u) => |u.timeToLive.value| >= 2
  }

  /** The entry an accepted frame stands for; the interface index keeps its low 16 bits. */
  function Interpret(a: Address, frame: Bytes): Option<T.Entry>
    requires TtlReadable(frame)
  {
    if !FromEthernet(a) then None else
      match P.Parse(frame)
      case None => None
      case Some(u) => Some(ToEntry(u, a.ifIndex % 0x1_0000))
  }

  /** A frame is accepted exactly if it came as an LLDP packet from an Ethernet device with a six-byte address
      and parses. */
  lemma AcceptedIff(a: Address, frame: Bytes)
    requires TtlReadable(frame)
    ensures Interpret(a, frame).Some? <==>
            a.family == 17 && a.protocol == 0x88CC && a.hardware == 1 && a.size == 6 && P.Parse(frame).Some?
    ensures Interpret(a, frame).Some? ==> Interpret(a, frame).value.interfaceIndex == a.ifIndex % 0x1_0000
  {
  }

  function Receive(t: T.Table, a: Address, frame: Bytes): T.Table
    requires TtlReadable(frame)
  {
    match Interpret(a, frame)
    case None => t
    case Some(e) => T.Insert(t, e)
  }

  /** `lldpduToNeighbourEntry`: a loop over the optional TLVs in which later addresses win. */
  method LldpduToNeighbourEntry(u: P.DataUnit, ifIndex: Uint16) returns (entry: T.Entry)
    requires |u.timeToLive.value| >= 2
    ensures entry == ToEntry(u, ifIndex)
  {
    var ttl := FromBigEndian16(u.timeToLive.value[0], u.timeToLive.value[1]);
    var ipv4: Option<Ipv4> := None;
    var ipv6: Option<Ipv6> := None;
    for i := 0 to |u.optional|
      invariant ipv4 == LastIpv4(u.optional[..i])
      invariant ipv6 == LastIpv6(u.optional[..i])
    {
      assert u.optional[..i + 1][..i] == u.optional[..i];
      var tlv := u.optional[i];
      if tlv.kind == P.MANAGEMENT_ADDRESS {
        match ManagementString(tlv.value)
        case Some(V4(a)) => ipv4 := Some(a);
        case Some(V6(a)) => ipv6 := Some(a);
        case _ =>
      }
    }
    assert u.optional[..|u.optional|] == u.optional;
    return T.Entry(u.chassisId.value, u.portId.value, ifIndex, ttl, ipv4, ipv6);
  }

  // ---------- Histories of frames ----------

  /** What happens to a receiver: frames arrive from addresses, and time passes. */
  datatype Occurrence = Frame(address: Address, bytes: Bytes) | Passed(seconds: nat)

  predicate Readable(o: Occurrence) {
    o.Frame? ==> TtlReadable(o.bytes)
  }

  /** The table the receiver has after a history. */
  function TableAfter(history: seq<Occurrence>): T.Table
    requires forall o <- history :: Readable(o)
  {
    if history == [] then map[] else
      assert Readable(history[|history| - 1]);
      var before := TableAfter(history[..|history| - 1]);
      match history[|history| - 1]
      case Frame(a, bytes) => Receive(before, a, bytes)
      case Passed(d) => T.Age(before, d)
  }

  /** The latest accepted frame that speaks of a chassis and port, and the ticks since; read off the
      addresses and bytes alone. */
  function LatestFrame(history: seq<Occurrence>, chassis: Bytes, port: Bytes): T.Latest
    requires forall o <- history :: Readable(o)
  {
    if history == [] then T.Never else
      assert Readable(history[|history| - 1]);
      var before := LatestFrame(history[..|history| - 1], chassis, port);
      match history[|history| - 1]
      case Passed(d) => T.Later(before, d)
      case Frame(a, bytes) =>
        match Interpret(a, bytes)
        case None => before
        case Some(e) => if e.chassis == chassis && e.port == port then T.At(e, 0, 0) else before
  }

  /** The accepted frames as the entries they stand for, and the ticks. */
  function Happenings(history: seq<Occurrence>): seq<T.Happening>
    requires forall o <- history :: Readable(o)
  {
    if history == [] then [] else
      assert Readable(history[|history| - 1]);
      var before := Happenings(history[..|history| - 1]);
      match history[|history| - 1]
      case Passed(d) => before + [T.Passed(d)]
      case Frame(a, bytes) =>
        match Interpret(a, bytes)
        case None => before
        case Some(e) => before + [T.Heard(e)]
  }

  lemma {:induction false} FramesAreHappenings(history: seq<Occurrence>, chassis: Bytes, port: Bytes)
    requires forall o <- history :: Readable(o)
    ensures TableAfter(history) == T.After(Happenings(history))
    ensures LatestFrame(history, chassis, port) == T.LatestOf(Happenings(history), chassis, port)
  {
    if history != [] {
      var front, last := history[..|history| - 1], history[|history| - 1];
      assert Readable(last);
      FramesAreHappenings(front, chassis, port);
      var before, all := Happenings(front), Happenings(history);
      assert all != before ==> all[..|all| - 1] == before;
    }
  }

  /** After any history of raw frames and ticks, the table is well formed, and an entry is present
      exactly if no tick followed the latest accepted frame with its identifiers, or the later ticks sum
      to less than the time to live of that frame, which is reduced by that sum. */
  lemma FrameHistory(history: seq<Occurrence>, chassis: Bytes, port: Bytes)
    requires forall o <- history :: Readable(o)
    ensures T.WellFormed(TableAfter(history))
    ensures T.Lookup(TableAfter(history), chassis, port) == T.Expected(LatestFrame(history, chassis, port))
  {
    FramesAreHappenings(history, chassis, port);
    T.HistoryWellFormed(Happenings(history));
    T.TableHistory(Happenings(history), chassis, port);
  }

  // ---------- The two phases of a tick ----------

  function DecrementPorts(ports: T.Ports, d: nat): T.Ports {
    map p | p in ports :: ports[p].(ttl := if ports[p].ttl > d then ports[p].ttl - d else 0)
  }

  function Decrement(t: T.Table, d: nat): T.Table {
    map c | c in t :: DecrementPorts(t[c], d)
  }

  /** Exactly the entries that time out are left with no time. */
  lemma DecrementedOut(t: T.Table, d: nat, c: Bytes, p: Bytes)
    requires c in t && p in t[c]
    ensures Decrement(t, d)[c][p].ttl == 0 <==> !T.Survives(t[c][p], d)
    ensures T.Survives(t[c][p], d) ==> Some(Decrement(t, d)[c][p]) == T.AgeEntry(Some(t[c][p]), d)
  {
  }

  type Key = (Bytes, Bytes)

  predicate TimesOut(ports: T.Ports, port: Bytes, d: nat) {
    port in ports && !T.Survives(ports[port], d)
  }

  function PortsWithout(ports: T.Ports, chassis: Bytes, gone: seq<Key>): T.Ports {
    map p | p in ports && (chassis, p) !in gone :: ports[p]
  }

  function Stripped(t: T.Table, gone: seq<Key>): T.Table {
    map c | c in t :: PortsWithout(t[c], c, gone)
  }

  function Without(t: T.Table, gone: seq<Key>): T.Table {
    T.DropEmpty(Stripped(t, gone))
  }

  predicate NoEmptyChassis(t: T.Table) {
    forall c <- t :: t[c] != map[]
  }

  lemma WithoutNothing(t: T.Table)
    requires NoEmptyChassis(t)
    ensures Without(t, []) == t
  {
    forall c | c in t ensures PortsWithout(t[c], c, []) == t[c] {
    }
  }

  /** `port` erased from `chassis`, and `chassis` with it when that leaves it empty. */
  function Erased(t: T.Table, chassis: Bytes, port: Bytes): T.Table {
    var ports := T.PortsOf(t, chassis) - {port};
    if ports == map[] then t - {chassis} else t[chassis := ports]
  }

  lemma PortsWithoutOneMore(ports: T.Ports, c: Bytes, gone: seq<Key>, chassis: Bytes, port: Bytes)
    ensures PortsWithout(ports, c, gone + [(chassis, port)])
         == if c == chassis then PortsWithout(ports, c, gone) - {port} else PortsWithout(ports, c, gone)
  {
  }

  lemma StrippedOneMore(t: T.Table, gone: seq<Key>, chassis: Bytes, port: Bytes)
    ensures var s := Stripped(t, gone);
            Stripped(t, gone + [(chassis, port)]) == if chassis in s then s[chassis := s[chassis] - {port}] else s
  {
    forall c | c in t
      ensures PortsWithout(t[c], c, gone + [(chassis, port)])
           == if c == chassis then PortsWithout(t[c], c, gone) - {port} else PortsWithout(t[c], c, gone)
    {
      PortsWithoutOneMore(t[c], c, gone, chassis, port);
    }
  }

  lemma ErasedFromStripped(s: T.Table, chassis: Bytes, port: Bytes)
    ensures Erased(T.DropEmpty(s), chassis, port)
         == T.DropEmpty(if chassis in s then s[chassis := s[chassis] - {port}] else s)
  {
    var none: T.Ports := map[];
    assert none - {port} == none;
  }

  lemma WithoutOneMore(t: T.Table, gone: seq<Key>, chassis: Bytes, port: Bytes)
    ensures Without(t, gone + [(chassis, port)]) == Erased(Without(t, gone), chassis, port)
  {
    StrippedOneMore(t, gone, chassis, port);
    ErasedFromStripped(Stripped(t, gone), chassis, port);
  }

  predicate IsExpired(t: T.Table, key: Key, d: nat) {
    key.0 in t && TimesOut(t[key.0], key.1, d)
  }

  lemma DecrementKeepsPorts(t: T.Table, d: nat)
    requires T.WellFormed(t)
    ensures NoEmptyChassis(Decrement(t, d))
  {
    forall c | c in t ensures DecrementPorts(t[c], d) != map[] {
      var p :| p in t[c];
      assert p in DecrementPorts(t[c], d);
    }
  }

  lemma PhasesAgePorts(t: T.Table, d: nat, gone: seq<Key>, c: Bytes)
    requires c in t && forall key: Key :: key in gone <==> IsExpired(t, key, d)
    ensures PortsWithout(DecrementPorts(t[c], d), c, gone) == T.AgePorts(t[c], d)
  {
    forall p | p in t[c] ensures (c, p) in gone <==> !T.Survives(t[c][p], d) {
      assert (c, p) in gone <==> IsExpired(t, (c, p), d);
    }
  }

  /** Decrementing everything and then erasing what timed out is the ageing filter. */
  lemma PhasesAge(t: T.Table, d: nat, gone: seq<Key>)
    requires forall key: Key :: key in gone <==> IsExpired(t, key, d)
    ensures Without(Decrement(t, d), gone) == T.Age(t, d)
  {
    forall c | c in t ensures PortsWithout(DecrementPorts(t[c], d), c, gone) == T.AgePorts(t[c], d) {
      PhasesAgePorts(t, d, gone, c);
    }
    assert Stripped(Decrement(t, d), gone) == map c | c in t :: T.AgePorts(t[c], d);
  }

  /** The ports not in `todo` are decremented, and those of them that timed out are collected. */
  ghost predicate Decrementing(
    chassis: Bytes, all: T.Ports, d: nat, todo: set<Bytes>, ports: T.Ports, expired: seq<Key>)
  {
    && ports.Keys == all.Keys
    && (forall p <- all :: ports[p] == if p in todo then all[p] else DecrementPorts(all, d)[p])
    && (forall key: Key :: key in expired <==> key.0 == chassis && key.1 !in todo && TimesOut(all, key.1, d))
  }

  lemma DecrementingNext(
    chassis: Bytes, all: T.Ports, d: nat, todo: set<Bytes>, ports: T.Ports, expired: seq<Key>, port: Bytes)
    requires Decrementing(chassis, all, d, todo, ports, expired) && port in todo && port in all
    ensures port in ports && ports[port] == all[port]
    ensures Decrementing(chassis, all, d, todo - {port}, ports[port := DecrementPorts(all, d)[port]],
                         if all[port].ttl > d then expired else expired + [(chassis, port)])
  {
  }

  // ---------- The list ----------

  /** `ndisc::NeighbourList`. */
  class NeighbourList {
    var chassisMap: T.Table

    ghost predicate Valid()
      reads this
    {
      T.WellFormed(chassisMap)
    }

    constructor ()
      ensures Valid() && chassisMap == map[]
    {
      chassisMap := map[];
    }

    /** `lldpFrameParser`. */
    method FrameParser(a: Address, frame: Bytes)
      requires Valid() && TtlReadable(frame)
      modifies this
      ensures Valid() && chassisMap == Receive(old(chassisMap), a, frame)
    {
      if a.family != AF_PACKET {
        return;
      }
      if a.protocol != ETH_P_LLDP {
        return;
      }
      if a.hardware != ARPHRD_ETHER {
        return;
      }
      if a.size != ETH_ALEN {
        return;
      }
      var unit := P.UnitFromSpan(frame);
      if unit.None? {
        return;
      }
      var entry := LldpduToNeighbourEntry(unit.value, a.ifIndex % 0x1_0000);
      T.InsertKeeps(chassisMap, entry);
      chassisMap := chassisMap[entry.chassis := T.PortsOf(chassisMap, entry.chassis)[entry.port := entry]];
    }

    /** Ages in two phases: every entry is decremented and the timed-out ones are collected, then
        those are erased one by one. Together this is the ageing filter, whatever the order of the
        iteration. */
    method Tick(d: Uint64)
      requires Valid()
      modifies this
      ensures Valid() && chassisMap == T.Age(old(chassisMap), d)
    {
      ghost var before := chassisMap;
      var timedOut := DecrementAll(d);
      DecrementKeepsPorts(before, d);
      EraseAll(timedOut);
      PhasesAge(before, d, timedOut);
      T.AgeKeeps(before, d);
    }

    method EraseAll(timedOut: seq<Key>)
      requires NoEmptyChassis(chassisMap)
      modifies this
      ensures chassisMap == Without(old(chassisMap), timedOut)
    {
      ghost var before := chassisMap;
      WithoutNothing(before);
      for i := 0 to |timedOut|
        invariant chassisMap == Without(before, timedOut[..i])
      {
        var (chassis, port) := timedOut[i];
        assert timedOut[..i + 1] == timedOut[..i] + [(chassis, port)];
        WithoutOneMore(before, timedOut[..i], chassis, port);
        Erase(chassis, port);
      }
      assert timedOut[..|timedOut|] == timedOut;
    }

    /** Looking a chassis up creates it when it is missing; an empty chassis is erased again. */
    method Erase(chassis: Bytes, port: Bytes)
      modifies this
      ensures chassisMap == Erased(old(chassisMap), chassis, port)
    {
      chassisMap := chassisMap[chassis := T.PortsOf(chassisMap, chassis) - {port}];
      if chassisMap[chassis] == map[] {
        chassisMap := chassisMap - {chassis};
      }
    }

    method DecrementAll(d: Uint64) returns (timedOut: seq<Key>)
      modifies this
      ensures chassisMap == Decrement(old(chassisMap), d)
      ensures forall key: Key :: key in timedOut <==> IsExpired(old(chassisMap), key, d)
    {
      ghost var before := chassisMap;
      timedOut := [];
      var todo := chassisMap.Keys;
      while todo != {}
        invariant todo <= before.Keys == chassisMap.Keys
        invariant forall c <- before :: chassisMap[c] == if c in todo then before[c] else Decrement(before, d)[c]
        invariant forall key: Key :: key in timedOut <==> key.0 !in todo && IsExpired(before, key, d)
        decreases |todo|
      {
        var chassis :| chassis in todo;
        var ports, expired := DecrementOne(chassis, chassisMap[chassis], d);
        chassisMap := chassisMap[chassis := ports];
        timedOut := timedOut + expired;
        todo := todo - {chassis};
      }
    }

    static method DecrementOne(chassis: Bytes, all: T.Ports, d: Uint64) returns (ports: T.Ports, expired: seq<Key>)
      ensures ports == DecrementPorts(all, d)
      ensures forall key: Key :: key in expired <==> key.0 == chassis && TimesOut(all, key.1, d)
    {
      ports, expired := all, [];
      var todo := all.Keys;
      while todo != {}
        invariant todo <= all.Keys
        invariant Decrementing(chassis, all, d, todo, ports, expired)
        decreases |todo|
      {
        var port :| port in todo;
        DecrementingNext(chassis, all, d, todo, ports, expired, port);
        var entry := ports[port];
        if entry.ttl > d {
          ports := ports[port := entry.(ttl := entry.ttl - d)];
        } else {
          ports := ports[port := entry.(ttl := 0)];
          expired := expired + [(chassis, port)];
        }
        todo := todo - {port};
      }
    }
  }
}
