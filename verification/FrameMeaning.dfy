/** From a local device to the neighbour entry a receiver stores: the frame the sender builds, its
    bytes, and what those bytes mean on the other side. */
module FrameMeaning {
  import opened Common
  import P = LldpPacket
  import M = LldpMonitor
  import T = NeighbourTable

  const MULTICAST_ADDRESS: Mac := [0x01, 0x80, 0xC2, 0x00, 0x00, 0x00]
  const ETHERNET_HEADER_SIZE := 14
  const PORT_SUBTYPE_MAC: Byte := 3
  const CHASSIS_SUBTYPE_LOCAL: Byte := 7
  const INTERFACE_SUBTYPE_IFINDEX: Byte := 2

  /** The longest machine id whose chassis TLV still fits. */
  const MAX_MACHINE_ID := 510

  // ---------- Construction ----------

  /** Length and subtype, the address, the interface numbering, and an empty object identifier. */
  function ManagementValue(subtype: Byte, address: Bytes, ifIndex: Uint32): Bytes
    requires |address| <= 16
  {
    [1 + |address|, subtype] + address + [INTERFACE_SUBTYPE_IFINDEX] + BigEndian32(ifIndex) + [0]
  }

  function ManagementTlv(subtype: Byte, address: Bytes, ifIndex: Uint32): P.Tlv
    requires |address| <= 16
  {
    P.Tlv(P.MANAGEMENT_ADDRESS, ManagementValue(subtype, address, ifIndex))
  }

  function Ipv4Tlvs(d: DeviceData): seq<P.Tlv> {
    if d.ipv4.Some? then [ManagementTlv(M.SUBTYPE_IPV4, d.ipv4.value, d.ifIndex)] else []
  }

  function Ipv6Tlvs(d: DeviceData): seq<P.Tlv> {
    if d.ipv6.Some? then [ManagementTlv(M.SUBTYPE_IPV6, d.ipv6.value, d.ifIndex)] else []
  }

  function OptionalTlvs(d: DeviceData): seq<P.Tlv> {
    if d.ipv4.None? && d.ipv6.None? && d.mac.Some? then
      [ManagementTlv(M.SUBTYPE_MAC, d.mac.value, d.ifIndex)]
    else
      Ipv4Tlvs(d) + Ipv6Tlvs(d)
  }

  function FrameUnit(ttl: Uint16, d: DeviceData, machineId: Bytes): P.DataUnit
    requires d.mac.Some?
  {
    P.DataUnit(
      P.Tlv(P.CHASSIS_ID, [CHASSIS_SUBTYPE_LOCAL] + machineId),
      P.Tlv(P.PORT_ID, [PORT_SUBTYPE_MAC] + d.mac.value),
      P.Tlv(P.TIME_TO_LIVE, BigEndian16(ttl)),
      OptionalTlvs(d))
  }

  function EthernetHeader(source: Mac): (r: Bytes)
    ensures |r| == ETHERNET_HEADER_SIZE
  {
    MULTICAST_ADDRESS + source + BigEndian16(M.ETH_P_LLDP)
  }

  /** The bytes handed to the socket. */
  function Frame(ttl: Uint16, d: DeviceData, machineId: Bytes): (r: Bytes)
    requires d.mac.Some?
    ensures |r| >= ETHERNET_HEADER_SIZE
  {
    EthernetHeader(d.mac.value) + P.Print(FrameUnit(ttl, d, machineId))
  }

  /** A frame is addressed to the LLDP multicast address, from the device, as an LLDP packet. */
  lemma FrameAddressed(ttl: Uint16, d: DeviceData, machineId: Bytes)
    requires d.mac.Some?
    ensures var f := Frame(ttl, d, machineId);
            && f[..6] == [0x01, 0x80, 0xC2, 0x00, 0x00, 0x00]
            && f[6..12] == d.mac.value
            && f[12] == 0x88 && f[13] == 0xCC
            && f[14..] == P.Print(FrameUnit(ttl, d, machineId))
  {
  }

  /** What a datagram socket on the other end of the link delivers: the frame without its Ethernet
      header, with whatever padding the link appended. */
  function Payload(ttl: Uint16, d: DeviceData, machineId: Bytes, padding: Bytes): Bytes
    requires d.mac.Some?
  {
    Frame(ttl, d, machineId)[ETHERNET_HEADER_SIZE..] + padding
  }

  // ---------- Meaning ----------

  lemma ManagementMeaning(subtype: Byte, address: Bytes, ifIndex: Uint32)
    requires |address| <= 16
    ensures M.ManagementString(ManagementValue(subtype, address, ifIndex))
         == if subtype == M.SUBTYPE_IPV4 && |address| == 4 then Some(M.V4(address))
            else if subtype == M.SUBTYPE_IPV6 && |address| == 16 then Some(M.V6(address))
            else if subtype == M.SUBTYPE_MAC && |address| == 6 then Some(M.Link(address))
            else None
    ensures |ManagementValue(subtype, address, ifIndex)| == |address| + 8
  {
    var value := ManagementValue(subtype, address, ifIndex);
    assert value[0] == 1 + |address| && value[1] == subtype;
    assert value[2..2 + |address|] == address;
  }

  /** What follows the address in a management value: the interface numbering is the index of the interface,
      most significant byte first, and there is no object identifier. */
  lemma ManagementInterface(subtype: Byte, address: Bytes, ifIndex: Uint32)
    requires |address| <= 16
    ensures var value, n := ManagementValue(subtype, address, ifIndex), 2 + |address|;
            && |value| == n + 6
            && value[0] == 1 + |address| && value[1] == subtype && value[2..n] == address
            && value[n] == 2
            && FromBigEndian32(value[n + 1], value[n + 2], value[n + 3], value[n + 4]) == ifIndex
            && value[n + 5] == 0
  {
    assert ManagementValue(subtype, address, ifIndex)[2..2 + |address|] == address;
  }

  predicate Announces(ts: seq<P.Tlv>, m: M.Management) {
    exists i :: 0 <= i < |ts| && M.ManagementOf(ts[i]) == Some(m)
  }

  lemma AnnouncesOne(t: P.Tlv, m: M.Management)
    ensures Announces([t], m) <==> M.ManagementOf(t) == Some(m)
  {
    if M.ManagementOf(t) == Some(m) {
      assert [t][0] == t;
    }
  }

  lemma AnnouncesEither(a: seq<P.Tlv>, b: seq<P.Tlv>, m: M.Management)
    ensures Announces(a + b, m) <==> Announces(a, m) || Announces(b, m)
  {
    if i :| 0 <= i < |a| && M.ManagementOf(a[i]) == Some(m) {
      assert (a + b)[i] == a[i];
    }
    if i :| 0 <= i < |b| && M.ManagementOf(b[i]) == Some(m) {
      assert (a + b)[|a| + i] == b[i];
    }
  }

  /** The management addresses of a frame are the device's IP addresses, or its MAC address if it has none. */
  lemma AnnouncedAddresses(d: DeviceData, m: M.Management)
    ensures Announces(OptionalTlvs(d), m) <==>
            match m
            case V4(a) => d.ipv4.Some? && d.ipv4.value == a
            case V6(a) => d.ipv6.Some? && d.ipv6.value == a
            case Link(a) => d.mac.Some? && d.mac.value == a && d.ipv4.None? && d.ipv6.None?
  {
    if d.ipv4.None? && d.ipv6.None? && d.mac.Some? {
      ManagementMeaning(M.SUBTYPE_MAC, d.mac.value, d.ifIndex);
      AnnouncesOne(ManagementTlv(M.SUBTYPE_MAC, d.mac.value, d.ifIndex), m);
    } else {
      AnnouncesEither(Ipv4Tlvs(d), Ipv6Tlvs(d), m);
      if d.ipv4.Some? {
        ManagementMeaning(M.SUBTYPE_IPV4, d.ipv4.value, d.ifIndex);
        AnnouncesOne(ManagementTlv(M.SUBTYPE_IPV4, d.ipv4.value, d.ifIndex), m);
      }
      if d.ipv6.Some? {
        ManagementMeaning(M.SUBTYPE_IPV6, d.ipv6.value, d.ifIndex);
        AnnouncesOne(ManagementTlv(M.SUBTYPE_IPV6, d.ipv6.value, d.ifIndex), m);
      }
    }
  }

  /** The addresses read back are the device's, present or absent. */
  lemma OptionalMeaning(d: DeviceData)
    ensures M.LastIpv4(OptionalTlvs(d)) == d.ipv4
    ensures M.LastIpv6(OptionalTlvs(d)) == d.ipv6
    ensures forall t <- OptionalTlvs(d) :: P.FitsTlv(t) && t.kind != P.END_OF_LLDPDU
  {
    if d.ipv4.Some? {
      ManagementMeaning(M.SUBTYPE_IPV4, d.ipv4.value, d.ifIndex);
    }
    if d.ipv6.Some? {
      ManagementMeaning(M.SUBTYPE_IPV6, d.ipv6.value, d.ifIndex);
    }
    if d.mac.Some? {
      ManagementMeaning(M.SUBTYPE_MAC, d.mac.value, d.ifIndex);
    }
    var ts := OptionalTlvs(d);
    if |ts| == 2 {
      assert ts[..1] == Ipv4Tlvs(d);
      assert ts[..1][..0] == [];
    } else if |ts| == 1 {
      assert ts[..0] == [];
    }
  }

  function Meaning(ttl: Uint16, d: DeviceData, machineId: Bytes, ifIndex: Uint16): T.Entry
    requires d.mac.Some?
  {
    T.Entry(
      [CHASSIS_SUBTYPE_LOCAL] + machineId,
      [PORT_SUBTYPE_MAC] + d.mac.value,
      ifIndex,
      ttl,
      d.ipv4,
      d.ipv6)
  }

  lemma UnitMeaning(ttl: Uint16, d: DeviceData, machineId: Bytes, ifIndex: Uint16)
    requires d.mac.Some?
    ensures P.FitsUnit(FrameUnit(ttl, d, machineId)) <==> |machineId| <= MAX_MACHINE_ID
    ensures |FrameUnit(ttl, d, machineId).timeToLive.value| == 2
    ensures M.ToEntry(FrameUnit(ttl, d, machineId), ifIndex) == Meaning(ttl, d, machineId, ifIndex)
  {
    OptionalMeaning(d);
  }

  /** End to end: a frame built, printed, stripped of its header, padded arbitrarily, parsed and
      interpreted says exactly what the sender knew about its device, if and only if the machine id
      fits its TLV. */
  lemma EndToEnd(ttl: Uint16, d: DeviceData, machineId: Bytes, padding: Bytes, a: M.Address)
    requires d.mac.Some? && M.FromEthernet(a)
    ensures var payload := Payload(ttl, d, machineId, padding);
            (&& M.TtlReadable(payload)
             && M.Interpret(a, payload) == Some(Meaning(ttl, d, machineId, a.ifIndex % 0x1_0000)))
            <==> |machineId| <= MAX_MACHINE_ID
  {
    var u := FrameUnit(ttl, d, machineId);
    var payload := Payload(ttl, d, machineId, padding);
    assert payload == P.Print(u) + padding;
    UnitMeaning(ttl, d, machineId, a.ifIndex % 0x1_0000);
    P.ParseAfterPrint(u, padding);
    P.ParsedUnitFits(payload);
  }

  // ---------- The methods ----------

  /** `createLldpduOptionalTlvs`. */
  method CreateOptionalTlvs(d: DeviceData) returns (tlvs: seq<P.Tlv>)
    ensures tlvs == OptionalTlvs(d)
  {
    tlvs := [];
    if d.ipv4.Some? {
      tlvs := tlvs + [ManagementTlv(M.SUBTYPE_IPV4, d.ipv4.value, d.ifIndex)];
    }
    if d.ipv6.Some? {
      tlvs := tlvs + [ManagementTlv(M.SUBTYPE_IPV6, d.ipv6.value, d.ifIndex)];
    }
    if d.ipv4.None? && d.ipv6.None? && d.mac.Some? {
      tlvs := tlvs + [ManagementTlv(M.SUBTYPE_MAC, d.mac.value, d.ifIndex)];
    }
  }

  /** `constructFrame`: the data unit of a frame. */
  method ConstructUnit(ttl: Uint16, d: DeviceData, machineId: Bytes) returns (unit: P.DataUnit)
    requires d.mac.Some?
    ensures unit == FrameUnit(ttl, d, machineId)
  {
    var tlvs := CreateOptionalTlvs(d);
    unit := P.DataUnit(
      P.Tlv(P.CHASSIS_ID, [CHASSIS_SUBTYPE_LOCAL] + machineId),
      P.Tlv(P.PORT_ID, [PORT_SUBTYPE_MAC] + d.mac.value),
      P.Tlv(P.TIME_TO_LIVE, BigEndian16(ttl)),
      tlvs);
  }

  /** The buffer part of `sendFrame`: the frame fills its buffer exactly, so the warning about an
      incomplete write is never given. */
  method FillBuffer(source: Mac, unit: P.DataUnit) returns (buffer: array<Byte>, complete: bool)
    ensures fresh(buffer)
    ensures buffer[..] == EthernetHeader(source) + P.Print(unit)
    ensures complete
  {
    var size := P.UnitBufferSize(unit);
    buffer := new Byte[ETHERNET_HEADER_SIZE + size];
    ghost var blank := buffer[..];
    var iter := P.CopyTo(buffer, 0, EthernetHeader(source));
    iter := P.UnitToBuffer(unit, buffer, iter);
    P.WrittenTwice(blank, 0, EthernetHeader(source), P.Print(unit));
    complete := iter == buffer.Length;
  }

  /** Both together. */
  method BuildFrame(ttl: Uint16, d: DeviceData, machineId: Bytes) returns (buffer: array<Byte>, complete: bool)
    requires d.mac.Some?
    ensures fresh(buffer)
    ensures buffer[..] == Frame(ttl, d, machineId)
    ensures complete
  {
    var unit := ConstructUnit(ttl, d, machineId);
    buffer, complete := FillBuffer(d.mac.value, unit);
  }
}
