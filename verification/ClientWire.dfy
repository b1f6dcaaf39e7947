/** The packets between the service and its clients: a four-byte head and 512 bytes holding one
    packed entry, in the byte order of the host both sides run on. */
module ClientWire {
  import opened Common

  const DATA_MAX_SIZE := 512
  const CHASSIS_NAME_SIZE := 508
  const PORT_SIZE := 506
  const IF_NAMESIZE := 16

  const END_OF_DATA: Byte := 0
  const CHASSIS_ENTRY: Byte := 1
  const NEIGHBOUR_ENTRY: Byte := 2
  const IP_ENTRY: Byte := 3
  const IPV6_ENTRY: Byte := 4
  const LOCAL_INTERFACE_ENTRY: Byte := 5

  type Data = s: Bytes | |s| == DATA_MAX_SIZE witness Zeros(DATA_MAX_SIZE)

  datatype ClientPacket = ClientPacket(requestId: Uint16, kind: Byte, data: Data)

  datatype Message =
    | Chassis(chassisId: Uint16, name: Bytes)
    | Neighbour(chassis: Uint16, neighbourId: Uint16, port: Bytes)
    | Ip(neighbour: Uint16, ipv4: Ipv4)
    | Ip6(neighbour: Uint16, ipv6: Ipv6)
    | LocalInterface(neighbour: Uint16, ifIndex: Uint32, ifName: Bytes)

  /** The sizes the fixed arrays of the entries have room for. */
  predicate Fits(m: Message) {
    match m
    case Chassis(_, name) => |name| <= CHASSIS_NAME_SIZE
    case Neighbour(_, _, port) => |port| <= PORT_SIZE
    case LocalInterface(_, _, name) => |name| <= IF_NAMESIZE
    case _ => true
  }

  function Kind(m: Message): Byte {
    match m
    case Chassis(_, _) => CHASSIS_ENTRY
    case Neighbour(_, _, _) => NEIGHBOUR_ENTRY
    case Ip(_, _) => IP_ENTRY
    case Ip6(_, _) => IPV6_ENTRY
    case LocalInterface(_, _, _) => LOCAL_INTERFACE_ENTRY
  }

  function Fields(m: Message): (r: Bytes)
    requires Fits(m)
    ensures |r| <= DATA_MAX_SIZE
  {
    match m
    case Chassis(id, name) => LittleEndian16(id) + (LittleEndian16(|name|) + name)
    case Neighbour(c, n, port) => LittleEndian16(c) + (LittleEndian16(n) + (LittleEndian16(|port|) + port))
    case Ip(n, address) => LittleEndian16(n) + address
    case Ip6(n, address) => LittleEndian16(n) + address
    case LocalInterface(n, index, name) => LittleEndian16(n) + (LittleEndian32(index) + name)
  }

  function Padded(fields: Bytes): (r: Data)
    requires |fields| <= DATA_MAX_SIZE
    ensures fields <= r
    ensures forall i :: |fields| <= i < DATA_MAX_SIZE ==> r[i] == 0
  {
    fields + Zeros(DATA_MAX_SIZE - |fields|)
  }

  function Encode(requestId: Uint16, m: Message): ClientPacket
    requires Fits(m)
  {
    ClientPacket(requestId, Kind(m), Padded(Fields(m)))
  }

  /** The default packet that ends a dump; its request id is not filled in. */
  const END_PACKET := ClientPacket(0, END_OF_DATA, Zeros(DATA_MAX_SIZE))

  /** Where the fields of each entry lie in its packet. */
  lemma PacketLayout(requestId: Uint16, m: Message)
    requires Fits(m)
    ensures var p := Encode(requestId, m);
            && p.requestId == requestId
            && match m
               case Chassis(c, name) =>
                 p.kind == 1 && LittleEndian16(c) + LittleEndian16(|name|) + name <= p.data
               case Neighbour(c, n, port) =>
                 p.kind == 2 && LittleEndian16(c) + LittleEndian16(n) + LittleEndian16(|port|) + port <= p.data
               case Ip(n, a) => p.kind == 3 && LittleEndian16(n) + a <= p.data
               case Ip6(n, a) => p.kind == 4 && LittleEndian16(n) + a <= p.data
               case LocalInterface(n, i, name) =>
                 p.kind == 5 && LittleEndian16(n) + LittleEndian32(i) + name <= p.data
  {
    assert Fields(m) <= Encode(requestId, m).data;
    match m
    case Chassis(c, name) =>
      assert LittleEndian16(c) + LittleEndian16(|name|) + name == Fields(m);
    case Neighbour(c, n, port) =>
      assert LittleEndian16(c) + LittleEndian16(n) + LittleEndian16(|port|) + port == Fields(m);
    case LocalInterface(n, i, name) =>
      assert LittleEndian16(n) + LittleEndian32(i) + name == Fields(m);
    case _ =>
  }

  /** A C string: the bytes before the first zero. */
  function UpToNul(s: Bytes): (r: Bytes)
    ensures r <= s && 0 !in r
    ensures |r| < |s| ==> s[|r|] == 0
  {
    if s == [] || s[0] == 0 then [] else [s[0]] + UpToNul(s[1..])
  }

  lemma {:induction false} UpToNulAppend(s: Bytes, tail: Bytes)
    requires tail != [] && tail[0] == 0
    ensures UpToNul(s + tail) == UpToNul(s)
    ensures 0 !in s ==> UpToNul(s) == s
  {
    if s == [] {
      assert s + tail == tail;
    } else {
      assert (s + tail)[1..] == s[1..] + tail;
      UpToNulAppend(s[1..], tail);
    }
  }

  /** The entry in a packet, or none if its type is not that of an entry. A length field above the
      size of its array is cut there; the service sends none. */
  function Decode(p: ClientPacket): Option<Message> {
    var d := p.data;
    if p.kind == CHASSIS_ENTRY then
      Some(Chassis(FromLittleEndian16(d), d[4..4 + AtMost(FromLittleEndian16(d[2..]), CHASSIS_NAME_SIZE)]))
    else if p.kind == NEIGHBOUR_ENTRY then
      Some(Neighbour(FromLittleEndian16(d), FromLittleEndian16(d[2..]),
                     d[6..6 + AtMost(FromLittleEndian16(d[4..]), PORT_SIZE)]))
    else if p.kind == IP_ENTRY then
      Some(Ip(FromLittleEndian16(d), d[2..6]))
    else if p.kind == IPV6_ENTRY then
      Some(Ip6(FromLittleEndian16(d), d[2..18]))
    else if p.kind == LOCAL_INTERFACE_ENTRY then
      Some(LocalInterface(FromLittleEndian16(d), FromLittleEndian32(d[2..]), UpToNul(d[6..])))
    else
      None
  }

  function AtMost(n: nat, limit: nat): nat {
    if n <= limit then n else limit
  }

  /** What a client makes of an entry: everything, except an interface name after its first zero. */
  function AsSeen(m: Message): Message {
    if m.LocalInterface? then m.(ifName := UpToNul(m.ifName)) else m
  }

  lemma Regroup(a: Bytes, b: Bytes, c: Bytes, tail: Bytes)
    ensures a + (b + c) + tail == a + (b + (c + tail))
  {
  }

  lemma ChassisData(d: Bytes, id: Uint16, name: Bytes, tail: Bytes)
    requires |name| <= CHASSIS_NAME_SIZE && d == LittleEndian16(id) + (LittleEndian16(|name|) + (name + tail))
    ensures FromLittleEndian16(d) == id && FromLittleEndian16(d[2..]) == |name| && d[4..4 + |name|] == name
  {
    Little16(id, LittleEndian16(|name|) + (name + tail));
    Little16(|name|, name + tail);
  }

  lemma NeighbourData(d: Bytes, c: Uint16, n: Uint16, port: Bytes, tail: Bytes)
    requires |port| <= PORT_SIZE
    requires d == LittleEndian16(c) + (LittleEndian16(n) + (LittleEndian16(|port|) + (port + tail)))
    ensures FromLittleEndian16(d) == c && FromLittleEndian16(d[2..]) == n
    ensures FromLittleEndian16(d[4..]) == |port| && d[6..6 + |port|] == port
  {
    Little16(c, LittleEndian16(n) + (LittleEndian16(|port|) + (port + tail)));
    ChassisData(d[2..], n, port, tail);
    assert d[4..] == d[2..][2..];
    assert d[6..6 + |port|] == d[2..][4..4 + |port|];
  }

  lemma AddressData(d: Bytes, n: Uint16, address: Bytes, tail: Bytes)
    requires d == LittleEndian16(n) + (address + tail)
    ensures FromLittleEndian16(d) == n && d[2..2 + |address|] == address
  {
    Little16(n, address + tail);
  }

  lemma InterfaceData(d: Bytes, n: Uint16, index: Uint32, name: Bytes, tail: Bytes)
    requires tail != [] && tail[0] == 0
    requires d == LittleEndian16(n) + (LittleEndian32(index) + (name + tail))
    ensures FromLittleEndian16(d) == n && FromLittleEndian32(d[2..]) == index
    ensures UpToNul(d[6..]) == UpToNul(name)
  {
    Little16(n, LittleEndian32(index) + (name + tail));
    Little32(index, name + tail);
    assert d[6..] == d[2..][4..];
    UpToNulAppend(name, tail);
  }

  lemma WireChassis(requestId: Uint16, m: Message)
    requires Fits(m) && m.Chassis?
    ensures Decode(Encode(requestId, m)) == Some(AsSeen(m))
  {
    var d: Bytes := Padded(Fields(m));
    var tail := Zeros(DATA_MAX_SIZE - |Fields(m)|);
    Regroup(LittleEndian16(m.chassisId), LittleEndian16(|m.name|), m.name, tail);
    ChassisData(d, m.chassisId, m.name, tail);
  }

  lemma WireNeighbour(requestId: Uint16, m: Message)
    requires Fits(m) && m.Neighbour?
    ensures Decode(Encode(requestId, m)) == Some(AsSeen(m))
  {
    var d: Bytes := Padded(Fields(m));
    var tail := Zeros(DATA_MAX_SIZE - |Fields(m)|);
    assert d == LittleEndian16(m.chassis) +
                (LittleEndian16(m.neighbourId) + (LittleEndian16(|m.port|) + (m.port + tail)));
    NeighbourData(d, m.chassis, m.neighbourId, m.port, tail);
  }

  lemma WireAddress(requestId: Uint16, m: Message)
    requires Fits(m) && (m.Ip? || m.Ip6?)
    ensures Decode(Encode(requestId, m)) == Some(AsSeen(m))
  {
    var d: Bytes := Padded(Fields(m));
    var tail := Zeros(DATA_MAX_SIZE - |Fields(m)|);
    var address: Bytes := if m.Ip? then m.ipv4 else m.ipv6;
    assert d == LittleEndian16(m.neighbour) + (address + tail);
    AddressData(d, m.neighbour, address, tail);
  }

  lemma WireInterface(requestId: Uint16, m: Message)
    requires Fits(m) && m.LocalInterface?
    ensures Decode(Encode(requestId, m)) == Some(AsSeen(m))
  {
    var d: Bytes := Padded(Fields(m));
    var tail := Zeros(DATA_MAX_SIZE - |Fields(m)|);
    Regroup(LittleEndian16(m.neighbour), LittleEndian32(m.ifIndex), m.ifName, tail);
    InterfaceData(d, m.neighbour, m.ifIndex, m.ifName, tail);
  }

  /** Every entry that fits survives the packet. */
  lemma WireRoundTrip(requestId: Uint16, m: Message)
    requires Fits(m)
    ensures Decode(Encode(requestId, m)) == Some(AsSeen(m))
  {
    match m
    case Chassis(_, _) => WireChassis(requestId, m);
    case Neighbour(_, _, _) => WireNeighbour(requestId, m);
    case Ip(_, _) => WireAddress(requestId, m);
    case Ip6(_, _) => WireAddress(requestId, m);
    case LocalInterface(_, _, _) => WireInterface(requestId, m);
  }
}
