/** Value types shared by every component: bytes, fixed-width integers, link-layer and
    network addresses, and the record kept about one local network device. */
module Common {

  datatype Option<+T> = None | Some(value: T)

  type Byte = b: int | 0 <= b < 0x100
  type Bytes = seq<Byte>

  type Uint16 = n: int | 0 <= n < 0x1_0000
  type Uint32 = n: int | 0 <= n < 0x1_0000_0000
  type Uint64 = n: int | 0 <= n < 0x1_0000_0000_0000_0000

  type Mac = s: Bytes | |s| == 6 witness [0, 0, 0, 0, 0, 0]
  type Ipv4 = s: Bytes | |s| == 4 witness [0, 0, 0, 0]
  type Ipv6 = s: Bytes | |s| == 16 witness [0, 0, 0, 0, 0, 0, 0, 0, 0, 0, 0, 0, 0, 0, 0, 0]

  const INT_MAX := 0x7fff_ffff

  /** What the agent knows about one local device (`netlink::DeviceData`). */
  datatype DeviceData = DeviceData(
    mac: Option<Mac>,
    ipv4: Option<Ipv4>,
    ipv6: Option<Ipv6>,
    name: Option<Bytes>,
    operational: bool,
    ifIndex: Uint32)

  /** Two bytes in network order. */
  function BigEndian16(n: Uint16): (r: Bytes)
    ensures |r| == 2
  {
    [n / 0x100, n % 0x100]
  }

  function FromBigEndian16(hi: Byte, lo: Byte): Uint16 {
    hi * 0x100 + lo
  }

  lemma BigEndian16Of(hi: Byte, lo: Byte)
    ensures BigEndian16(FromBigEndian16(hi, lo)) == [hi, lo]
  {
  }

  /** Four bytes in network order. */
  function BigEndian32(n: Uint32): (r: Bytes)
    ensures |r| == 4
  {
    BigEndian16(n / 0x1_0000) + BigEndian16(n % 0x1_0000)
  }

  function FromBigEndian32(a: Byte, b: Byte, c: Byte, d: Byte): Uint32 {
    FromBigEndian16(a, b) * 0x1_0000 + FromBigEndian16(c, d)
  }

  /** Host order of the machines the agent runs on: least significant byte first. */
  function LittleEndian16(n: Uint16): (r: Bytes)
    ensures |r| == 2
  {
    [n % 0x100, n / 0x100]
  }

  function FromLittleEndian16(s: Bytes): Uint16
    requires |s| >= 2
  {
    FromBigEndian16(s[1], s[0])
  }

  function LittleEndian32(n: Uint32): (r: Bytes)
    ensures |r| == 4
  {
    LittleEndian16(n % 0x1_0000) + LittleEndian16(n / 0x1_0000)
  }

  /** The number of values of `n` bytes. */
  function Values(n: nat): nat {
    if n == 0 then 1 else 0x100 * Values(n - 1)
  }

  /** A number from its bytes, least significant first. */
  function FromBytes(s: Bytes): (r: nat)
    ensures r < Values(|s|)
  {
    if s == [] then 0 else s[0] + 0x100 * FromBytes(s[1..])
  }

  lemma FourBytes(s: Bytes)
    requires |s| == 4
    ensures FromBytes(s) == FromBigEndian16(s[3], s[2]) * 0x1_0000 + FromBigEndian16(s[1], s[0])
    ensures FromBytes(s) < 0x1_0000_0000
  {
    assert FromBytes(s[1..][1..][1..][1..]) == 0;
    assert FromBytes(s[1..][1..][1..]) == s[3];
    assert FromBytes(s[1..][1..]) == FromBigEndian16(s[3], s[2]);
  }

  function FromLittleEndian32(s: Bytes): Uint32
    requires |s| >= 4
  {
    FourBytes(s[..4]);
    FromBytes(s[..4])
  }

  /** Decoding the front of a byte string, and what is behind it. */
  lemma Little16(n: Uint16, tail: Bytes)
    ensures FromLittleEndian16(LittleEndian16(n) + tail) == n
    ensures (LittleEndian16(n) + tail)[2..] == tail
  {
  }

  lemma Little32(n: Uint32, tail: Bytes)
    ensures FromLittleEndian32(LittleEndian32(n) + tail) == n
    ensures (LittleEndian32(n) + tail)[4..] == tail
  {
    var s := LittleEndian32(n) + tail;
    assert s[..4] == LittleEndian32(n);
    FourBytes(s[..4]);
  }

  function Zeros(n: nat): (r: Bytes)
    ensures |r| == n
  {
    seq(n, _ => 0)
  }
}
