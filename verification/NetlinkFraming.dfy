/** The framing of netlink batches (section 2.2 of RFC 3549): aligned messages, each with a header,
    a fixed structure and aligned attributes. The loops that take a batch apart deliver exactly what
    was laid out in it. */
module NetlinkFraming {
  import opened Common

  const HEADER_SIZE := 16
  const ATTRIBUTE_HEADER_SIZE := 4
  const LINK_INFO_SIZE := 16
  const ADDRESS_INFO_SIZE := 8

  const NLMSG_ERROR: Uint16 := 2
  const NLMSG_DONE: Uint16 := 3
  const RTM_NEWLINK: Uint16 := 16
  const RTM_DELLINK: Uint16 := 17
  const RTM_GETLINK: Uint16 := 18
  const RTM_NEWADDR: Uint16 := 20
  const RTM_DELADDR: Uint16 := 21
  const RTM_GETADDR: Uint16 := 22

  datatype Header = Header(size: Uint32, kind: Uint16, flags: Uint16, sequence: Uint32, pid: Uint32)

  datatype Attribute = Attribute(kind: Uint16, value: Bytes)

  type LinkInfo = s: Bytes | |s| == LINK_INFO_SIZE witness Zeros(LINK_INFO_SIZE)
  type AddressInfo = s: Bytes | |s| == ADDRESS_INFO_SIZE witness Zeros(ADDRESS_INFO_SIZE)

  /** A parsed message. The contents of an error report are not looked at. */
  datatype View =
    | LinkView(header: Header, link: LinkInfo, attributes: seq<Attribute>)
    | AddrView(header: Header, address: AddressInfo, attributes: seq<Attribute>)
    | DoneView(header: Header, code: Bytes)
    | ErrorView(header: Header)
    | MessageView(header: Header, content: Bytes)

  // ---------- Alignment ----------

  predicate Aligned(n: nat) {
    n % 4 == 0
  }

  /** The next multiple of four. */
  function Align(n: nat): (r: nat)
    ensures n <= r < n + 4
  {
    (n + 3) / 4 * 4
  }

  lemma AlignAligned(n: nat)
    ensures Aligned(Align(n))
  {
  }

  lemma AlignedSum(a: nat, b: nat)
    requires Aligned(a)
    ensures Aligned(a + b) <==> Aligned(b)
  {
  }

  /** What fits in an aligned space still fits when it is aligned, and leaves an aligned space. */
  lemma AlignFits(n: nat, space: nat)
    requires n <= space && Aligned(space)
    ensures Align(n) <= space && Aligned(space - Align(n))
  {
  }

  predicate IsLink(kind: Uint16) {
    kind == RTM_GETLINK || kind == RTM_NEWLINK || kind == RTM_DELLINK
  }

  predicate IsAddress(kind: Uint16) {
    kind == RTM_GETADDR || kind == RTM_NEWADDR || kind == RTM_DELADDR
  }

  // ---------- Taking a batch apart ----------

  function HeaderOf(bytes: Bytes): Header
    requires |bytes| >= HEADER_SIZE
  {
    Header(
      FromLittleEndian32(bytes),
      FromLittleEndian16(bytes[4..]),
      FromLittleEndian16(bytes[6..]),
      FromLittleEndian32(bytes[8..]),
      FromLittleEndian32(bytes[12..]))
  }

  /** There is a whole message at the front of the batch. */
  predicate MessageOk(bytes: Bytes) {
    |bytes| >= HEADER_SIZE && HEADER_SIZE <= HeaderOf(bytes).size <= |bytes|
  }

  predicate AttributeOk(bytes: Bytes) {
    |bytes| >= ATTRIBUTE_HEADER_SIZE && ATTRIBUTE_HEADER_SIZE <= FromLittleEndian16(bytes) <= |bytes|
  }

  /** The attribute at the front, and what is left after its aligned size. */
  function NextAttribute(bytes: Bytes): (r: Option<(Attribute, Bytes)>)
    requires Aligned(|bytes|)
    ensures r.Some? ==> Aligned(|r.value.1|) && |r.value.1| < |bytes|
  {
    if !AttributeOk(bytes) then None else
      var size := FromLittleEndian16(bytes);
      AlignFits(size, |bytes|);
      Some((Attribute(FromLittleEndian16(bytes[2..]), bytes[ATTRIBUTE_HEADER_SIZE..size]), bytes[Align(size)..]))
  }

  /** Attributes up to the first that is not whole. */
  function Attributes(bytes: Bytes): seq<Attribute>
    requires Aligned(|bytes|)
    decreases |bytes|
  {
    match NextAttribute(bytes)
    case None => []
    case Some((a, rest)) => [a] + Attributes(rest)
  }

  /** Where the attributes of a message lie, when a structure of `infoSize` bytes comes before them.
      The sender must have made room for the structure and aligned the attributes. */
  predicate AttributesSized(packet: Bytes, infoSize: nat) {
    && MessageOk(packet)
    && HEADER_SIZE + infoSize <= HeaderOf(packet).size
    && Aligned(HeaderOf(packet).size - HEADER_SIZE - infoSize)
  }

  predicate Parsable(packet: Bytes) {
    MessageOk(packet) &&
    var kind := HeaderOf(packet).kind;
    if IsLink(kind) then AttributesSized(packet, LINK_INFO_SIZE)
    else if IsAddress(kind) then AttributesSized(packet, ADDRESS_INFO_SIZE)
    else if kind == NLMSG_DONE then HeaderOf(packet).size >= HEADER_SIZE + 4
    else true
  }

  /** `packetViewParser`. */
  function ViewOf(packet: Bytes): View
    requires Parsable(packet)
  {
    var h := HeaderOf(packet);
    if IsLink(h.kind) then
      LinkView(h, packet[HEADER_SIZE..HEADER_SIZE + LINK_INFO_SIZE],
               Attributes(packet[HEADER_SIZE + LINK_INFO_SIZE..h.size]))
    else if IsAddress(h.kind) then
      AddrView(h, packet[HEADER_SIZE..HEADER_SIZE + ADDRESS_INFO_SIZE],
               Attributes(packet[HEADER_SIZE + ADDRESS_INFO_SIZE..h.size]))
    else if h.kind == NLMSG_DONE then DoneView(h, packet[HEADER_SIZE..HEADER_SIZE + 4])
    else if h.kind == NLMSG_ERROR then ErrorView(h)
    else MessageView(h, packet[HEADER_SIZE..h.size])
  }

  /** The view of a message is decided by its type. */
  lemma ViewKinds(packet: Bytes)
    requires Parsable(packet)
    ensures var v, kind := ViewOf(packet), HeaderOf(packet).kind;
            && (v.LinkView? <==> 16 <= kind <= 18)
            && (v.AddrView? <==> 20 <= kind <= 22)
            && (v.DoneView? <==> kind == 3)
            && (v.ErrorView? <==> kind == 2)
            && v.header == HeaderOf(packet)
  {
  }

  /** The aligned message at the front of a batch, and what is left. */
  function Extract(bytes: Bytes): (r: Option<(Bytes, Bytes)>)
    requires Aligned(|bytes|)
    ensures r.Some? ==> Aligned(|r.value.1|) && |r.value.1| < |bytes|
  {
    if !MessageOk(bytes) then None else
      var size := Align(HeaderOf(bytes).size);
      AlignFits(HeaderOf(bytes).size, |bytes|);
      Some((bytes[..size], bytes[size..]))
  }

  /** What is taken off and what is left make up the batch. */
  lemma ExtractParts(bytes: Bytes)
    requires Aligned(|bytes|)
    ensures Extract(bytes).Some? <==> MessageOk(bytes)
    ensures Extract(bytes).Some? ==>
              var (packet, rest) := Extract(bytes).value;
              bytes == packet + rest && |packet| == Align(HeaderOf(bytes).size)
  {
    if MessageOk(bytes) {
      var size := Align(HeaderOf(bytes).size);
      AlignFits(HeaderOf(bytes).size, |bytes|);
      assert bytes == bytes[..size] + bytes[size..];
    }
  }

  /** Every message the loop will take off the batch can be parsed. */
  predicate BatchParsable(bytes: Bytes)
    requires Aligned(|bytes|)
    decreases |bytes|
  {
    match Extract(bytes)
    case None => true
    case Some((packet, rest)) => Parsable(packet) && BatchParsable(rest)
  }

  function Views(bytes: Bytes): seq<View>
    requires Aligned(|bytes|) && BatchParsable(bytes)
    decreases |bytes|
  {
    match Extract(bytes)
    case None => []
    case Some((packet, rest)) => [ViewOf(packet)] + Views(rest)
  }

  // ---------- Laying a batch out ----------

  /** A message as its sender has it: `info` is the fixed structure, or the whole payload of a
      message without attributes. */
  datatype Message = Message(
    kind: Uint16,
    flags: Uint16,
    sequence: Uint32,
    pid: Uint32,
    info: Bytes,
    attributes: seq<Attribute>)

  function Padding(n: nat): Bytes {
    Zeros(Align(n) - n)
  }

  function LayoutAttribute(a: Attribute): (r: Bytes)
    requires |a.value| + ATTRIBUTE_HEADER_SIZE < 0x1_0000
    ensures |r| == Align(ATTRIBUTE_HEADER_SIZE + |a.value|)
  {
    LittleEndian16(ATTRIBUTE_HEADER_SIZE + |a.value|) +
    (LittleEndian16(a.kind) + (a.value + Padding(ATTRIBUTE_HEADER_SIZE + |a.value|)))
  }

  predicate AttributesFit(as_: seq<Attribute>) {
    forall a <- as_ :: |a.value| + ATTRIBUTE_HEADER_SIZE < 0x1_0000
  }

  function LayoutAttributes(as_: seq<Attribute>): (r: Bytes)
    requires AttributesFit(as_)
    ensures Aligned(|r|)
  {
    if as_ == [] then [] else
      AlignAligned(ATTRIBUTE_HEADER_SIZE + |as_[0].value|);
      AlignedSum(Align(ATTRIBUTE_HEADER_SIZE + |as_[0].value|), |LayoutAttributes(as_[1..])|);
      LayoutAttribute(as_[0]) + LayoutAttributes(as_[1..])
  }

  predicate WellFormed(m: Message) {
    && AttributesFit(m.attributes)
    && (IsLink(m.kind) ==> |m.info| == LINK_INFO_SIZE)
    && (IsAddress(m.kind) ==> |m.info| == ADDRESS_INFO_SIZE)
    && (m.kind == NLMSG_DONE ==> |m.info| >= 4)
    && (!IsLink(m.kind) && !IsAddress(m.kind) ==> m.attributes == [])
    && HEADER_SIZE + |m.info| + |LayoutAttributes(m.attributes)| < 0x1_0000_0000
  }

  type WellMessage = m: Message | WellFormed(m) witness Message(0, 0, 0, 0, [], [])

  function HeaderFor(m: WellMessage): Header
  {
    Header(HEADER_SIZE + |m.info| + |LayoutAttributes(m.attributes)|, m.kind, m.flags, m.sequence, m.pid)
  }

  function LayoutHeader(h: Header): (r: Bytes)
    ensures |r| == HEADER_SIZE
  {
    LittleEndian32(h.size) + (LittleEndian16(h.kind) + (LittleEndian16(h.flags) +
    (LittleEndian32(h.sequence) + LittleEndian32(h.pid))))
  }

  function Layout(m: WellMessage): (r: Bytes)
    ensures |r| == Align(HeaderFor(m).size)
  {
    LayoutHeader(HeaderFor(m)) + (m.info + (LayoutAttributes(m.attributes) + Padding(HeaderFor(m).size)))
  }

  function LayoutAll(ms: seq<WellMessage>): (r: Bytes)
    ensures Aligned(|r|)
  {
    if ms == [] then [] else
      AlignAligned(HeaderFor(ms[0]).size);
      AlignedSum(Align(HeaderFor(ms[0]).size), |LayoutAll(ms[1..])|);
      Layout(ms[0]) + LayoutAll(ms[1..])
  }

  /** What a message should be delivered as. */
  function Expected(m: WellMessage): View
  {
    var h := HeaderFor(m);
    if IsLink(m.kind) then LinkView(h, m.info, m.attributes)
    else if IsAddress(m.kind) then AddrView(h, m.info, m.attributes)
    else if m.kind == NLMSG_DONE then DoneView(h, m.info[..4])
    else if m.kind == NLMSG_ERROR then ErrorView(h)
    else MessageView(h, m.info)
  }

  function ExpectedAll(ms: seq<WellMessage>): seq<View>
  {
    if ms == [] then [] else [Expected(ms[0])] + ExpectedAll(ms[1..])
  }

  // ---------- The round trip ----------

  lemma AttributeRoundTrip(a: Attribute, tail: Bytes)
    requires |a.value| + ATTRIBUTE_HEADER_SIZE < 0x1_0000 && Aligned(|tail|)
    ensures var bytes := LayoutAttribute(a) + tail;
            Aligned(|bytes|) && Attributes(bytes) == [a] + Attributes(tail)
  {
    var size := ATTRIBUTE_HEADER_SIZE + |a.value|;
    var value := a.value + Padding(size);
    var bytes := LayoutAttribute(a) + tail;
    AlignAligned(size);
    AlignedSum(Align(size), |tail|);
    assert bytes == LittleEndian16(size) + (LittleEndian16(a.kind) + (value + tail));
    Little16(size, LittleEndian16(a.kind) + (value + tail));
    Little16(a.kind, value + tail);
    assert bytes[ATTRIBUTE_HEADER_SIZE..size] == a.value;
    assert bytes[Align(size)..] == tail;
  }

  lemma {:induction false} AttributesRoundTrip(as_: seq<Attribute>)
    requires AttributesFit(as_)
    ensures Attributes(LayoutAttributes(as_)) == as_
  {
    if as_ != [] {
      AttributeRoundTrip(as_[0], LayoutAttributes(as_[1..]));
      AttributesRoundTrip(as_[1..]);
    }
  }

  lemma HeaderFields(h: Header, bytes: Bytes, b: Bytes, c: Bytes, d: Bytes, e: Bytes, tail: Bytes)
    requires bytes == LittleEndian32(h.size) + b && b == LittleEndian16(h.kind) + c
    requires c == LittleEndian16(h.flags) + d && d == LittleEndian32(h.sequence) + e
    requires e == LittleEndian32(h.pid) + tail
    ensures HeaderOf(bytes) == h
  {
    Little32(h.size, b);
    Little16(h.kind, c);
    Little16(h.flags, d);
    Little32(h.sequence, e);
    Little32(h.pid, tail);
    assert bytes[4..] == b && bytes[6..] == c && bytes[8..] == d && bytes[12..] == e;
  }

  lemma HeaderRoundTrip(h: Header, tail: Bytes)
    ensures HeaderOf(LayoutHeader(h) + tail) == h
  {
    var e := LittleEndian32(h.pid) + tail;
    var d := LittleEndian32(h.sequence) + e;
    var c := LittleEndian16(h.flags) + d;
    var b := LittleEndian16(h.kind) + c;
    assert LayoutHeader(h) + tail == LittleEndian32(h.size) + b;
    HeaderFields(h, LayoutHeader(h) + tail, b, c, d, e, tail);
  }

  lemma Slices(h: Bytes, i: Bytes, a: Bytes, p: Bytes)
    ensures (h + (i + (a + p)))[|h|..|h| + |i|] == i
    ensures (h + (i + (a + p)))[|h| + |i|..|h| + |i| + |a|] == a
  {
  }

  /** Where the parts of a laid-out message are found. */
  lemma LayoutParts(m: WellMessage, tail: Bytes)
    ensures HeaderOf(Layout(m) + tail) == HeaderFor(m)
    ensures Layout(m)[HEADER_SIZE..HEADER_SIZE + |m.info|] == m.info
    ensures Layout(m)[HEADER_SIZE + |m.info|..HeaderFor(m).size] == LayoutAttributes(m.attributes)
  {
    var h := HeaderFor(m);
    var attributes := LayoutAttributes(m.attributes);
    var body := m.info + (attributes + Padding(h.size));
    Slices(LayoutHeader(h), m.info, attributes, Padding(h.size));
    assert HeaderOf(Layout(m) + tail) == h by {
      HeaderRoundTrip(h, body + tail);
      assert Layout(m) + tail == LayoutHeader(h) + (body + tail);
    }
  }

  /** Its header is found, and room for its structure and aligned attributes. */
  lemma LayoutSized(m: WellMessage)
    ensures |Layout(m)| >= HEADER_SIZE && HeaderOf(Layout(m)) == HeaderFor(m)
    ensures AttributesSized(Layout(m), |m.info|)
  {
    LayoutParts(m, []);
    assert Layout(m) + [] == Layout(m);
  }

  lemma AttributedRoundTrip(m: WellMessage)
    requires IsLink(m.kind) || IsAddress(m.kind)
    ensures Parsable(Layout(m)) && ViewOf(Layout(m)) == Expected(m)
  {
    LayoutSized(m);
    LayoutParts(m, []);
    AttributesRoundTrip(m.attributes);
  }

  lemma PlainRoundTrip(m: WellMessage)
    requires !IsLink(m.kind) && !IsAddress(m.kind)
    ensures Parsable(Layout(m)) && ViewOf(Layout(m)) == Expected(m)
  {
    var packet := Layout(m);
    LayoutParts(m, []);
    assert packet + [] == packet;
    assert packet[HEADER_SIZE..HeaderFor(m).size] == m.info;
    if m.kind == NLMSG_DONE {
      assert packet[HEADER_SIZE..HEADER_SIZE + 4] == m.info[..4];
    }
  }

  lemma ViewRoundTrip(m: WellMessage)
    ensures Parsable(Layout(m)) && ViewOf(Layout(m)) == Expected(m)
  {
    if IsLink(m.kind) || IsAddress(m.kind) {
      AttributedRoundTrip(m);
    } else {
      PlainRoundTrip(m);
    }
  }

  /** One message at the front of a batch. */
  lemma MessageRoundTrip(m: WellMessage, tail: Bytes)
    requires Aligned(|tail|)
    ensures Aligned(|Layout(m) + tail|) && Extract(Layout(m) + tail) == Some((Layout(m), tail))
  {
    var packet := Layout(m);
    AlignAligned(HeaderFor(m).size);
    AlignedSum(|packet|, |tail|);
    LayoutParts(m, tail);
    assert (packet + tail)[..|packet|] == packet;
    assert (packet + tail)[|packet|..] == tail;
  }

  lemma BatchNext(m: WellMessage, rest: Bytes)
    requires Aligned(|rest|) && BatchParsable(rest)
    ensures var bytes := Layout(m) + rest;
            Aligned(|bytes|) && BatchParsable(bytes) && Views(bytes) == [Expected(m)] + Views(rest)
  {
    MessageRoundTrip(m, rest);
    ViewRoundTrip(m);
  }

  /** A batch delivers exactly the messages laid out in it, in order, each with exactly its
      attributes, and nothing else. */
  lemma {:induction false} BatchRoundTrip(ms: seq<WellMessage>)
    ensures BatchParsable(LayoutAll(ms))
    ensures Views(LayoutAll(ms)) == ExpectedAll(ms)
  {
    if ms != [] {
      BatchRoundTrip(ms[1..]);
      BatchNext(ms[0], LayoutAll(ms[1..]));
    }
  }

  // ---------- The loops ----------

  /** `parseTlvs`: a remainder that shrinks by the aligned size of each attribute. */
  method ParseTlvs(packet: Bytes, infoSize: nat) returns (attributes: seq<Attribute>)
    requires AttributesSized(packet, infoSize)
    ensures attributes == Attributes(packet[HEADER_SIZE + infoSize..HeaderOf(packet).size])
  {
    var remaining := packet[HEADER_SIZE + infoSize..HeaderOf(packet).size];
    ghost var all := Attributes(remaining);
    attributes := [];
    while AttributeOk(remaining)
      invariant Aligned(|remaining|)
      invariant attributes + Attributes(remaining) == all
      decreases |remaining|
    {
      var size := FromLittleEndian16(remaining);
      AlignFits(size, |remaining|);
      var attribute := Attribute(FromLittleEndian16(remaining[2..]), remaining[ATTRIBUTE_HEADER_SIZE..size]);
      assert NextAttribute(remaining) == Some((attribute, remaining[Align(size)..]));
      attributes := attributes + [attribute];
      remaining := remaining[Align(size)..];
    }
  }

  method PacketViewParser(packet: Bytes) returns (view: View)
    requires Parsable(packet)
    ensures view == ViewOf(packet)
  {
    var h := HeaderOf(packet);
    if IsLink(h.kind) {
      var attributes := ParseTlvs(packet, LINK_INFO_SIZE);
      return LinkView(h, packet[HEADER_SIZE..HEADER_SIZE + LINK_INFO_SIZE], attributes);
    }
    if IsAddress(h.kind) {
      var attributes := ParseTlvs(packet, ADDRESS_INFO_SIZE);
      return AddrView(h, packet[HEADER_SIZE..HEADER_SIZE + ADDRESS_INFO_SIZE], attributes);
    }
    if h.kind == NLMSG_DONE {
      return DoneView(h, packet[HEADER_SIZE..HEADER_SIZE + 4]);
    }
    if h.kind == NLMSG_ERROR {
      return ErrorView(h);
    }
    return MessageView(h, packet[HEADER_SIZE..h.size]);
  }

  predicate Extracted(remaining: Bytes, packet: Option<Bytes>, rest: Bytes)
    requires Aligned(|remaining|)
  {
    match Extract(remaining)
    case None => packet == None && rest == remaining
    case Some((p, r)) => packet == Some(p) && rest == r
  }

  /** `extractMessageFromBuffer`: takes the aligned message off the remaining data. */
  method ExtractMessageFromBuffer(remaining: Bytes) returns (packet: Option<Bytes>, rest: Bytes)
    requires Aligned(|remaining|)
    ensures Extracted(remaining, packet, rest)
  {
    if MessageOk(remaining) {
      var size := Align(HeaderOf(remaining).size);
      AlignFits(HeaderOf(remaining).size, |remaining|);
      return Some(remaining[..size]), remaining[size..];
    }
    return None, remaining;
  }

  /** The views delivered so far and those still in the batch make up `goal`. */
  predicate Delivering(views: seq<View>, current: Bytes, goal: seq<View>) {
    Aligned(|current|) && BatchParsable(current) && views + Views(current) == goal
  }

  lemma NextView(views: seq<View>, current: Bytes, goal: seq<View>, packet: Bytes, rest: Bytes)
    requires Delivering(views, current, goal) && Extract(current) == Some((packet, rest))
    ensures Parsable(packet) && |rest| < |current|
    ensures Delivering(views + [ViewOf(packet)], rest, goal)
  {
    assert views + ([ViewOf(packet)] + Views(rest)) == (views + [ViewOf(packet)]) + Views(rest);
  }

  lemma FirstView(buffer: Bytes)
    requires Aligned(|buffer|) && BatchParsable(buffer)
    ensures Delivering([], buffer, Views(buffer))
  {
    assert [] + Views(buffer) == Views(buffer);
  }

  lemma LastView(views: seq<View>, current: Bytes, goal: seq<View>)
    requires Delivering(views, current, goal) && Extract(current).None?
    ensures views == goal
  {
    assert views + [] == views;
  }

  /** `NetlinkSocket::Call` on one received batch: the views handed to the callback, in order. */
  method Call(buffer: Bytes) returns (views: seq<View>)
    requires Aligned(|buffer|) && BatchParsable(buffer)
    ensures views == Views(buffer)
  {
    views := [];
    var current := buffer;
    ghost var goal := Views(buffer);
    FirstView(buffer);
    var packet, rest := ExtractMessageFromBuffer(current);
    while packet.Some?
      invariant Delivering(views, current, goal) && Extracted(current, packet, rest)
      decreases |current|
    {
      NextView(views, current, goal, packet.value, rest);
      var view := PacketViewParser(packet.value);
      views := views + [view];
      current := rest;
      packet, rest := ExtractMessageFromBuffer(current);
    }
    LastView(views, current, goal);
  }
}
