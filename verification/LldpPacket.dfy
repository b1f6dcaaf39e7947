/** LLDPDU codec: printing and parsing of TLVs and data units as byte sequences, the round trips
    in both directions, and the in-place printers and parsers that refine them. */
module LldpPacket {
  import opened Common

  const CHASSIS_ID: Byte := 1
  const PORT_ID: Byte := 2
  const TIME_TO_LIVE: Byte := 3
  const MANAGEMENT_ADDRESS: Byte := 8
  const END_OF_LLDPDU: Byte := 0
  const END_MARKER: Bytes := [0, 0]

  const MAX_TYPE := 127
  const MAX_VALUE := 511

  datatype Tlv = Tlv(kind: Byte, value: Bytes)

  datatype DataUnit = DataUnit(chassisId: Tlv, portId: Tlv, timeToLive: Tlv, optional: seq<Tlv>)

  // ---------- Printing ----------

  function BitOr(a: nat, b: nat): nat {
    if a == 0 then b
    else if b == 0 then a
    else 2 * BitOr(a / 2, b / 2) + (if a % 2 == 1 || b % 2 == 1 then 1 else 0)
  }

  /** The 16-bit header: the type shifted by nine, or-ed with the 16-bit length. The shifted type
      has no bit below the tenth, so the low nine bits of the length are added to it, those above them
      are or-ed into the type, and of that seven bits are left. */
  function Header(kind: Byte, size: nat): Uint16 {
    BitOr(kind, size % 0x1_0000 / 0x200) % 0x80 * 0x200 + size % 0x200
  }

  function TlvSize(t: Tlv): nat {
    2 + |t.value|
  }

  function PrintTlv(t: Tlv): (r: Bytes)
    ensures |r| == TlvSize(t)
  {
    BigEndian16(Header(t.kind, |t.value|)) + t.value
  }

  function PrintTlvs(ts: seq<Tlv>): Bytes {
    if ts == [] then [] else PrintTlv(ts[0]) + PrintTlvs(ts[1..])
  }

  function PrintMandatory(u: DataUnit): Bytes {
    PrintTlv(u.chassisId) + (PrintTlv(u.portId) + PrintTlv(u.timeToLive))
  }

  /** The printed unit without its final end marker. */
  function PrintBody(u: DataUnit): Bytes {
    PrintMandatory(u) + PrintTlvs(u.optional)
  }

  function Print(u: DataUnit): Bytes {
    PrintBody(u) + END_MARKER
  }

  // ---------- Parsing ----------

  function HeaderOf(bytes: Bytes): Uint16
    requires |bytes| >= 2
  {
    FromBigEndian16(bytes[0], bytes[1])
  }

  /** The TLV at the front of `bytes` and the bytes after it. */
  function ParseTlv(bytes: Bytes): (r: Option<(Tlv, Bytes)>)
    ensures r.Some? ==> |r.value.1| + 2 <= |bytes|
  {
    if |bytes| < 2 then None else
      var size := HeaderOf(bytes) % 0x200;
      if size + 2 > |bytes| then None
      else Some((Tlv(HeaderOf(bytes) / 0x200, bytes[2..2 + size]), bytes[2 + size..]))
  }

  /** TLVs up to the end marker or the first one that does not parse. */
  function ParseTlvs(bytes: Bytes): seq<Tlv>
    decreases |bytes|
  {
    match ParseTlv(bytes)
    case None => []
    case Some((t, rest)) => if t.kind == END_OF_LLDPDU then [] else [t] + ParseTlvs(rest)
  }

  function ParseKind(bytes: Bytes, kind: Byte): (r: Option<(Tlv, Bytes)>) {
    match ParseTlv(bytes)
    case None => None
    case Some((t, rest)) => if t.kind == kind then Some((t, rest)) else None
  }

  function Parse(bytes: Bytes): Option<DataUnit> {
    match ParseKind(bytes, CHASSIS_ID)
    case None => None
    case Some((chassisId, afterChassis)) =>
      match ParseKind(afterChassis, PORT_ID)
      case None => None
      case Some((portId, afterPort)) =>
        match ParseKind(afterPort, TIME_TO_LIVE)
        case None => None
        case Some((timeToLive, afterTtl)) =>
          Some(DataUnit(chassisId, portId, timeToLive, ParseTlvs(afterTtl)))
  }

  // ---------- Parse after print ----------

  predicate FitsTlv(t: Tlv) {
    t.kind <= MAX_TYPE && |t.value| <= MAX_VALUE
  }

  predicate FitsUnit(u: DataUnit) {
    && u.chassisId.kind == CHASSIS_ID
    && u.portId.kind == PORT_ID
    && u.timeToLive.kind == TIME_TO_LIVE
    && FitsTlv(u.chassisId)
    && FitsTlv(u.portId)
    && FitsTlv(u.timeToLive)
    && forall t <- u.optional :: FitsTlv(t) && t.kind != END_OF_LLDPDU
  }

  lemma HeaderFits(kind: Byte, size: nat)
    requires kind <= MAX_TYPE && size <= MAX_VALUE
    ensures Header(kind, size) == kind * 0x200 + size
  {
    assert size % 0x1_0000 / 0x200 == 0 && size % 0x200 == size;
    assert BitOr(kind, 0) == kind;
  }

  lemma PrintFits(t: Tlv)
    requires FitsTlv(t)
    ensures PrintTlv(t) == BigEndian16(t.kind * 0x200 + |t.value|) + t.value
  {
    HeaderFits(t.kind, |t.value|);
  }

  /** What parses fits. */
  lemma ParsedTlvFits(bytes: Bytes)
    ensures ParseTlv(bytes).Some? ==> FitsTlv(ParseTlv(bytes).value.0)
  {
  }

  lemma HeaderReads(n: Uint16, value: Bytes, tail: Bytes)
    ensures var bytes := BigEndian16(n) + value + tail;
            HeaderOf(bytes) == n && bytes[2..2 + |value|] == value && bytes[2 + |value|..] == tail
  {
  }

  lemma FittingRoundTrip(t: Tlv, tail: Bytes)
    requires FitsTlv(t)
    ensures ParseTlv(PrintTlv(t) + tail) == Some((t, tail))
  {
    PrintFits(t);
    HeaderReads(t.kind * 0x200 + |t.value|, t.value, tail);
    assert (t.kind * 0x200 + |t.value|) % 0x200 == |t.value| && (t.kind * 0x200 + |t.value|) / 0x200 == t.kind;
  }

  /** A TLV survives printing and parsing, with any bytes after it, exactly when its type fits
      seven bits and its length nine. */
  lemma TlvRoundTrip(t: Tlv, tail: Bytes)
    ensures ParseTlv(PrintTlv(t) + tail) == Some((t, tail)) <==> FitsTlv(t)
  {
    if FitsTlv(t) {
      FittingRoundTrip(t, tail);
    } else {
      ParsedTlvFits(PrintTlv(t) + tail);
    }
  }

  lemma ParseEnd(bytes: Bytes)
    requires |bytes| >= 2 && bytes[0] == 0 && bytes[1] == 0
    ensures ParseTlvs(bytes) == []
  {
  }

  lemma ParseNext(t: Tlv, rest: Bytes)
    requires FitsTlv(t) && t.kind != END_OF_LLDPDU
    ensures ParseTlvs(PrintTlv(t) + rest) == [t] + ParseTlvs(rest)
  {
    TlvRoundTrip(t, rest);
  }

  lemma {:induction false} TlvsRoundTrip(ts: seq<Tlv>, tail: Bytes)
    requires forall t <- ts :: FitsTlv(t) && t.kind != END_OF_LLDPDU
    ensures ParseTlvs(PrintTlvs(ts) + (END_MARKER + tail)) == ts
  {
    var end := END_MARKER + tail;
    if ts == [] {
      assert PrintTlvs(ts) + end == end;
      ParseEnd(end);
    } else {
      var rest := PrintTlvs(ts[1..]) + end;
      assert PrintTlvs(ts) + end == PrintTlv(ts[0]) + rest;
      TlvsRoundTrip(ts[1..], tail);
      ParseNext(ts[0], rest);
    }
  }

  /** Everything the parser accepts fits. */
  lemma {:induction false} ParsedTlvsFit(bytes: Bytes)
    ensures forall t <- ParseTlvs(bytes) :: FitsTlv(t) && t.kind != END_OF_LLDPDU
    decreases |bytes|
  {
    var r := ParseTlv(bytes);
    if r.Some? && r.value.0.kind != END_OF_LLDPDU {
      ParsedTlvsFit(r.value.1);
    }
  }

  lemma ParsedUnitFits(bytes: Bytes)
    ensures Parse(bytes).Some? ==> FitsUnit(Parse(bytes).value)
  {
    match ParseKind(bytes, CHASSIS_ID)
    case None =>
    case Some((c, afterChassis)) =>
      match ParseKind(afterChassis, PORT_ID)
      case None =>
      case Some((p, afterPort)) =>
        match ParseKind(afterPort, TIME_TO_LIVE)
        case None =>
        case Some((t, afterTtl)) => ParsedTlvsFit(afterTtl);
  }

  lemma KindRoundTrip(t: Tlv, tail: Bytes)
    requires FitsTlv(t)
    ensures ParseKind(PrintTlv(t) + tail, t.kind) == Some((t, tail))
  {
    FittingRoundTrip(t, tail);
  }

  lemma Regroup(a: Bytes, b: Bytes, c: Bytes, d: Bytes, e: Bytes, tail: Bytes)
    ensures a + (b + c) + d + e + tail == a + (b + (c + (d + (e + tail))))
  {
  }

  lemma PrintParts(u: DataUnit, tail: Bytes)
    ensures Print(u) + tail
         == PrintTlv(u.chassisId) +
            (PrintTlv(u.portId) + (PrintTlv(u.timeToLive) + (PrintTlvs(u.optional) + (END_MARKER + tail))))
  {
    Regroup(PrintTlv(u.chassisId), PrintTlv(u.portId), PrintTlv(u.timeToLive), PrintTlvs(u.optional), END_MARKER, tail);
  }

  lemma FittingUnitRoundTrip(u: DataUnit, tail: Bytes)
    requires FitsUnit(u)
    ensures Parse(Print(u) + tail) == Some(u)
  {
    var afterTtl := PrintTlvs(u.optional) + (END_MARKER + tail);
    var afterPort := PrintTlv(u.timeToLive) + afterTtl;
    var afterChassis := PrintTlv(u.portId) + afterPort;
    PrintParts(u, tail);
    KindRoundTrip(u.chassisId, afterChassis);
    KindRoundTrip(u.portId, afterPort);
    KindRoundTrip(u.timeToLive, afterTtl);
    TlvsRoundTrip(u.optional, tail);
  }

  /** Parsing a printed unit followed by arbitrary bytes gives that unit back exactly when its
      types and sizes fit the header. */
  lemma ParseAfterPrint(u: DataUnit, tail: Bytes)
    ensures Parse(Print(u) + tail) == Some(u) <==> FitsUnit(u)
  {
    if FitsUnit(u) {
      FittingUnitRoundTrip(u, tail);
    } else {
      ParsedUnitFits(Print(u) + tail);
    }
  }

  // ---------- The header bit by bit ----------

  function Bit(n: nat, k: nat): bool
    decreases k
  {
    if k == 0 then n % 2 == 1 else Bit(n / 2, k - 1)
  }

  lemma {:induction false} BitOrBits(a: nat, b: nat, k: nat)
    ensures Bit(BitOr(a, b), k) <==> Bit(a, k) || Bit(b, k)
    decreases k
  {
    ZeroBits(k);
    if k > 0 && a > 0 && b > 0 {
      BitOrBits(a / 2, b / 2, k - 1);
    }
  }

  lemma {:induction false} ZeroBits(k: nat)
    ensures !Bit(0, k)
  {
    if k > 0 {
      ZeroBits(k - 1);
    }
  }

  /** `q` shifted left by `m` bits. */
  function Shifted(q: nat, m: nat): nat {
    if m == 0 then q else 2 * Shifted(q, m - 1)
  }

  /** What is shifted above a bit does not change it. */
  lemma {:induction false} HighBits(n: nat, q: nat, m: nat, k: nat)
    requires k < m
    ensures Bit(n + Shifted(q, m), k) <==> Bit(n, k)
    decreases k
  {
    var s := Shifted(q, m - 1);
    assert (n + 2 * s) % 2 == n % 2 && (n + 2 * s) / 2 == n / 2 + s;
    if k > 0 {
      HighBits(n / 2, q, m - 1, k - 1);
    }
  }

  lemma ShiftedBySeven(q: nat)
    ensures Shifted(q, 7) == 0x80 * q
  {
    assert Shifted(q, 1) == 2 * Shifted(q, 0) && Shifted(q, 2) == 2 * Shifted(q, 1);
    assert Shifted(q, 3) == 2 * Shifted(q, 2) && Shifted(q, 4) == 2 * Shifted(q, 3);
    assert Shifted(q, 5) == 2 * Shifted(q, 4) && Shifted(q, 6) == 2 * Shifted(q, 5);
  }

  /** Seven bits are left of a number modulo 128. */
  lemma SevenBits(n: nat, k: nat)
    requires k < 7
    ensures Bit(n % 0x80, k) <==> Bit(n, k)
  {
    ShiftedBySeven(n / 0x80);
    HighBits(n % 0x80, n / 0x80, 7, k);
  }

  /** The header: nine bits of the length, and above them seven bits in which what is left of the length is
      or-ed into the type. */
  lemma HeaderBits(kind: Byte, size: nat)
    ensures Header(kind, size) % 0x200 == size % 0x200
    ensures forall k :: 0 <= k < 7 ==>
              (Bit(Header(kind, size) / 0x200, k) <==> Bit(kind, k) || Bit(size % 0x1_0000 / 0x200, k))
  {
    var high := BitOr(kind, size % 0x1_0000 / 0x200);
    assert Header(kind, size) / 0x200 == high % 0x80;
    forall k | 0 <= k < 7
      ensures Bit(Header(kind, size) / 0x200, k) <==> Bit(kind, k) || Bit(size % 0x1_0000 / 0x200, k)
    {
      SevenBits(high, k);
      BitOrBits(kind, size % 0x1_0000 / 0x200, k);
    }
  }

  // ---------- Print after parse ----------

  lemma PrintParsedTlv(bytes: Bytes)
    requires ParseTlv(bytes).Some?
    ensures var (t, rest) := ParseTlv(bytes).value; bytes == PrintTlv(t) + rest
  {
    var (t, rest) := ParseTlv(bytes).value;
    PrintFits(t);
    BigEndian16Of(bytes[0], bytes[1]);
    assert bytes[..2] == [bytes[0], bytes[1]];
  }

  lemma {:induction false} PrintParsedTlvs(bytes: Bytes)
    ensures PrintTlvs(ParseTlvs(bytes)) <= bytes
    decreases |bytes|
  {
    var r := ParseTlv(bytes);
    if r.Some? && r.value.0.kind != END_OF_LLDPDU {
      var (t, rest) := r.value;
      PrintParsedTlv(bytes);
      PrintParsedTlvs(rest);
      assert ParseTlvs(bytes)[1..] == ParseTlvs(rest);
      assert PrintTlvs(ParseTlvs(bytes)) == PrintTlv(t) + PrintTlvs(ParseTlvs(rest));
    }
  }

  /** The three mandatory TLVs and the bytes after them. */
  lemma MandatoryParts(bytes: Bytes) returns (afterTtl: Bytes)
    requires Parse(bytes).Some?
    ensures bytes == PrintMandatory(Parse(bytes).value) + afterTtl
    ensures Parse(bytes).value.optional == ParseTlvs(afterTtl)
  {
    var (c, afterChassis) := ParseKind(bytes, CHASSIS_ID).value;
    var (p, afterPort) := ParseKind(afterChassis, PORT_ID).value;
    var (t, rest) := ParseKind(afterPort, TIME_TO_LIVE).value;
    afterTtl := rest;
    PrintParsedTlv(bytes);
    PrintParsedTlv(afterChassis);
    PrintParsedTlv(afterPort);
  }

  /** Whatever parses, printing it again reproduces, up to the end marker, the front of the input. */
  lemma PrintAfterParse(bytes: Bytes)
    requires Parse(bytes).Some?
    ensures PrintBody(Parse(bytes).value) <= bytes
  {
    var afterTtl := MandatoryParts(bytes);
    PrintParsedTlvs(afterTtl);
  }

  // ---------- The loops ----------

  /** A TLV parses at the front of a span exactly if it fits and its print is there. */
  lemma ParsesIff(bytes: Bytes, t: Tlv, rest: Bytes)
    ensures ParseTlv(bytes) == Some((t, rest)) <==> FitsTlv(t) && bytes == PrintTlv(t) + rest
  {
    if ParseTlv(bytes) == Some((t, rest)) {
      PrintParsedTlv(bytes);
    }
    if FitsTlv(t) {
      TlvRoundTrip(t, rest);
    }
  }

  /** What taking one TLV off a span gives: nothing consumed if none parses. */
  predicate Taken(bytes: Bytes, tlv: Option<Tlv>, remaining: Bytes) {
    match ParseTlv(bytes)
    case None => tlv == None && remaining == bytes
    case Some((t, rest)) => tlv == Some(t) && remaining == rest
  }

  /** `LLDPDUTypeLengthValue::FromSpan`: consumes the TLV whose print is at the front of the span, or
      nothing if there is none. */
  method TlvFromSpan(bytes: Bytes) returns (tlv: Option<Tlv>, remaining: Bytes)
    ensures Taken(bytes, tlv, remaining)
    ensures tlv.Some? ==> FitsTlv(tlv.value) && bytes == PrintTlv(tlv.value) + remaining
    ensures tlv.None? ==> remaining == bytes && forall t, rest :: FitsTlv(t) ==> bytes != PrintTlv(t) + rest
  {
    ghost var parsed := ParseTlv(bytes);
    if parsed.Some? {
      ParsesIff(bytes, parsed.value.0, parsed.value.1);
    }
    forall t, rest | FitsTlv(t) ensures parsed.None? ==> bytes != PrintTlv(t) + rest {
      ParsesIff(bytes, t, rest);
    }
    if |bytes| < 2 {
      return None, bytes;
    }
    var header := FromBigEndian16(bytes[0], bytes[1]);
    var size := header % 0x200;
    var kind := header / 0x200;
    if size + 2 > |bytes| {
      return None, bytes;
    }
    return Some(Tlv(kind, bytes[2..2 + size])), bytes[2 + size..];
  }

  /** The TLVs found so far and those still in the span make up `goal`. */
  predicate Parsing(others: seq<Tlv>, current: Bytes, goal: seq<Tlv>) {
    others + ParseTlvs(current) == goal
  }

  lemma ParsingStarts(bytes: Bytes)
    ensures Parsing([], bytes, ParseTlvs(bytes))
  {
    assert [] + ParseTlvs(bytes) == ParseTlvs(bytes);
  }

  lemma ParsingNext(others: seq<Tlv>, current: Bytes, goal: seq<Tlv>, t: Tlv, rest: Bytes)
    requires Parsing(others, current, goal)
    requires ParseTlv(current) == Some((t, rest)) && t.kind != END_OF_LLDPDU
    ensures Parsing(others + [t], rest, goal) && |rest| < |current|
  {
    assert others + ([t] + ParseTlvs(rest)) == (others + [t]) + ParseTlvs(rest);
  }

  lemma ParsingEnds(others: seq<Tlv>, current: Bytes, goal: seq<Tlv>)
    requires Parsing(others, current, goal)
    requires ParseTlv(current).Some? ==> ParseTlv(current).value.0.kind == END_OF_LLDPDU
    ensures others == goal
  {
    assert others + [] == others;
  }

  /** The loop over the optional TLVs: it stops at the end marker or at the first TLV that does not
      parse. */
  method TlvsFromSpan(bytes: Bytes) returns (others: seq<Tlv>)
    ensures others == ParseTlvs(bytes)
  {
    others := [];
    ghost var goal := ParseTlvs(bytes);
    var current := bytes;
    ParsingStarts(bytes);
    var tlv, remaining := TlvFromSpan(current);
    while tlv.Some? && tlv.value.kind != END_OF_LLDPDU
      invariant Taken(current, tlv, remaining) && Parsing(others, current, goal)
      decreases |current|
    {
      ParsingNext(others, current, goal, tlv.value, remaining);
      others := others + [tlv.value];
      current := remaining;
      tlv, remaining := TlvFromSpan(current);
    }
    ParsingEnds(others, current, goal);
  }

  /** `LLDPDataUnit::FromSpan`: three mandatory TLVs, then the optional ones. */
  method UnitFromSpan(bytes: Bytes) returns (unit: Option<DataUnit>)
    ensures unit == Parse(bytes)
  {
    var chassisId, afterChassis := TlvFromSpan(bytes);
    if chassisId.None? || chassisId.value.kind != CHASSIS_ID {
      return None;
    }
    var portId, afterPort := TlvFromSpan(afterChassis);
    if portId.None? || portId.value.kind != PORT_ID {
      return None;
    }
    var timeToLive, afterTtl := TlvFromSpan(afterPort);
    if timeToLive.None? || timeToLive.value.kind != TIME_TO_LIVE {
      return None;
    }
    var others := TlvsFromSpan(afterTtl);
    return Some(DataUnit(chassisId.value, portId.value, timeToLive.value, others));
  }

  lemma {:induction false} PrintTlvsAppend(ts: seq<Tlv>, t: Tlv)
    ensures PrintTlvs(ts + [t]) == PrintTlvs(ts) + PrintTlv(t)
  {
    if ts == [] {
      assert [t][1..] == [];
      assert PrintTlvs([t]) == PrintTlv(t) + [];
    } else {
      assert (ts + [t])[1..] == ts[1..] + [t];
      PrintTlvsAppend(ts[1..], t);
    }
  }

  /** What printing the i-th TLV does to what is printed and to what is left. */
  lemma PrintTlvsAt(ts: seq<Tlv>, i: nat)
    requires i < |ts|
    ensures PrintTlvs(ts[..i + 1]) == PrintTlvs(ts[..i]) + PrintTlv(ts[i])
    ensures PrintTlvs(ts[i..]) == PrintTlv(ts[i]) + PrintTlvs(ts[i + 1..])
  {
    assert ts[..i + 1] == ts[..i] + [ts[i]];
    assert ts[i..][1..] == ts[i + 1..];
    PrintTlvsAppend(ts[..i], ts[i]);
  }

  /** `LLDPDataUnit::GetFrameBufferSize` is the length of what is printed. */
  method UnitBufferSize(u: DataUnit) returns (size: nat)
    ensures size == |Print(u)|
  {
    size := TlvSize(u.chassisId) + TlvSize(u.portId) + TlvSize(u.timeToLive);
    for i := 0 to |u.optional|
      invariant size == TlvSize(u.chassisId) + TlvSize(u.portId) + TlvSize(u.timeToLive) + |PrintTlvs(u.optional[..i])|
    {
      PrintTlvsAt(u.optional, i);
      size := size + TlvSize(u.optional[i]);
    }
    assert u.optional[..|u.optional|] == u.optional;
    size := size + |END_MARKER|;
  }

  /** A buffer after `bytes` were written at `pos`: nothing else in it changes. */
  function Written(buffer: Bytes, pos: nat, bytes: Bytes): (r: Bytes)
    requires pos + |bytes| <= |buffer|
    ensures |r| == |buffer|
  {
    buffer[..pos] + bytes + buffer[pos + |bytes|..]
  }

  lemma WrittenTwice(buffer: Bytes, pos: nat, a: Bytes, b: Bytes)
    requires pos + |a| + |b| <= |buffer|
    ensures Written(Written(buffer, pos, a), pos + |a|, b) == Written(buffer, pos, a + b)
  {
  }

  /** `std::ranges::copy` into the buffer at `pos`; the result is the advanced position. */
  method CopyTo(buffer: array<Byte>, pos: nat, bytes: Bytes) returns (next: nat)
    requires pos + |bytes| <= buffer.Length
    modifies buffer
    ensures next == pos + |bytes|
    ensures buffer[..] == Written(old(buffer[..]), pos, bytes)
  {
    forall i | 0 <= i < |bytes| {
      buffer[pos + i] := bytes[i];
    }
    next := pos + |bytes|;
  }

  method TlvToBuffer(t: Tlv, buffer: array<Byte>, pos: nat) returns (next: nat)
    requires pos + TlvSize(t) <= buffer.Length
    modifies buffer
    ensures next == pos + TlvSize(t)
    ensures buffer[..] == Written(old(buffer[..]), pos, PrintTlv(t))
  {
    next := CopyTo(buffer, pos, BigEndian16(Header(t.kind, |t.value|)));
    next := CopyTo(buffer, next, t.value);
    WrittenTwice(old(buffer[..]), pos, BigEndian16(Header(t.kind, |t.value|)), t.value);
  }

  method TlvsToBuffer(ts: seq<Tlv>, buffer: array<Byte>, pos: nat) returns (next: nat)
    requires pos + |PrintTlvs(ts)| <= buffer.Length
    modifies buffer
    ensures next == pos + |PrintTlvs(ts)|
    ensures buffer[..] == Written(old(buffer[..]), pos, PrintTlvs(ts))
  {
    next := pos;
    assert ts[..0] == [] && ts[0..] == ts;
    for i := 0 to |ts|
      invariant next == pos + |PrintTlvs(ts[..i])|
      invariant |PrintTlvs(ts[..i])| + |PrintTlvs(ts[i..])| == |PrintTlvs(ts)|
      invariant buffer[..] == Written(old(buffer[..]), pos, PrintTlvs(ts[..i]))
    {
      PrintTlvsAt(ts, i);
      WrittenTwice(old(buffer[..]), pos, PrintTlvs(ts[..i]), PrintTlv(ts[i]));
      next := TlvToBuffer(ts[i], buffer, next);
    }
    assert ts[..|ts|] == ts;
  }

  method MandatoryToBuffer(u: DataUnit, buffer: array<Byte>, pos: nat) returns (next: nat)
    requires pos + |PrintMandatory(u)| <= buffer.Length
    modifies buffer
    ensures next == pos + |PrintMandatory(u)|
    ensures buffer[..] == Written(old(buffer[..]), pos, PrintMandatory(u))
  {
    next := TlvToBuffer(u.chassisId, buffer, pos);
    var second := next;
    next := TlvToBuffer(u.portId, buffer, next);
    next := TlvToBuffer(u.timeToLive, buffer, next);
    WrittenTwice(Written(old(buffer[..]), pos, PrintTlv(u.chassisId)), second,
                 PrintTlv(u.portId), PrintTlv(u.timeToLive));
    WrittenTwice(old(buffer[..]), pos, PrintTlv(u.chassisId), PrintTlv(u.portId) + PrintTlv(u.timeToLive));
  }

  method BodyToBuffer(u: DataUnit, buffer: array<Byte>, pos: nat) returns (next: nat)
    requires pos + |PrintBody(u)| <= buffer.Length
    modifies buffer
    ensures next == pos + |PrintBody(u)|
    ensures buffer[..] == Written(old(buffer[..]), pos, PrintBody(u))
  {
    next := MandatoryToBuffer(u, buffer, pos);
    next := TlvsToBuffer(u.optional, buffer, next);
    WrittenTwice(old(buffer[..]), pos, PrintMandatory(u), PrintTlvs(u.optional));
  }

  /** `LLDPDataUnit::ToFrameBuffer`. */
  method UnitToBuffer(u: DataUnit, buffer: array<Byte>, pos: nat) returns (next: nat)
    requires pos + |Print(u)| <= buffer.Length
    modifies buffer
    ensures next == pos + |Print(u)|
    ensures buffer[..] == Written(old(buffer[..]), pos, Print(u))
  {
    next := BodyToBuffer(u, buffer, pos);
    next := CopyTo(buffer, next, END_MARKER);
    WrittenTwice(old(buffer[..]), pos, PrintBody(u), END_MARKER);
  }
}
