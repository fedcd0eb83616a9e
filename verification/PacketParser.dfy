/** `parse_ipv4_transport` in `packet.rs`: the parser, a packet grammar, and how they agree. */
module PacketParser {
  import opened Prelude
  import opened TransportTypes
  import opened FlowTypes

  datatype PacketError =
    | Truncated | NotIpv4 | InvalidIpv4Header | UnsupportedTransport | InvalidTransportHeader | UnknownDirection

  datatype Parsed = Meta(meta: PacketMeta) | Rejected(error: PacketError)

  /** The four address bytes in the 16-byte field. */
  function Widened(address: seq<byte>): (r: seq<byte>)
    requires |address| == 4
    ensures |r| == 16
  {
    address + seq(12, _ => 0 as byte)
  }

  /** The endpoint pair seen from this host: remote first. */
  function Oriented<T>(direction: Direction, source: T, destination: T): (T, T) {
    if direction.Outbound? then (destination, source) else (source, destination)
  }

  function FlowOf(protocol: Protocol, direction: Direction, src: seq<byte>, dst: seq<byte>,
                  srcPort: u16, dstPort: u16): FlowKey
    requires |src| == 4 && |dst| == 4
  {
    var (remotePort, localPort) := Oriented(direction, srcPort, dstPort);
    FlowKey(protocol, Widened(Oriented(direction, src, dst).0), remotePort, localPort)
  }

  function ParseIpv4Transport(bytes: seq<byte>, direction: Direction): Parsed {
    if |bytes| < 20 then Rejected(PacketError.Truncated)
    else if bytes[0] / 16 != 4 then Rejected(NotIpv4)
    else
      var ihl: int := bytes[0] % 16 * 4;
      if ihl < 20 || |bytes| < ihl then Rejected(InvalidIpv4Header)
      else
        var totalLen: int := U16(bytes[2], bytes[3]);
        if totalLen < ihl || totalLen > |bytes| then Rejected(PacketError.Truncated)
        else if direction.Undirected? then Rejected(UnknownDirection)
        else if bytes[9] == 6 then ParseTcp(bytes, direction, ihl, totalLen)
        else if bytes[9] == 17 then ParseUdp(bytes, direction, ihl, totalLen)
        else Rejected(UnsupportedTransport)
  }

  function ParseTcp(bytes: seq<byte>, direction: Direction, ihl: nat, totalLen: nat): Parsed
    requires 20 <= ihl <= totalLen <= |bytes|
  {
    if totalLen < ihl + 20 then Rejected(InvalidTransportHeader)
    else
      var srcPort, dstPort := U16(bytes[ihl], bytes[ihl + 1]), U16(bytes[ihl + 2], bytes[ihl + 3]);
      var dataOffset: int := bytes[ihl + 12] / 16 * 4;
      if dataOffset < 20 || ihl + dataOffset > totalLen then Rejected(InvalidTransportHeader)
      else
        Meta(PacketMeta(FlowOf(Tcp, direction, bytes[12..16], bytes[16..20], srcPort, dstPort),
                        direction, totalLen - ihl - dataOffset, bytes[ihl + 13]))
  }

  function ParseUdp(bytes: seq<byte>, direction: Direction, ihl: nat, totalLen: nat): Parsed
    requires 20 <= ihl <= totalLen <= |bytes|
  {
    if totalLen < ihl + 8 then Rejected(InvalidTransportHeader)
    else
      var srcPort, dstPort := U16(bytes[ihl], bytes[ihl + 1]), U16(bytes[ihl + 2], bytes[ihl + 3]);
      var udpLen: int := U16(bytes[ihl + 4], bytes[ihl + 5]);
      if udpLen < 8 || ihl + udpLen > totalLen then Rejected(InvalidTransportHeader)
      else
        Meta(PacketMeta(FlowOf(Udp, direction, bytes[12..16], bytes[16..20], srcPort, dstPort),
                        direction, udpLen - 8, 0))
  }

  // --- Packets as trees ---

  /** `middle` holds sequence and acknowledgement numbers, `last` window, checksum and urgent pointer. */
  datatype Segment =
    | TcpSegment(srcPort: u16, dstPort: u16, middle: seq<byte>, reserved: nat, flags: byte, last: seq<byte>,
                 options: seq<byte>, payload: seq<byte>)
    | UdpDatagram(srcPort: u16, dstPort: u16, checksum: seq<byte>, payload: seq<byte>, padding: seq<byte>)

  /** `tos`, `ident` (identification, fragment fields and time to live) and `checksum` are not looked at. */
  datatype Packet = Packet(tos: byte, ident: seq<byte>, checksum: seq<byte>, src: seq<byte>, dst: seq<byte>,
                           options: seq<byte>, segment: Segment)

  predicate OptionsOk(options: seq<byte>) {
    |options| <= 40 && |options| % 4 == 0
  }

  predicate SegmentOk(s: Segment) {
    match s
    case TcpSegment(_, _, middle, reserved, _, last, options, _) =>
      |middle| == 8 && reserved < 16 && |last| == 6 && OptionsOk(options)
    case UdpDatagram(_, _, checksum, payload, _) => |checksum| == 2 && 8 + |payload| < 0x1_0000
  }

  function SegmentBytes(s: Segment): seq<byte>
    requires SegmentOk(s)
  {
    match s
    case TcpSegment(srcPort, dstPort, middle, reserved, flags, last, options, payload) =>
      (Bytes16(srcPort) + Bytes16(dstPort)) + (middle + (Single((5 + |options| / 4) * 16 + reserved)
        + (Single(flags) + (last + (options + payload)))))
    case UdpDatagram(srcPort, dstPort, checksum, payload, padding) =>
      (Bytes16(srcPort) + Bytes16(dstPort)) + (Bytes16(8 + |payload|) + (checksum + (payload + padding)))
  }

  predicate PacketOk(p: Packet) {
    && |p.ident| == 5 && |p.checksum| == 2 && |p.src| == 4 && |p.dst| == 4 && OptionsOk(p.options)
    && SegmentOk(p.segment) && 20 + |p.options| + |SegmentBytes(p.segment)| < 0x1_0000
  }

  function TotalLength(p: Packet): u16
    requires PacketOk(p)
  {
    20 + |p.options| + |SegmentBytes(p.segment)|
  }

  function HeaderBytes(p: Packet): (h: seq<byte>)
    requires PacketOk(p)
    ensures |h| == 20
  {
    (Single(0x45 + |p.options| / 4) + (Single(p.tos) + Bytes16(TotalLength(p))))
    + ((p.ident + Single(if p.segment.TcpSegment? then 6 else 17)) + (p.checksum + (p.src + p.dst)))
  }

  function PacketBytes(p: Packet): seq<byte>
    requires PacketOk(p)
  {
    HeaderBytes(p) + (p.options + SegmentBytes(p.segment))
  }

  /** What the parser should report for a packet. */
  function MetaOf(p: Packet, direction: Direction): PacketMeta
    requires PacketOk(p)
  {
    var protocol := if p.segment.TcpSegment? then Tcp else Udp;
    PacketMeta(FlowOf(protocol, direction, p.src, p.dst, p.segment.srcPort, p.segment.dstPort), direction,
               |p.segment.payload|, if p.segment.TcpSegment? then p.segment.flags else 0)
  }

  // --- The parser reads what the grammar writes ---

  lemma HeaderFields(p: Packet)
    requires PacketOk(p)
    ensures var h := HeaderBytes(p);
            && h[0] == 0x45 + |p.options| / 4 && U16(h[2], h[3]) == TotalLength(p)
            && h[9] == (if p.segment.TcpSegment? then 6 else 17)
            && h[12..16] == p.src && h[16..20] == p.dst
  {
    hide SegmentBytes, SegmentOk;
    var h, back := HeaderBytes(p), p.checksum + (p.src + p.dst);
    assert h[2..4] == Bytes16(TotalLength(p));
    assert h[10..] == back && back[2..6] == p.src && back[6..10] == p.dst;
  }

  lemma TcpFields(s: Segment)
    requires SegmentOk(s) && s.TcpSegment?
    ensures var b := SegmentBytes(s);
            && |b| == 20 + |s.options| + |s.payload|
            && U16(b[0], b[1]) == s.srcPort && U16(b[2], b[3]) == s.dstPort
            && b[12] / 16 * 4 == 20 + |s.options| && b[13] == s.flags
  {
    var b := SegmentBytes(s);
    assert b[..2] == Bytes16(s.srcPort) && b[2..4] == Bytes16(s.dstPort);
  }

  lemma UdpFields(s: Segment)
    requires SegmentOk(s) && s.UdpDatagram?
    ensures var b := SegmentBytes(s);
            && |b| == 8 + |s.payload| + |s.padding|
            && U16(b[0], b[1]) == s.srcPort && U16(b[2], b[3]) == s.dstPort && U16(b[4], b[5]) == 8 + |s.payload|
  {
    var b := SegmentBytes(s);
    assert b[..2] == Bytes16(s.srcPort) && b[2..4] == Bytes16(s.dstPort) && b[4..6] == Bytes16(8 + |s.payload|);
  }

  /** Every packet with any IP and TCP options parses to its own metadata, whatever bytes follow it in the buffer. */
  lemma ParsesEveryPacket(p: Packet, after: seq<byte>, direction: Direction)
    requires PacketOk(p) && !direction.Undirected?
    ensures ParseIpv4Transport(PacketBytes(p) + after, direction) == Meta(MetaOf(p, direction))
  {
    hide HeaderBytes, SegmentBytes, SegmentOk, Widened;
    var b, h, s := PacketBytes(p) + after, HeaderBytes(p), SegmentBytes(p.segment);
    HeaderFields(p);
    assert b[..20] == h && b[12..16] == h[12..16] && b[16..20] == h[16..20];
    var ihl: nat := 20 + |p.options|;
    assert b[ihl..ihl + |s|] == s;
    assert b[0] == h[0] && b[2] == h[2] && b[3] == h[3] && b[9] == h[9];
    assert b[0] / 16 == 4 && b[0] % 16 * 4 == ihl;
    assert forall i :: 0 <= i < |s| ==> b[ihl + i] == s[i];
    if p.segment.TcpSegment? {
      TcpFields(p.segment);
    } else {
      UdpFields(p.segment);
    }
  }

  // --- The grammar writes what the parser reads ---

  /** The segment at the front of `b`, which runs to the end of the packet. */
  function SegmentAt(b: seq<byte>, tcp: bool): Segment
    requires |b| >= 8
    requires tcp ==> |b| >= 20 && 20 <= b[12] / 16 * 4 <= |b|
    requires !tcp ==> 8 <= U16(b[4], b[5]) <= |b|
  {
    var srcPort, dstPort := U16(b[0], b[1]), U16(b[2], b[3]);
    if tcp then
      var offset: int := b[12] / 16 * 4;
      TcpSegment(srcPort, dstPort, b[4..12], b[12] % 16, b[13], b[14..20], b[20..offset], b[offset..])
    else
      var n: int := U16(b[4], b[5]);
      UdpDatagram(srcPort, dstPort, b[6..8], b[8..n], b[n..])
  }

  lemma PortsRebuilt(b: seq<byte>)
    requires |b| >= 4
    ensures Bytes16(U16(b[0], b[1])) + Bytes16(U16(b[2], b[3])) == b[..4]
  {
    Bytes16OfU16(b[0], b[1]);
    Bytes16OfU16(b[2], b[3]);
  }

  lemma TcpRebuilt(b: seq<byte>)
    requires |b| >= 20 && 20 <= b[12] / 16 * 4 <= |b|
    ensures SegmentOk(SegmentAt(b, true)) && SegmentBytes(SegmentAt(b, true)) == b
  {
    PortsRebuilt(b);
    var s := SegmentAt(b, true);
    assert (5 + |s.options| / 4) * 16 + s.reserved == b[12];
    assert b[4..] == b[4..12] + (Single(b[12]) + (Single(b[13]) + (b[14..20] + (s.options + s.payload))));
    assert b == b[..4] + b[4..];
  }

  lemma UdpRebuilt(b: seq<byte>)
    requires |b| >= 8 && 8 <= U16(b[4], b[5]) <= |b|
    ensures SegmentOk(SegmentAt(b, false)) && SegmentBytes(SegmentAt(b, false)) == b
  {
    PortsRebuilt(b);
    Bytes16OfU16(b[4], b[5]);
    var s := SegmentAt(b, false);
    assert b[4..] == [b[4], b[5]] + (b[6..8] + (s.payload + s.padding));
    assert b == b[..4] + b[4..];
  }

  function PacketAt(b: seq<byte>, ihl: nat, s: Segment): Packet
    requires 20 <= ihl <= |b|
  {
    Packet(b[1], b[4..9], b[10..12], b[12..16], b[16..20], b[20..ihl], s)
  }

  lemma HeaderRebuilt(b: seq<byte>, ihl: nat, s: Segment)
    requires |b| >= 20 && 20 <= ihl <= |b| && ihl % 4 == 0 && b[0] == 0x40 + ihl / 4
    requires PacketOk(PacketAt(b, ihl, s)) && TotalLength(PacketAt(b, ihl, s)) == U16(b[2], b[3])
    requires b[9] == (if s.TcpSegment? then 6 else 17)
    ensures HeaderBytes(PacketAt(b, ihl, s)) == b[..20]
  {
    hide SegmentBytes;
    var p := PacketAt(b, ihl, s);
    Bytes16OfU16(b[2], b[3]);
    assert b[..4] == Single(b[0]) + (Single(p.tos) + [b[2], b[3]]);
    assert b[4..10] == p.ident + Single(b[9]);
    assert b[10..20] == p.checksum + (p.src + p.dst);
    assert b[..20] == b[..4] + (b[4..10] + b[10..20]);
  }

  lemma PacketAtRebuilt(b: seq<byte>, ihl: nat, s: Segment)
    requires |b| >= 20 && 20 <= ihl <= U16(b[2], b[3]) <= |b| && ihl % 4 == 0 && b[0] == 0x40 + ihl / 4 && ihl <= 60
    requires SegmentOk(s) && SegmentBytes(s) == b[ihl..U16(b[2], b[3])]
    requires b[9] == (if s.TcpSegment? then 6 else 17)
    ensures PacketOk(PacketAt(b, ihl, s)) && PacketBytes(PacketAt(b, ihl, s)) == b[..U16(b[2], b[3])]
  {
    hide SegmentBytes, SegmentOk, HeaderBytes;
    HeaderRebuilt(b, ihl, s);
    var totalLen: int := U16(b[2], b[3]);
    assert b[..totalLen] == b[..20] + (b[20..ihl] + b[ihl..totalLen]);
  }

  /** The bytes an accepted buffer holds up to its total length are those of a packet. */
  lemma PacketRebuilt(b: seq<byte>, direction: Direction) returns (p: Packet)
    requires ParseIpv4Transport(b, direction).Meta?
    ensures PacketOk(p) && PacketBytes(p) == b[..U16(b[2], b[3])]
  {
    hide PacketOk, PacketBytes, SegmentOk, SegmentBytes, FlowOf;
    var ihl: int := b[0] % 16 * 4;
    var body := b[ihl..U16(b[2], b[3])];
    if b[9] == 6 {
      TcpRebuilt(body);
    } else {
      UdpRebuilt(body);
    }
    var s := SegmentAt(body, b[9] == 6);
    PacketAtRebuilt(b, ihl, s);
    p := PacketAt(b, ihl, s);
  }

  /** Every accepted buffer is a packet of the grammar followed by ignored bytes, and the metadata is that packet's. */
  lemma AcceptsOnlyPackets(b: seq<byte>, direction: Direction) returns (p: Packet, after: seq<byte>)
    requires ParseIpv4Transport(b, direction).Meta?
    ensures PacketOk(p) && PacketBytes(p) + after == b
    ensures ParseIpv4Transport(b, direction) == Meta(MetaOf(p, direction))
  {
    p := PacketRebuilt(b, direction);
    after := b[U16(b[2], b[3])..];
    assert b == PacketBytes(p) + after;
    ParsesEveryPacket(p, after, direction);
  }

  ghost predicate StartsWith(b: seq<byte>, p: Packet) {
    PacketOk(p) && PacketBytes(p) <= b
  }

  /** Given a direction, the parser accepts exactly the buffers that start with a packet of the grammar. */
  lemma AcceptedExactly(b: seq<byte>, direction: Direction)
    ensures ParseIpv4Transport(b, direction).Meta? <==> !direction.Undirected? && exists p: Packet :: StartsWith(b, p)
  {
    hide ParseIpv4Transport, PacketOk, PacketBytes, MetaOf;
    if ParseIpv4Transport(b, direction).Meta? {
      var p, after := AcceptsOnlyPackets(b, direction);
      assert StartsWith(b, p);
      UndirectedRejected(b);
    }
    if !direction.Undirected? {
      forall p: Packet | StartsWith(b, p)
        ensures ParseIpv4Transport(b, direction).Meta?
      {
        assert PacketBytes(p) + b[|PacketBytes(p)|..] == b;
        ParsesEveryPacket(p, b[|PacketBytes(p)|..], direction);
      }
    }
  }

  /** Without a direction nothing is accepted. */
  lemma UndirectedRejected(b: seq<byte>)
    ensures ParseIpv4Transport(b, Undirected).Rejected?
  {
  }

  // --- The same by byte positions, independent of the grammar's helpers ---

  /** The header a packet is written with: version and length, total length, protocol number and addresses in place. */
  lemma HeaderOnTheWire(p: Packet)
    requires PacketOk(p)
    ensures var b, n := PacketBytes(p), |PacketBytes(p)|;
            && n == 20 + |p.options| + |SegmentBytes(p.segment)| && n < 0x1_0000
            && b[0] == 0x45 + |p.options| / 4 && b[1] == p.tos && b[2] == n / 0x100 && b[3] == n % 0x100
            && b[4..9] == p.ident && b[9] == (if p.segment.TcpSegment? then 6 else 17) && b[10..12] == p.checksum
            && b[12..16] == p.src && b[16..20] == p.dst
            && b[20..20 + |p.options|] == p.options && b[20 + |p.options|..] == SegmentBytes(p.segment)
  {
    hide SegmentBytes, SegmentOk;
    var h, b := HeaderBytes(p), PacketBytes(p);
    assert b[..20] == h && b[20..] == p.options + SegmentBytes(p.segment);
    HeaderFields(p);
    HeaderRest(p);
    assert forall i: nat :: i < 20 ==> b[i] == h[i];
    assert b[4..9] == h[4..9] && b[10..12] == h[10..12] && b[12..16] == h[12..16] && b[16..20] == h[16..20];
  }

  lemma HeaderRest(p: Packet)
    requires PacketOk(p)
    ensures var h, n := HeaderBytes(p), TotalLength(p);
            && h[1] == p.tos && h[2] == n / 0x100 && h[3] == n % 0x100 && h[4..9] == p.ident && h[10..12] == p.checksum
  {
    hide SegmentBytes, SegmentOk;
    var h := HeaderBytes(p);
    assert h[4..10] == p.ident + Single(if p.segment.TcpSegment? then 6 else 17);
    assert h[4..9] == h[4..10][..5];
  }

  /** Ports come first in either segment, high byte first; then come a TCP header's nibble and flags or a UDP length. */
  lemma SegmentOnTheWire(s: Segment)
    requires SegmentOk(s)
    ensures var b := SegmentBytes(s);
            && |b| >= 8
            && b[0] == s.srcPort / 0x100 && b[1] == s.srcPort % 0x100
            && b[2] == s.dstPort / 0x100 && b[3] == s.dstPort % 0x100
            && (s.TcpSegment? ==>
                  && |b| == 20 + |s.options| + |s.payload|
                  && b[12] == (5 + |s.options| / 4) * 16 + s.reserved && b[13] == s.flags)
            && (s.UdpDatagram? ==>
                  && |b| == 8 + |s.payload| + |s.padding|
                  && b[4] == (8 + |s.payload|) / 0x100 && b[5] == (8 + |s.payload|) % 0x100)
  {
    var b := SegmentBytes(s);
    assert b[..4] == Bytes16(s.srcPort) + Bytes16(s.dstPort);
  }

  /** Outbound packets have their destination as the remote end, inbound ones their source. */
  lemma RemoteEnd(p: Packet, after: seq<byte>)
    requires PacketOk(p)
    ensures var r := ParseIpv4Transport(PacketBytes(p) + after, Outbound);
            && r.Meta?
            && r.meta.flow.remotePort == p.segment.dstPort && r.meta.flow.localPort == p.segment.srcPort
            && r.meta.flow.remoteIp == p.dst + [0, 0, 0, 0, 0, 0, 0, 0, 0, 0, 0, 0]
            && (r.meta.flow.protocol == if p.segment.TcpSegment? then Tcp else Udp)
            && r.meta.direction == Outbound && r.meta.payloadLen == |p.segment.payload|
            && r.meta.tcpFlags == (if p.segment.TcpSegment? then p.segment.flags else 0)
    ensures var r := ParseIpv4Transport(PacketBytes(p) + after, Inbound);
            && r.Meta?
            && r.meta.flow.remotePort == p.segment.srcPort && r.meta.flow.localPort == p.segment.dstPort
            && r.meta.flow.remoteIp == p.src + [0, 0, 0, 0, 0, 0, 0, 0, 0, 0, 0, 0]
            && (r.meta.flow.protocol == if p.segment.TcpSegment? then Tcp else Udp)
            && r.meta.direction == Inbound && r.meta.payloadLen == |p.segment.payload|
            && r.meta.tcpFlags == (if p.segment.TcpSegment? then p.segment.flags else 0)
  {
    hide ParseIpv4Transport, PacketBytes, PacketOk;
    ParsesEveryPacket(p, after, Outbound);
    ParsesEveryPacket(p, after, Inbound);
  }

  /** Which error a rejected buffer gets. */
  lemma RejectionsExactly(b: seq<byte>, direction: Direction)
    ensures var r := ParseIpv4Transport(b, direction);
            && (|b| < 20 ==> r == Rejected(PacketError.Truncated))
            && (|b| >= 20 ==>
                  var ihl: int, total: int, known := b[0] % 16 * 4, 0x100 * b[2] as int + b[3], !direction.Undirected?;
                  && (r == Rejected(NotIpv4) <==> b[0] / 16 != 4)
                  && (r == Rejected(InvalidIpv4Header) <==> b[0] / 16 == 4 && (ihl < 20 || |b| < ihl))
                  && (r == Rejected(PacketError.Truncated) <==>
                        b[0] / 16 == 4 && 20 <= ihl <= |b| && (total < ihl || total > |b|))
                  && (b[0] / 16 == 4 && 20 <= ihl <= total <= |b| ==>
                        && (r == Rejected(UnknownDirection) <==> !known)
                        && (r == Rejected(UnsupportedTransport) <==> known && b[9] != 6 && b[9] != 17)
                        && (r == Rejected(InvalidTransportHeader) <==>
                              known
                              && ((b[9] == 6 && BadTcp(b, ihl, total)) || (b[9] == 17 && BadUdp(b, ihl, total))))))
  {
  }

  /** No room for a TCP header, or a data offset outside the packet. */
  predicate BadTcp(b: seq<byte>, ihl: nat, total: nat)
    requires ihl <= total <= |b|
  {
    total < ihl + 20 || b[ihl + 12] / 16 < 5 || ihl + b[ihl + 12] as int / 16 * 4 > total
  }

  /** No room for a UDP header, or a length field outside the packet. */
  predicate BadUdp(b: seq<byte>, ihl: nat, total: nat)
    requires ihl <= total <= |b|
  {
    total < ihl + 8 ||
    var length := 0x100 * b[ihl + 4] as int + b[ihl + 5];
    length < 8 || ihl + length > total
  }

  /** The packets of the tests in `packet.rs`, byte by byte, with any addresses and ports. */
  function TestPacket(src: seq<byte>, dst: seq<byte>, srcPort: u16, dstPort: u16): seq<byte> {
    [0x45, 0, 0, 40, 0, 0, 0, 0, 0, 6, 0, 0] + (src + (dst
    + ([srcPort / 0x100, srcPort % 0x100, dstPort / 0x100, dstPort % 0x100]
       + [0, 0, 0, 0, 0, 0, 0, 0, 0x50, 0, 0, 0, 0, 0, 0, 0])))
  }

  lemma TestPacketBytes(src: seq<byte>, dst: seq<byte>, srcPort: u16, dstPort: u16)
    requires |src| == 4 && |dst| == 4
    ensures var b := TestPacket(src, dst, srcPort, dstPort);
            && |b| == 40 && b[0] == 0x45 && b[2] == 0 && b[3] == 40 && b[9] == 6
            && b[12..16] == src && b[16..20] == dst
            && b[20] == srcPort / 0x100 && b[21] == srcPort % 0x100
            && b[22] == dstPort / 0x100 && b[23] == dstPort % 0x100 && b[32] == 0x50 && b[33] == 0
  {
  }

  /** Outbound the remote end is the destination, inbound the source, and without a direction there is an error. */
  lemma TestPackets(src: seq<byte>, dst: seq<byte>, srcPort: u16, dstPort: u16)
    requires |src| == 4 && |dst| == 4
    ensures var b, zeros := TestPacket(src, dst, srcPort, dstPort), seq(12, _ => 0);
            && ParseIpv4Transport(b, Outbound) ==
               Meta(PacketMeta(FlowKey(Tcp, dst + zeros, dstPort, srcPort), Outbound, 0, 0))
            && ParseIpv4Transport(b, Inbound) ==
               Meta(PacketMeta(FlowKey(Tcp, src + zeros, srcPort, dstPort), Inbound, 0, 0))
            && ParseIpv4Transport(b, Undirected) == Rejected(UnknownDirection)
  {
    hide TestPacket;
    TestPacketBytes(src, dst, srcPort, dstPort);
  }

  // --- Both ends of a conversation ---

  function Flipped(d: Direction): Direction {
    match d
    case Outbound => Inbound
    case Inbound => Outbound
    case Undirected => Undirected
  }

  /** `b` with the `n` bytes at `i` and the `n` bytes after them exchanged. */
  function Exchanged(b: seq<byte>, i: nat, n: nat): (r: seq<byte>)
    requires i + 2 * n <= |b|
    ensures |r| == |b|
    ensures forall k :: 0 <= k < |b| && !(i <= k < i + 2 * n) ==> r[k] == b[k]
    ensures forall k :: i <= k < i + n ==> r[k] == b[k + n] && r[k + n] == b[k]
  {
    b[..i] + b[i + n..i + 2 * n] + b[i..i + n] + b[i + 2 * n..]
  }

  /** The reply path of a buffer: addresses exchanged, and ports exchanged when the buffer reaches them. */
  function Swapped(b: seq<byte>): (r: seq<byte>)
    ensures |r| == |b|
  {
    if |b| < 20 then b
    else
      var ihl: int := b[0] % 16 * 4;
      var a := Exchanged(b, 12, 4);
      if ihl < 20 || |b| < ihl + 4 then a else Exchanged(a, ihl, 2)
  }

  /** The port fields at `i` are exchanged and everything behind them is kept. */
  ghost predicate PortsExchanged(b: seq<byte>, r: seq<byte>, i: nat)
    requires i + 4 <= |b| == |r|
  {
    && r[i] == b[i + 2] && r[i + 1] == b[i + 3] && r[i + 2] == b[i] && r[i + 3] == b[i + 1]
    && forall k :: i + 4 <= k < |b| ==> r[k] == b[k]
  }

  /** The bytes of a swapped buffer, as far as the parser reads them. */
  lemma SwappedBytes(b: seq<byte>)
    requires |b| >= 20
    ensures var r, ihl: int := Swapped(b), b[0] % 16 * 4;
            && r[0] == b[0] && r[2] == b[2] && r[3] == b[3] && r[9] == b[9]
            && r[12..16] == b[16..20] && r[16..20] == b[12..16]
            && (20 <= ihl && ihl + 4 <= |b| ==> PortsExchanged(b, r, ihl))
  {
    hide Exchanged;
    var a := Exchanged(b, 12, 4);
    assert a[12..16] == b[16..20] && a[16..20] == b[12..16];
  }

  function Replied(r: Parsed, d: Direction): Parsed {
    match r
    case Rejected(e) => Rejected(e)
    case Meta(m) => Meta(m.(direction := Flipped(d)))
  }

  lemma SameFlow(protocol: Protocol, d: Direction, src: seq<byte>, dst: seq<byte>, srcPort: u16, dstPort: u16)
    requires |src| == 4 && |dst| == 4 && !d.Undirected?
    ensures FlowOf(protocol, Flipped(d), dst, src, dstPort, srcPort) == FlowOf(protocol, d, src, dst, srcPort, dstPort)
  {
  }

  lemma SegmentReply(b: seq<byte>, r: seq<byte>, d: Direction, ihl: nat, totalLen: nat)
    requires |r| == |b| && 20 <= ihl <= totalLen <= |b| && !d.Undirected?
    requires r[12..16] == b[16..20] && r[16..20] == b[12..16]
    requires ihl + 4 <= |b| ==> PortsExchanged(b, r, ihl)
    ensures ParseTcp(r, Flipped(d), ihl, totalLen) == Replied(ParseTcp(b, d, ihl, totalLen), d)
    ensures ParseUdp(r, Flipped(d), ihl, totalLen) == Replied(ParseUdp(b, d, ihl, totalLen), d)
  {
    hide FlowOf;
    if ihl + 4 <= |b| {
      var srcPort, dstPort := U16(b[ihl], b[ihl + 1]), U16(b[ihl + 2], b[ihl + 3]);
      SameFlow(Tcp, d, b[12..16], b[16..20], srcPort, dstPort);
      SameFlow(Udp, d, b[12..16], b[16..20], srcPort, dstPort);
    }
  }

  /** The same flow, length and flags are reported for a packet and for its reply seen from the other direction. */
  lemma ReplyHasSameFlow(b: seq<byte>, d: Direction)
    ensures ParseIpv4Transport(Swapped(b), Flipped(d)) == Replied(ParseIpv4Transport(b, d), d)
  {
    if |b| >= 20 {
      hide Swapped, ParseIpv4Transport;
      SwappedBytes(b);
      ReplyParses(b, Swapped(b), d);
    }
  }

  lemma ReplyParses(b: seq<byte>, r: seq<byte>, d: Direction)
    requires |b| == |r| >= 20 && r[0] == b[0] && r[2] == b[2] && r[3] == b[3] && r[9] == b[9]
    requires r[12..16] == b[16..20] && r[16..20] == b[12..16]
    requires var ihl: int := b[0] % 16 * 4; 20 <= ihl && ihl + 4 <= |b| ==> PortsExchanged(b, r, ihl)
    ensures ParseIpv4Transport(r, Flipped(d)) == Replied(ParseIpv4Transport(b, d), d)
  {
    hide ParseTcp, ParseUdp, PortsExchanged;
    var ihl: int := b[0] % 16 * 4;
    var totalLen: int := U16(b[2], b[3]);
    if 20 <= ihl <= totalLen <= |b| && !d.Undirected? {
      SegmentReply(b, r, d, ihl, totalLen);
    }
  }
}
