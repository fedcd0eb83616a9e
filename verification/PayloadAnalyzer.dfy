/** `analyze_quic_header` and `analyze_payload`. */
module PayloadAnalyzer {
  import opened Prelude
  import opened Vectors
  import opened TransportTypes
  import opened TlsAnalyzer

  /** A long header; `first` keeps the bits below the form bit, `rest` is everything after the identifiers. */
  datatype LongHeader =
    LongHeader(first: byte, version: u32, destination: seq<byte>, source: seq<byte>, rest: seq<byte>)

  /** The header form bit. */
  predicate LongForm(first: byte) {
    first / 128 % 2 == 1
  }

  predicate LongHeaderOk(l: LongHeader) {
    LongForm(l.first) && |l.destination| <= 20 && |l.source| <= 20
  }

  function U32(a: byte, b: byte, c: byte, d: byte): u32 {
    U16(a, b) * 0x1_0000 + U16(c, d)
  }

  function Bytes32(n: u32): (s: seq<byte>)
    ensures |s| == 4 && U32(s[0], s[1], s[2], s[3]) == n
  {
    Bytes16(n / 0x1_0000) + Bytes16(n % 0x1_0000)
  }

  lemma Bytes32OfU32(a: byte, b: byte, c: byte, d: byte)
    ensures Bytes32(U32(a, b, c, d)) == [a, b, c, d]
  {
    Bytes16OfU16(a, b);
    Bytes16OfU16(c, d);
    assert U32(a, b, c, d) / 0x1_0000 == U16(a, b) && U32(a, b, c, d) % 0x1_0000 == U16(c, d);
  }

  function LongHeaderBytes(l: LongHeader): seq<byte>
    requires LongHeaderOk(l)
  {
    (Single(l.first) + Bytes32(l.version)) + (Vec8(l.destination) + (Vec8(l.source) + l.rest))
  }

  function SplitLongHeader(p: seq<byte>): Option<LongHeader> {
    if |p| < 5 || !LongForm(p[0]) then None
    else
      match Take8(p[5..])
      case None => None
      case Some((destination, p1)) =>
        match Take8(p1)
        case None => None
        case Some((source, rest)) =>
          if |destination| > 20 || |source| > 20 then None
          else Some(LongHeader(p[0], U32(p[1], p[2], p[3], p[4]), destination, source, rest))
  }

  function QuicOutcome(p: seq<byte>): Outcome {
    if p == [] then Err(Truncated)
    else if !LongForm(p[0]) then Ok(NotRecognised)
    else if |p| < 6 then Err(Truncated)
    else
      match SplitLongHeader(p)
      case None => Err(Malformed)
      case Some(l) => Ok(QuicLongHeader(l.version, l.first / 16 % 4, |l.destination|, |l.source|))
  }

  method AnalyzeQuicHeader(payload: seq<byte>) returns (r: Outcome)
    ensures r == QuicOutcome(payload)
  {
    if payload == [] {
      return Err(Truncated);
    }
    var first := payload[0];
    if !LongForm(first) {
      return Ok(NotRecognised);
    }
    if |payload| < 6 {
      return Err(Truncated);
    }
    var packetType := first / 16 % 4;
    var version := U32(payload[1], payload[2], payload[3], payload[4]);
    var dcidLen: int := payload[5];
    var pos := 6;
    if dcidLen > 20 || pos + dcidLen + 1 > |payload| {
      return Err(Malformed);
    }
    ghost var p1 := payload[pos + dcidLen..];
    assert payload[5..][1 + dcidLen..] == p1;
    pos := pos + dcidLen;
    var scidLen: int := payload[pos];
    if scidLen > 20 || pos + 1 + scidLen > |payload| {
      return Err(Malformed);
    }
    return Ok(QuicLongHeader(version, packetType, dcidLen, scidLen));
  }

  /** `p` is spelled by the long header `l`. */
  ghost predicate IsLongHeader(p: seq<byte>, l: LongHeader) {
    LongHeaderOk(l) && LongHeaderBytes(l) == p
  }

  lemma LongHeaderSound(p: seq<byte>)
    ensures SplitLongHeader(p).Some? ==>
              LongHeaderOk(SplitLongHeader(p).value) && LongHeaderBytes(SplitLongHeader(p).value) == p
  {
    if SplitLongHeader(p).Some? {
      hide U32, Bytes32;
      Take8Sound(p[5..]);
      Take8Sound(Take8(p[5..]).value.1);
      Bytes32OfU32(p[1], p[2], p[3], p[4]);
      assert p[..5] == Single(p[0]) + [p[1], p[2], p[3], p[4]];
      assert p == p[..5] + p[5..];
    }
  }

  lemma LongHeaderComplete(l: LongHeader)
    requires LongHeaderOk(l)
    ensures SplitLongHeader(LongHeaderBytes(l)) == Some(l)
  {
    hide U32, Bytes32;
    var p, front := LongHeaderBytes(l), Single(l.first) + Bytes32(l.version);
    assert p[..5] == front && p[5..] == Vec8(l.destination) + (Vec8(l.source) + l.rest);
    assert p[1..5] == front[1..5] == Bytes32(l.version);
    Take8Complete(l.destination, Vec8(l.source) + l.rest);
    Take8Complete(l.source, l.rest);
  }

  /** A byte string is at most one long header, and `SplitLongHeader` finds it. */
  lemma LongHeaderUnique(p: seq<byte>, l: LongHeader)
    ensures SplitLongHeader(p) == Some(l) <==> IsLongHeader(p, l)
  {
    LongHeaderSound(p);
    if LongHeaderOk(l) {
      LongHeaderComplete(l);
    }
  }

  /** The analyzer reports a QUIC header for exactly the long headers with identifiers of up to 20 bytes. */
  lemma QuicAcceptedExactly(p: seq<byte>, version: u32, packetType: byte, dcidLen: byte, scidLen: byte)
    ensures QuicOutcome(p) == Ok(QuicLongHeader(version, packetType, dcidLen, scidLen)) <==>
            exists l: LongHeader ::
              && IsLongHeader(p, l)
              && version == l.version && packetType == l.first / 16 % 4
              && dcidLen == |l.destination| && scidLen == |l.source|
  {
    if QuicOutcome(p).Ok? && QuicOutcome(p).info.QuicLongHeader? {
      LongHeaderUnique(p, SplitLongHeader(p).value);
    }
    forall l: LongHeader | IsLongHeader(p, l)
      ensures QuicOutcome(p) == Ok(QuicLongHeader(l.version, l.first / 16 % 4, |l.destination|, |l.source|))
    {
      LongHeaderUnique(p, l);
    }
  }

  /** A payload that starts like a long header and is not too short for one is malformed exactly when it is none. */
  lemma QuicMalformedExactly(p: seq<byte>)
    ensures QuicOutcome(p) == Err(Malformed) <==>
            |p| >= 6 && LongForm(p[0]) && forall l: LongHeader :: !IsLongHeader(p, l)
  {
    forall l: LongHeader
      ensures IsLongHeader(p, l) <==> SplitLongHeader(p) == Some(l)
    {
      LongHeaderUnique(p, l);
    }
  }

  /** What is no long header: no form bit, or too few bytes to tell. */
  lemma QuicOtherAnswers(p: seq<byte>)
    ensures QuicOutcome(p) == Ok(NotRecognised) <==> p != [] && p[0] < 128
    ensures QuicOutcome(p) == Err(Truncated) <==> p == [] || (p[0] >= 128 && |p| < 6)
    ensures QuicOutcome(p) != Err(Unsupported) && QuicOutcome(p) != Panic
  {
  }

  lemma Digits32(n: u32)
    ensures Bytes32(n) ==
            [n / 0x1_0000 / 0x100, n / 0x1_0000 % 0x100, n % 0x1_0000 / 0x100, n % 0x1_0000 % 0x100]
  {
    Digits16(n / 0x1_0000);
    Digits16(n % 0x1_0000);
    hide Bytes16;
  }

  /** A long header by byte positions (section 17.2 of RFC 9000): version high byte first, then both identifiers. */
  lemma LongHeaderOnTheWire(l: LongHeader)
    requires LongHeaderOk(l)
    ensures var p, d, s := LongHeaderBytes(l), |l.destination|, |l.source|;
            && |p| == 7 + d + s + |l.rest|
            && p[0] == l.first >= 128
            && p[1] == l.version / 0x1_0000 / 0x100 && p[2] == l.version / 0x1_0000 % 0x100
            && p[3] == l.version % 0x1_0000 / 0x100 && p[4] == l.version % 0x1_0000 % 0x100
            && p[5] == d && p[6..6 + d] == l.destination
            && p[6 + d] == s && p[7 + d..7 + d + s] == l.source && p[7 + d + s..] == l.rest
  {
    hide U32, Bytes32, LongHeaderBytes, Vec8;
    Digits32(l.version);
    VersionInPlace(l);
    Vec8OnTheWire(l.destination, Vec8(l.source) + l.rest);
    Vec8OnTheWire(l.source, l.rest);
    TwoVectors(LongHeaderBytes(l), |l.destination|, |l.source|, l.destination, l.source, l.rest);
  }

  lemma VersionInPlace(l: LongHeader)
    requires LongHeaderOk(l)
    ensures var p, v := LongHeaderBytes(l), Bytes32(l.version);
            && |p| >= 5 && p[0] == l.first && p[1] == v[0] && p[2] == v[1] && p[3] == v[2] && p[4] == v[3]
            && p[5..] == Vec8(l.destination) + (Vec8(l.source) + l.rest)
  {
    hide U32, Bytes32, Vec8;
    var p, front := LongHeaderBytes(l), Single(l.first) + Bytes32(l.version);
    assert p[..5] == front;
  }

  lemma Vec8OnTheWire(s: seq<byte>, rest: seq<byte>)
    requires |s| < 0x100
    ensures var b := Vec8(s) + rest;
            |b| == 1 + |s| + |rest| && b[0] == |s| && b[1..1 + |s|] == s && b[1 + |s|..] == rest
  {
  }

  lemma TwoVectors(p: seq<byte>, d: nat, s: nat, first: seq<byte>, second: seq<byte>, rest: seq<byte>)
    requires |p| >= 7 + d + s && d < 0x100 && s < 0x100
    requires p[5..][0] == d && p[5..][1..1 + d] == first
    requires p[5..][1 + d..][0] == s && p[5..][1 + d..][1..1 + s] == second && p[5..][1 + d..][1 + s..] == rest
    ensures p[5] == d && p[6..6 + d] == first
    ensures p[6 + d] == s && p[7 + d..7 + d + s] == second && p[7 + d + s..] == rest
  {
  }

  /** The answer for a payload that starts like a long header, read off by position. */
  lemma QuicByPosition(p: seq<byte>)
    requires |p| >= 6 && p[0] >= 128
    ensures var d := p[5] as int;
            && (d > 20 || 7 + d > |p| ==> QuicOutcome(p) == Err(Malformed))
            && (d <= 20 && 7 + d <= |p| ==>
                  var s := p[6 + d] as int;
                  && (s > 20 || 7 + d + s > |p| ==> QuicOutcome(p) == Err(Malformed))
                  && (s <= 20 && 7 + d + s <= |p| ==>
                        var version := 0x100_0000 * p[1] as int + 0x1_0000 * p[2] as int + 0x100 * p[3] as int + p[4];
                        QuicOutcome(p) == Ok(QuicLongHeader(version, p[0] / 16 % 4, d, s))))
  {
    var d: int := p[5];
    assert p[5..] == p[5..|p|];
    Take8At(p, 5, |p|);
    if 7 + d <= |p| {
      Take8At(p, 6 + d, |p|);
    }
  }

  /** The Initial packet of the tests in `transport.rs`. */
  lemma InitialPacket()
    ensures QuicOutcome([0xC0, 0, 0, 0, 1, 4, 1, 2, 3, 4, 2, 5, 6]) == Ok(QuicLongHeader(1, 0, 4, 2))
  {
    hide QuicOutcome;
    QuicByPosition([0xC0, 0, 0, 0, 1, 4, 1, 2, 3, 4, 2, 5, 6]);
  }

  /** `analyze_payload` as a function of its inputs. */
  function PayloadOutcome(protocol: Protocol, payload: seq<byte>): Outcome {
    match protocol
    case Tcp => TlsOutcome(payload)
    case Udp => QuicOutcome(payload)
    case Unknown => Err(Unsupported)
  }

  method AnalyzePayload(protocol: Protocol, payload: seq<byte>) returns (r: Outcome)
    ensures r == PayloadOutcome(protocol, payload)
  {
    match protocol
    case Tcp => r := AnalyzeTlsClientHello(payload);
    case Udp => r := AnalyzeQuicHeader(payload);
    case Unknown => r := Err(Unsupported);
  }

  /** TLS is only ever reported for TCP payloads and QUIC only for UDP ones; UDP analysis never panics. */
  lemma ReportMatchesProtocol(protocol: Protocol, payload: seq<byte>)
    ensures var r := PayloadOutcome(protocol, payload);
            && (r.Ok? && r.info.TlsClientHello? ==> protocol == Tcp)
            && (r.Ok? && r.info.QuicLongHeader? ==> protocol == Udp)
            && (r.Panic? ==> protocol == Tcp)
  {
  }
}
