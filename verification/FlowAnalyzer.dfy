/** The session analyzer of `flow_analyzer.rs`. */
module FlowAnalyzer {
  import opened Prelude
  import opened TransportTypes
  import opened FlowTypes
  import opened PayloadAnalyzer

  datatype Lifecycle = New | SynSent | Established | FinSeen | Reset

  /** The fields of the source's `FlowSignals`, grouped by what updates them. */
  datatype Counters = Counters(packets: u64, bytes: u64, firstSeen: Option<int>, lastSeen: Option<int>)

  datatype TcpSignals = TcpSignals(syn: bool, synAck: bool, ack: bool, fin: bool, rst: bool)

  datatype PayloadSignals = PayloadSignals(tls: bool, sni: Option<seq<byte>>, quic: bool, version: Option<u32>,
                                           packetType: Option<byte>)

  datatype FlowSignals = FlowSignals(counters: Counters, tcp: TcpSignals, connectLatency: Option<nat>,
                                     payloads: PayloadSignals)

  datatype Diagnosis =
    HealthyTransport | TcpReset | TcpHandshakeIncomplete | IdleTimeoutSuspected
    | TlsClientHelloObserved | QuicLongHeaderObserved | NoDiagnosis

  datatype FlowSnapshot = FlowSnapshot(key: FlowKey, lifecycle: Lifecycle, signals: FlowSignals, diagnosis: Diagnosis)

  const NO_SIGNALS := FlowSignals(Counters(0, 0, None, None), TcpSignals(false, false, false, false, false), None,
                                  PayloadSignals(false, None, false, None, None))

  type Sessions = map<FlowKey, FlowSignals>

  /** One packet as the analyzer takes it in: its metadata, the outcome of analyzing its payload, and the time. */
  datatype Observation = Observation(meta: PacketMeta, report: Outcome, now: int)

  /** The observation made of a packet with the given payload. */
  function Seen(meta: PacketMeta, payload: seq<byte>, now: int): Observation {
    Observation(meta, PayloadOutcome(meta.flow.protocol, payload), now)
  }

  // --- What one observation shows ---

  predicate ShowsSyn(o: Observation) {
    o.meta.flow.protocol == Tcp && HasSyn(o.meta.tcpFlags) && !HasAck(o.meta.tcpFlags)
  }

  predicate ShowsSynAck(o: Observation) {
    o.meta.flow.protocol == Tcp && HasSyn(o.meta.tcpFlags) && HasAck(o.meta.tcpFlags)
  }

  predicate ShowsAck(o: Observation) { o.meta.flow.protocol == Tcp && HasAck(o.meta.tcpFlags) }
  predicate ShowsFin(o: Observation) { o.meta.flow.protocol == Tcp && HasFin(o.meta.tcpFlags) }
  predicate ShowsRst(o: Observation) { o.meta.flow.protocol == Tcp && HasRst(o.meta.tcpFlags) }

  predicate ShowsHello(o: Observation) { o.report.Ok? && o.report.info.TlsClientHello? }
  predicate ShowsQuic(o: Observation) { o.report.Ok? && o.report.info.QuicLongHeader? }

  function SniShown(o: Observation): Option<seq<byte>> {
    if ShowsHello(o) then o.report.info.sni else None
  }

  function VersionShown(o: Observation): Option<u32> {
    if ShowsQuic(o) then Some(o.report.info.version) else None
  }

  function TypeShown(o: Observation): Option<byte> {
    if ShowsQuic(o) then Some(o.report.info.packetType) else None
  }

  function CountersAfter(c: Counters, o: Observation): Counters {
    Counters(SaturatingAdd(c.packets, 1), SaturatingAdd(c.bytes, o.meta.payloadLen),
             c.firstSeen.OrElse(Some(o.now)), Some(o.now))
  }

  function TcpAfter(t: TcpSignals, o: Observation): TcpSignals {
    TcpSignals(t.syn || ShowsSyn(o), t.synAck || ShowsSynAck(o), t.ack || ShowsAck(o), t.fin || ShowsFin(o),
               t.rst || ShowsRst(o))
  }

  function PayloadsAfter(p: PayloadSignals, o: Observation): PayloadSignals {
    PayloadSignals(p.tls || ShowsHello(o), SniShown(o).OrElse(p.sni),
                   p.quic || ShowsQuic(o), VersionShown(o).OrElse(p.version), TypeShown(o).OrElse(p.packetType))
  }

  function LatencyAfter(latency: Option<nat>, t: TcpSignals, first: int, o: Observation): Option<nat> {
    if latency.None? && o.meta.flow.protocol == Tcp && t.syn && t.synAck && o.now >= first then Some(o.now - first)
    else latency
  }

  /** The signals of a flow after one more observation. */
  function Updated(s: FlowSignals, o: Observation): FlowSignals {
    var counters, tcp := CountersAfter(s.counters, o), TcpAfter(s.tcp, o);
    FlowSignals(counters, tcp, LatencyAfter(s.connectLatency, tcp, counters.firstSeen.value, o),
                PayloadsAfter(s.payloads, o))
  }

  function Observed(flows: Sessions, o: Observation): Sessions {
    flows[o.meta.flow := Updated(if o.meta.flow in flows then flows[o.meta.flow] else NO_SIGNALS, o)]
  }

  /** The flows heard from within `idle`. */
  function Kept(flows: Sessions, now: int, idle: nat): (r: Sessions)
    ensures |r| <= |flows|
  {
    var r := map k | k in flows && flows[k].counters.lastSeen.Some?
                     && Elapsed(now, flows[k].counters.lastSeen.value) <= idle :: flows[k];
    SubsetSize(r.Keys, flows.Keys);
    r
  }

  /** The flows not heard from for longer than `idle`, or never. */
  function Lapsed(flows: Sessions, now: int, idle: nat): set<FlowKey> {
    set k | k in flows && (flows[k].counters.lastSeen.None? || now > flows[k].counters.lastSeen.value + idle)
  }

  lemma KeptOrLapsed(flows: Sessions, now: int, idle: nat)
    ensures |flows| == |Kept(flows, now, idle)| + |Lapsed(flows, now, idle)|
  {
    var kept, lapsed := Kept(flows, now, idle).Keys, Lapsed(flows, now, idle);
    assert flows.Keys == kept + lapsed && kept !! lapsed;
    assert |flows| == |flows.Keys| && |Kept(flows, now, idle)| == |kept|;
  }

  function LifecycleOf(s: FlowSignals): Lifecycle {
    if s.tcp.rst then Reset
    else if s.tcp.fin then FinSeen
    else if s.tcp.syn && s.tcp.synAck && s.tcp.ack then Established
    else if s.tcp.syn then SynSent
    else New
  }

  function DiagnosisOf(s: FlowSignals, state: Lifecycle, now: int, timeout: nat): Diagnosis {
    if s.tcp.rst then TcpReset
    else if state == SynSent then
      if s.counters.lastSeen.Some? && Elapsed(now, s.counters.lastSeen.value) >= timeout then IdleTimeoutSuspected
      else TcpHandshakeIncomplete
    else if s.payloads.tls then TlsClientHelloObserved
    else if s.payloads.quic then QuicLongHeaderObserved
    else if state == Established then HealthyTransport
    else NoDiagnosis
  }

  class FlowSessionAnalyzer {
    var flows: Sessions

    constructor ()
      ensures flows == map[]
    {
      flows := map[];
    }

    /** `panicked` when the payload analysis stops on a bad index; the counters and flags are already stored by then. */
    method ObservePacket(packet: PacketMeta, payload: seq<byte>, now: int) returns (panicked: bool)
      modifies this
      ensures flows == Observed(old(flows), Seen(packet, payload, now))
      ensures panicked == PayloadOutcome(packet.flow.protocol, payload).Panic?
    {
      ghost var o := Seen(packet, payload, now);
      var s := if packet.flow in flows then flows[packet.flow] else NO_SIGNALS;
      var report := AnalyzePayload(packet.flow.protocol, payload);
      s := TrackPacket(s, packet, report, now, o);
      flows := flows[packet.flow := s];
      panicked := report.Panic?;
    }

    /** The updates of one entry, in the source's order; the report is used last. */
    static method TrackPacket(before: FlowSignals, packet: PacketMeta, report: Outcome, now: int, ghost o: Observation)
      returns (s: FlowSignals)
      requires o == Observation(packet, report, now)
      ensures s == Updated(before, o)
    {
      var c, t, latency := before.counters, before.tcp, before.connectLatency;
      c := c.(packets := SaturatingAdd(c.packets, 1));
      c := c.(bytes := SaturatingAdd(c.bytes, packet.payloadLen));
      if c.firstSeen.None? {
        c := c.(firstSeen := Some(now));
      }
      c := c.(lastSeen := Some(now));
      if packet.flow.protocol == Tcp {
        t := TrackFlags(t, packet.tcpFlags);
        if latency.None? && t.syn && t.synAck {
          if now >= c.firstSeen.value {
            latency := Some(now - c.firstSeen.value);
          }
        }
      }
      var payloads := TrackReport(before.payloads, report, o);
      s := FlowSignals(c, t, latency, payloads);
    }

    static method TrackFlags(before: TcpSignals, flags: byte) returns (t: TcpSignals)
      ensures t.syn == (before.syn || (flags / 2 % 2 == 1 && flags / 16 % 2 == 0))
      ensures t.synAck == (before.synAck || (flags / 2 % 2 == 1 && flags / 16 % 2 == 1))
      ensures t.ack == (before.ack || flags / 16 % 2 == 1)
      ensures t.fin == (before.fin || flags % 2 == 1) && t.rst == (before.rst || flags / 4 % 2 == 1)
    {
      t := before;
      var syn, ack := HasSyn(flags), HasAck(flags);
      if syn && !ack { t := t.(syn := true); }
      if syn && ack { t := t.(synAck := true); }
      if ack { t := t.(ack := true); }
      if HasFin(flags) { t := t.(fin := true); }
      if HasRst(flags) { t := t.(rst := true); }
    }

    static method TrackReport(before: PayloadSignals, report: Outcome, ghost o: Observation) returns (p: PayloadSignals)
      requires o.report == report
      ensures p == PayloadsAfter(before, o)
    {
      p := before;
      if report.Ok? {
        match report.info
        case TlsClientHello(_, sni, _) =>
          p := p.(tls := true);
          if sni.Some? { p := p.(sni := sni); }
        case QuicLongHeader(version, packetType, _, _) =>
          p := p.(quic := true, version := Some(version), packetType := Some(packetType));
        case NotRecognised =>
      }
    }

    function Snapshot(key: FlowKey, now: int, timeout: nat): (r: Option<FlowSnapshot>)
      reads this
      ensures r.Some? <==> key in flows
      ensures r.Some? ==> r.value.key == key && r.value.signals == flows[key]
      ensures r.Some? ==> (r.value.lifecycle == Reset <==> flows[key].tcp.rst)
      ensures r.Some? ==> (r.value.diagnosis == TcpReset <==> flows[key].tcp.rst)
    {
      if key !in flows then None
      else
        var s := flows[key];
        Some(FlowSnapshot(key, LifecycleOf(s), s, DiagnosisOf(s, LifecycleOf(s), now, timeout)))
    }

    method Expire(now: int, idle: nat) returns (removed: nat)
      modifies this
      ensures flows == Kept(old(flows), now, idle)
      // A flow stays exactly when it was heard from in time, its signals are untouched, and each one gone is counted.
      ensures forall k :: k in flows <==>
                k in old(flows) && old(flows)[k].counters.lastSeen.Some?
                && now <= old(flows)[k].counters.lastSeen.value + idle
      ensures forall k :: k in flows ==> flows[k] == old(flows)[k]
      ensures removed == |Lapsed(old(flows), now, idle)|
    {
      KeptOrLapsed(flows, now, idle);
      var before := |flows|;
      flows := map k | k in flows && flows[k].counters.lastSeen.Some?
                       && Elapsed(now, flows[k].counters.lastSeen.value) <= idle :: flows[k];
      removed := before - |flows|;
    }
  }
}
