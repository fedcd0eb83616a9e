/** Snapshots of the native observer and the events made of them (`wfp_bridge.rs`, `telemetry.rs`). */
module Bridge {
  import opened Prelude
  import opened TransportTypes
  import opened FlowTypes
  import opened FlowTable

  /** The fields of the C snapshot the bridge reads. */
  datatype Snapshot = Snapshot(timestamp100ns: u64, ipVersion: u32, protocol: byte, localPort: u16, remotePort: u16,
                               hasRemoteAddr: bool, remoteAddr: seq<byte>, resultCode: u32)

  datatype EventKind =
    | PacketObserved | ConnectAttempt | ConnectSuccess | ConnectFailure | ResetObserved
    | ReceiveTimeout | DnsAddressMismatch

  type i32 = n: int | -0x8000_0000 <= n < 0x8000_0000

  datatype NetworkEvent = NetworkEvent(timestampUnixMs: u64, kind: EventKind, protocol: string, remoteAddr: seq<byte>,
                                       remotePort: u16, processId: Option<u32>, latencyMs: Option<u64>,
                                       errorCode: Option<i32>)

  datatype SnapshotClass = Transport | Other | Invalid

  const WINDOWS_TO_UNIX_100NS: nat := 116_444_736_000_000_000

  function FiletimeToUnixMs(value: u64): u64 {
    Max(0, value - WINDOWS_TO_UNIX_100NS) / 10_000
  }

  /** The cast `as i32` keeps the bits. */
  function AsI32(n: u32): i32 {
    if n < 0x8000_0000 then n else n - 0x1_0000_0000
  }

  function ClassifySnapshot(s: Snapshot): SnapshotClass {
    if s.ipVersion != 4 && s.ipVersion != 6 then Invalid
    else if s.protocol == 6 || s.protocol == 17 then Transport
    else Other
  }

  function SnapshotToEvent(s: Snapshot): Option<NetworkEvent> {
    if ClassifySnapshot(s).Invalid? then None
    else
      Some(NetworkEvent(FiletimeToUnixMs(s.timestamp100ns), PacketObserved,
                        if s.protocol == 6 then "tcp" else if s.protocol == 17 then "udp" else "other",
                        s.remoteAddr, s.remotePort, None, None,
                        if s.resultCode != 0 then Some(AsI32(s.resultCode)) else None))
  }

  function SnapshotToMeta(s: Snapshot): Option<PacketMeta> {
    if s.protocol != 6 && s.protocol != 17 then None
    else if s.ipVersion != 4 && s.ipVersion != 6 then None
    else if s.remotePort == 0 && s.localPort == 0 then None
    else
      Some(PacketMeta(FlowKey(if s.protocol == 6 then Tcp else Udp, s.remoteAddr, s.remotePort, s.localPort),
                      Undirected, 0, 0))
  }

  /** The snapshots that enter the flow table. */
  predicate Accepted(s: Snapshot) {
    SnapshotToMeta(s).Some?
  }

  /**
    * A snapshot is rejected exactly for its version, its protocol or two zero ports; its address is never looked at,
    * set or not.
    */
  lemma RejectedExactly(s: Snapshot, present: bool, addr: seq<byte>)
    ensures !Accepted(s) <==>
            || (s.ipVersion != 4 && s.ipVersion != 6)
            || (s.protocol != 6 && s.protocol != 17)
            || (s.remotePort == 0 && s.localPort == 0)
    ensures Accepted(s.(hasRemoteAddr := present, remoteAddr := addr)) <==> Accepted(s)
  {
  }

  /**
    * Two accepted snapshots share a flow exactly when protocol, address and ports agree; whether the address was set,
    * and the version, do not count.
    */
  lemma SameFlowExactly(s: Snapshot, t: Snapshot)
    requires Accepted(s) && Accepted(t)
    ensures KeyOf(s) == KeyOf(t) <==>
            && s.protocol == t.protocol && s.remoteAddr == t.remoteAddr
            && s.remotePort == t.remotePort && s.localPort == t.localPort
  {
    assert s.protocol == 6 || s.protocol == 17;
    assert t.protocol == 6 || t.protocol == 17;
  }

  /** So a snapshot whose remote address was never set can be accepted, and is filed under the all-zero address. */
  lemma MissingAddressAccepted(version: u32, port: u16)
    requires (version == 4 || version == 6) && port != 0
    ensures var s := Snapshot(0, version, 6, 0, port, false, seq(16, _ => 0), 0);
            Accepted(s) && KeyOf(s).remoteIp == seq(16, _ => 0)
  {
  }

  /** The event of an accepted snapshot: nothing that enters the table goes unreported. */
  function EventOf(s: Snapshot): NetworkEvent
    requires Accepted(s)
  {
    SnapshotToEvent(s).value
  }

  function KeyOf(s: Snapshot): FlowKey
    requires Accepted(s)
  {
    SnapshotToMeta(s).value.flow
  }

  /** An accepted snapshot is filed under its own endpoints: protocol, remote address and port, local port. */
  lemma KeyFields(s: Snapshot)
    requires Accepted(s)
    ensures var k := KeyOf(s);
            && k.remoteIp == s.remoteAddr && k.remotePort == s.remotePort && k.localPort == s.localPort
            && (s.protocol == 6 ==> k.protocol == Tcp) && (s.protocol == 17 ==> k.protocol == Udp)
    ensures SnapshotToMeta(s) == Some(PacketMeta(KeyOf(s), Undirected, 0, 0))
  {
  }

  /** Its event carries the same remote end, the time in Unix milliseconds, and the bits of a result code. */
  lemma EventFields(s: Snapshot)
    requires Accepted(s)
    ensures var e := EventOf(s);
            && e.kind == PacketObserved && e.remoteAddr == s.remoteAddr && e.remotePort == s.remotePort
            && e.protocol == (if s.protocol == 6 then "tcp" else "udp")
            && e.processId == None && e.latencyMs == None
            && (e.errorCode == None <==> s.resultCode == 0)
            && (e.errorCode.Some? ==> (e.errorCode.value - s.resultCode) % 0x1_0000_0000 == 0)
            && (s.timestamp100ns < 116_444_736_000_000_000 ==> e.timestampUnixMs == 0)
            && (s.timestamp100ns >= 116_444_736_000_000_000 ==>
                  0 <= s.timestamp100ns - 116_444_736_000_000_000 - 10_000 * e.timestampUnixMs < 10_000)
  {
  }

  /** A snapshot yields an event by itself exactly when its version is known; of another protocol it is labelled so. */
  lemma EventExactly(s: Snapshot)
    ensures SnapshotToEvent(s).Some? <==> s.ipVersion == 4 || s.ipVersion == 6
    ensures SnapshotToEvent(s).Some? && s.protocol != 6 && s.protocol != 17 ==>
              SnapshotToEvent(s).value.protocol == "other"
    ensures ClassifySnapshot(s) == Transport <==>
            (s.ipVersion == 4 || s.ipVersion == 6) && (s.protocol == 6 || s.protocol == 17)
  {
  }

  /** The flow table after a snapshot was fed to it. */
  function Fed(flows: Flows, s: Snapshot, now: int): Flows {
    if Accepted(s) then Counted(flows, SnapshotToMeta(s).value, now) else flows
  }

  /** `feed_snapshot`: an event comes back exactly when the table was updated. */
  method FeedSnapshot(datapath: Datapath, s: Snapshot, now: int) returns (event: Option<NetworkEvent>)
    modifies datapath
    ensures event == (if Accepted(s) then Some(EventOf(s)) else None)
    ensures datapath.flows == Fed(old(datapath.flows), s, now)
    ensures event.None? ==> datapath.flows == old(datapath.flows)
    ensures event.Some? ==>
              var key := FlowKey(if s.protocol == 6 then Tcp else Udp, s.remoteAddr, s.remotePort, s.localPort);
              && key in datapath.flows && datapath.flows[key].lastSeen == now
              && (key !in old(datapath.flows) ==>
                    datapath.flows[key] ==
                    FlowState(FlowContext(key.protocol, s.remoteAddr, s.remotePort), now, now, 1, 0))
              && (key in old(datapath.flows) ==>
                    && datapath.flows[key].bytes == old(datapath.flows)[key].bytes
                    && datapath.flows[key].createdAt == old(datapath.flows)[key].createdAt)
              && forall k :: k != key ==> (k in datapath.flows <==> k in old(datapath.flows))
                                          && (k in datapath.flows ==> datapath.flows[k] == old(datapath.flows)[k])
  {
    var meta := SnapshotToMeta(s);
    if meta.None? {
      return None;
    }
    datapath.OnPacket(meta.value, now);
    event := SnapshotToEvent(s);
  }
}
