/** The C ABI facade of `runtime.rs` and the Go polling of `runtime_windows.go`. */
module RuntimeApi {
  import opened Prelude
  import opened Bridge
  import opened EventRing

  /** The C event; its `reserved` field is always zero and is not kept. */
  datatype RuntimeEvent = RuntimeEvent(timestampUnixMs: u64, kind: u32, protocol: u32, remotePort: u16, processId: u32,
                                       latencyMs: u64, errorCode: i32)

  const INVALID_ARGUMENT: u32 := 87
  const BATCH_LIMIT: nat := 256

  function KindCode(kind: EventKind): u32 {
    match kind
    case PacketObserved => 1
    case ConnectAttempt => 2
    case ConnectSuccess => 3
    case ConnectFailure => 4
    case ResetObserved => 5
    case ReceiveTimeout => 6
    case DnsAddressMismatch => 7
  }

  function ProtocolCode(protocol: string): u32 {
    if protocol == "tcp" then 6 else if protocol == "udp" then 17 else 0
  }

  function ToRuntime(e: NetworkEvent): RuntimeEvent {
    RuntimeEvent(e.timestampUnixMs, KindCode(e.kind), ProtocolCode(e.protocol), e.remotePort,
                 if e.processId.Some? then e.processId.value else 0,
                 if e.latencyMs.Some? then e.latencyMs.value else 0,
                 if e.errorCode.Some? then e.errorCode.value else 0)
  }

  function Converted(events: seq<NetworkEvent>): (r: seq<RuntimeEvent>)
    ensures |r| == |events|
  {
    seq(|events|, i requires 0 <= i < |events| => ToRuntime(events[i]))
  }

  /** Through string and code, a snapshot's protocol number, port, time and result code reach the caller unchanged. */
  lemma SnapshotFieldsSurvive(s: Snapshot)
    requires Accepted(s)
    ensures var e := ToRuntime(EventOf(s));
            && e.kind == 1 && e.protocol == s.protocol && e.remotePort == s.remotePort
            && e.processId == 0 && e.latencyMs == 0
            && (if e.errorCode < 0 then e.errorCode + 0x1_0000_0000 else e.errorCode) == s.resultCode
            && (s.timestamp100ns >= 116_444_736_000_000_000 ==>
                  0 <= s.timestamp100ns - (116_444_736_000_000_000 + e.timestampUnixMs * 10_000) < 10_000)
            && (s.timestamp100ns < 116_444_736_000_000_000 ==> e.timestampUnixMs == 0)
  {
  }

  /** The codes of the C ABI, by value; the event of the test in `runtime.rs`. */
  lemma CodesAreStable(remoteAddr: seq<byte>)
    ensures KindCode(PacketObserved) == 1 && KindCode(ConnectAttempt) == 2 && KindCode(ConnectSuccess) == 3
    ensures KindCode(ConnectFailure) == 4 && KindCode(ResetObserved) == 5 && KindCode(ReceiveTimeout) == 6
    ensures KindCode(DnsAddressMismatch) == 7
    ensures ToRuntime(NetworkEvent(1, ResetObserved, "tcp", remoteAddr, 443, Some(42), Some(7), Some(5))) ==
            RuntimeEvent(1, 5, 6, 443, 42, 7, 5)
    ensures ToRuntime(NetworkEvent(2, ConnectFailure, "udp", remoteAddr, 53, None, None, None)) ==
            RuntimeEvent(2, 4, 17, 53, 0, 0, 0)
    ensures ToRuntime(NetworkEvent(3, DnsAddressMismatch, "other", remoteAddr, 0, None, None, Some(-1))) ==
            RuntimeEvent(3, 7, 0, 0, 0, 0, -1)
  {
  }

  /** `flydpi_runtime_poll`; a missing handle or slot is `null`, and the slot is written only on success. */
  method Poll(ring: EventRing?, slot: array?<RuntimeEvent>) returns (code: u32)
    requires ring != null ==> ring.Valid()
    requires slot != null ==> slot.Length == 1
    modifies ring, slot
    ensures ring != null ==> ring.Valid() && ring.dropped == old(ring.dropped)
    ensures ring == null || slot == null ==> code == 87
    ensures ring == null && slot != null ==> slot[0] == old(slot[0])
    ensures ring != null && slot == null ==> ring.events == old(ring.events)
    ensures ring != null && slot != null && old(ring.events) == [] ==>
              code == 0 && ring.events == [] && slot[0] == old(slot[0])
    ensures ring != null && slot != null && old(ring.events) != [] ==>
              code == 1 && slot[0] == ToRuntime(old(ring.events)[0]) && ring.events == old(ring.events)[1..]
  {
    if ring == null || slot == null {
      return INVALID_ARGUMENT;
    }
    var taken := ring.Drain(1);
    if taken == [] {
      return 0;
    }
    slot[0] := ToRuntime(taken[0]);
    return 1;
  }

  /** `flydpi_runtime_drain` into a caller's buffer of at least `capacity` slots. */
  method Drain(ring: EventRing?, out: array?<RuntimeEvent>, capacity: nat) returns (n: nat)
    requires ring != null ==> ring.Valid()
    requires out != null ==> capacity <= out.Length
    modifies ring, out
    ensures ring != null ==> ring.Valid() && ring.dropped == old(ring.dropped)
    ensures n == if ring == null || out == null then 0 else Min(capacity, |old(ring.events)|)
    ensures ring != null ==> ring.events == old(ring.events)[n..]
    ensures out != null ==> n <= out.Length && out[n..] == old(out[n..])
    ensures ring != null && out != null ==> out[..n] == Converted(old(ring.events)[..n])
  {
    if ring == null || out == null || capacity == 0 {
      return 0;
    }
    var events := ring.Drain(capacity);
    n := |events|;
    var index := 0;
    while index < n
      invariant 0 <= index <= n
      invariant out[..index] == Converted(events)[..index]
      invariant out[n..] == old(out[n..])
      invariant ring.Valid() && ring.events == old(ring.events)[n..] && ring.dropped == old(ring.dropped)
    {
      out[index] := ToRuntime(events[index]);
      index := index + 1;
    }
    assert events == old(ring.events)[..n];
  }

  /** `Runtime.PollBatch` with nothing pushed meanwhile: repeated polls take what one bounded drain would. */
  method PollBatch(ring: EventRing, limit: int) returns (out: seq<RuntimeEvent>)
    requires ring.Valid()
    modifies ring
    ensures ring.Valid() && ring.State() == Drained(old(ring.State()), Max(0, Min(limit, 256)))
    ensures out == Converted(old(ring.events)[..TakeCount(old(ring.State()), Max(0, Min(limit, 256)))])
    // That is, at most 256 and no more than asked for, as long as there are events.
    ensures |out| <= 256 && (limit <= 0 ==> out == [])
    ensures 0 < limit <= 256 && |old(ring.events)| >= limit ==> |out| == limit
    ensures limit > 256 && |old(ring.events)| >= 256 ==> |out| == 256
    ensures |old(ring.events)| <= limit && |old(ring.events)| <= 256 ==> |out| == |old(ring.events)|
  {
    hide ToRuntime;
    out := [];
    if limit <= 0 {
      return;
    }
    var bound := if limit > BATCH_LIMIT then BATCH_LIMIT else limit;
    var slot := new RuntimeEvent[1](_ => RuntimeEvent(0, 0, 0, 0, 0, 0, 0));
    while |out| < bound
      invariant ring.Valid() && |out| <= bound && |out| <= |old(ring.events)|
      invariant ring.State() == Drained(old(ring.State()), |out|)
      invariant out == Converted(old(ring.events)[..|out|])
    {
      var code := Poll(ring, slot);
      if code != 1 {
        break;
      }
      assert slot[0] == ToRuntime(old(ring.events)[|out|]);
      out := out + [slot[0]];
    }
  }
}
