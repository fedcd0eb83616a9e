/** The flow table of `datapath.rs`. */
module FlowTable {
  import opened Prelude
  import opened TransportTypes
  import opened FlowTypes

  /** Addresses stay bytes; the host name and start time the source leaves unset are not kept. */
  datatype FlowContext = FlowContext(protocol: Protocol, remoteAddr: seq<byte>, remotePort: u16)

  datatype FlowState = FlowState(context: FlowContext, createdAt: int, lastSeen: int, packets: u64, bytes: u64)

  type Flows = map<FlowKey, FlowState>

  function NewFlow(key: FlowKey, now: int): FlowState {
    FlowState(FlowContext(key.protocol, key.remoteIp, key.remotePort), now, now, 0, 0)
  }

  /** The table after one packet. */
  function Counted(flows: Flows, meta: PacketMeta, now: int): Flows {
    var entry := if meta.flow in flows then flows[meta.flow] else NewFlow(meta.flow, now);
    flows[meta.flow := entry.(lastSeen := now,
                             packets := SaturatingAdd(entry.packets, 1),
                             bytes := SaturatingAdd(entry.bytes, meta.payloadLen))]
  }

  /** The flows heard from within `idle`. */
  function Fresh(flows: Flows, now: int, idle: nat): (r: Flows)
    ensures |r| <= |flows|
  {
    var r := map k | k in flows && Elapsed(now, flows[k].lastSeen) <= idle :: flows[k];
    SubsetSize(r.Keys, flows.Keys);
    r
  }

  /** The flows not heard from for longer than `idle`. */
  function Silent(flows: Flows, now: int, idle: nat): set<FlowKey> {
    set k | k in flows && now > flows[k].lastSeen + idle
  }

  /** A flow is either fresh or silent. */
  lemma FreshOrSilent(flows: Flows, now: int, idle: nat)
    ensures |flows| == |Fresh(flows, now, idle)| + |Silent(flows, now, idle)|
  {
    var heard, silent := Fresh(flows, now, idle).Keys, Silent(flows, now, idle);
    assert flows.Keys == heard + silent && heard !! silent;
    assert |flows| == |flows.Keys| && |Fresh(flows, now, idle)| == |heard|;
  }

  class Datapath {
    var flows: Flows

    constructor ()
      ensures flows == map[]
    {
      flows := map[];
    }

    method OnPacket(meta: PacketMeta, now: int)
      modifies this
      ensures flows == Counted(old(flows), meta, now)
    {
      if meta.flow !in flows {
        flows := flows[meta.flow := NewFlow(meta.flow, now)];
      }
      var entry := flows[meta.flow];
      entry := entry.(lastSeen := now);
      entry := entry.(packets := SaturatingAdd(entry.packets, 1));
      entry := entry.(bytes := SaturatingAdd(entry.bytes, meta.payloadLen));
      flows := flows[meta.flow := entry];
    }

    method ExpireIdle(now: int, idle: nat) returns (removed: nat)
      modifies this
      ensures flows == Fresh(old(flows), now, idle)
      // A flow stays exactly when it was heard from in time, its entry is untouched, and each one gone is counted.
      ensures forall k :: k in flows <==> k in old(flows) && now <= old(flows)[k].lastSeen + idle
      ensures forall k :: k in flows ==> flows[k] == old(flows)[k]
      ensures removed == |set k | k in old(flows) && now > old(flows)[k].lastSeen + idle|
    {
      FreshOrSilent(flows, now, idle);
      var before := |flows|;
      flows := map k | k in flows && Elapsed(now, flows[k].lastSeen) <= idle :: flows[k];
      removed := before - |flows|;
    }

    method Clear()
      modifies this
      ensures flows == map[]
    {
      flows := map[];
    }
  }
}
