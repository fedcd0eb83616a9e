/** Flow identity and packet metadata shared by the parsers and the flow tables (`datapath.rs`). */
module FlowTypes {
  import opened Prelude
  import opened TransportTypes

  /** `remoteIp` is the 16-byte address field; IPv4 addresses fill the first four bytes. */
  datatype FlowKey = FlowKey(protocol: Protocol, remoteIp: seq<byte>, remotePort: u16, localPort: u16)

  datatype Direction = Outbound | Inbound | Undirected

  datatype PacketMeta = PacketMeta(flow: FlowKey, direction: Direction, payloadLen: nat, tcpFlags: byte)

  /** The TCP flag bits the analyzer looks at. */
  predicate HasFin(flags: byte) { flags % 2 == 1 }
  predicate HasSyn(flags: byte) { flags / 2 % 2 == 1 }
  predicate HasRst(flags: byte) { flags / 4 % 2 == 1 }
  predicate HasAck(flags: byte) { flags / 16 % 2 == 1 }

  /** The bits by their place in the flags byte of section 3.1 of RFC 9293. */
  lemma FlagBits(fin: nat, syn: nat, rst: nat, psh: nat, ack: nat, rest: nat)
    requires fin < 2 && syn < 2 && rst < 2 && psh < 2 && ack < 2 && rest < 8
    ensures var flags: byte := fin + 2 * syn + 4 * rst + 8 * psh + 16 * ack + 32 * rest;
            && HasFin(flags) == (fin == 1) && HasSyn(flags) == (syn == 1)
            && HasRst(flags) == (rst == 1) && HasAck(flags) == (ack == 1)
  {
    var flags: byte := fin + 2 * syn + 4 * rst + 8 * psh + 16 * ack + 32 * rest;
    assert flags / 2 == syn + 2 * (rst + 2 * psh + 4 * ack + 8 * rest);
    assert flags / 4 == rst + 2 * (psh + 2 * ack + 4 * rest);
    assert flags / 16 == ack + 2 * rest;
  }
}
