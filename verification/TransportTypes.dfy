/** Result types of the passive payload analyzers in `transport.rs`. */
module TransportTypes {
  import opened Prelude

  datatype Protocol = Tcp | Udp | Unknown

  /** `handshakeLen` and the identifier lengths are byte counts; a server name is kept as its UTF-8 bytes. */
  datatype TransportInfo =
    | TlsClientHello(legacyVersion: u16, sni: Option<seq<byte>>, handshakeLen: nat)
    | QuicLongHeader(version: u32, packetType: byte, destinationCidLen: byte, sourceCidLen: byte)
    | NotRecognised

  datatype ParseError = Truncated | Malformed | Unsupported

  /** What a call can do: return `Ok`, return `Err`, or stop with an out-of-range index. */
  datatype Outcome = Ok(info: TransportInfo) | Err(error: ParseError) | Panic
}
