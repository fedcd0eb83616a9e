/** The byte grammar that `analyze_tls_client_hello` accepts, written as syntax trees and their bytes. */
module TlsGrammar {
  import opened Prelude
  import opened Vectors
  import Utf8

  /** A server_name list: entries passed over, then a host name and ignored bytes, or fewer than three stray bytes. */
  datatype Names =
    | Stray(bytes: seq<byte>)
    | Host(text: seq<byte>, ignored: seq<byte>)
    | Skipped(kind: byte, text: seq<byte>, tail: Names)

  /** An extension block: server_name extensions, other extensions, then fewer than four stray bytes. */
  datatype Extensions =
    | Trailer(bytes: seq<byte>)
    | Other(kind: u16, data: seq<byte>, tail: Extensions)
    | ServerName(names: Names, padding: seq<byte>, tail: Extensions)

  datatype HelloRest =
    | Ends
    | Continues(compression: seq<byte>, extensions: Extensions, ignored: seq<byte>)

  datatype ClientHello =
    ClientHello(version: u16, random: seq<byte>, session: seq<byte>, ciphers: seq<byte>, rest: HelloRest)

  /** A whole ClientHello message in a whole record; the bytes after the message and after the record are ignored. */
  datatype Frame = Frame(recordVersion: u16, body: seq<byte>, inRecord: seq<byte>, afterRecord: seq<byte>)

  predicate NamesOk(n: Names) {
    match n
    case Stray(b) => |b| < 3
    case Host(t, _) => 0 < |t| < 0x1_0000
    case Skipped(k, t, tail) => |t| < 0x1_0000 && (k != 0 || t == []) && NamesOk(tail)
  }

  function NamesBytes(n: Names): seq<byte>
    requires NamesOk(n)
  {
    match n
    case Stray(b) => b
    case Host(t, ignored) => Single(0) + (Vec16(t) + ignored)
    case Skipped(k, t, tail) => Single(k) + (Vec16(t) + NamesBytes(tail))
  }

  predicate ServerNameOk(n: Names, padding: seq<byte>) {
    NamesOk(n) && 5 <= 2 + |NamesBytes(n)| + |padding| < 0x1_0000
  }

  function ServerNameBytes(n: Names, padding: seq<byte>): seq<byte>
    requires ServerNameOk(n, padding)
  {
    Vec16(NamesBytes(n)) + padding
  }

  predicate ExtensionsOk(e: Extensions) {
    match e
    case Trailer(b) => |b| < 4
    case Other(k, d, tail) => |d| < 0x1_0000 && !(k == 0 && |d| >= 5) && ExtensionsOk(tail)
    case ServerName(n, padding, tail) => ServerNameOk(n, padding) && ExtensionsOk(tail)
  }

  function ExtensionsBytes(e: Extensions): seq<byte>
    requires ExtensionsOk(e)
  {
    match e
    case Trailer(b) => b
    case Other(k, d, tail) => Bytes16(k) + (Vec16(d) + ExtensionsBytes(tail))
    case ServerName(n, padding, tail) => Bytes16(0) + (Vec16(ServerNameBytes(n, padding)) + ExtensionsBytes(tail))
  }

  predicate RestOk(r: HelloRest) {
    r.Continues? ==>
      |r.compression| < 0x100 && ExtensionsOk(r.extensions) && |ExtensionsBytes(r.extensions)| < 0x1_0000
  }

  function RestBytes(r: HelloRest): seq<byte>
    requires RestOk(r)
  {
    match r
    case Ends => []
    case Continues(c, e, ignored) => Vec8(c) + (Vec16(ExtensionsBytes(e)) + ignored)
  }

  predicate HelloOk(h: ClientHello) {
    |h.random| == 32 && |h.session| < 0x100 && |h.ciphers| < 0x1_0000 && RestOk(h.rest)
  }

  function HelloBytes(h: ClientHello): seq<byte>
    requires HelloOk(h)
  {
    (Bytes16(h.version) + h.random) + (Vec8(h.session) + (Vec16(h.ciphers) + RestBytes(h.rest)))
  }

  function U24(a: byte, b: byte, c: byte): nat {
    a * 0x1_0000 + U16(b, c)
  }

  function Bytes24(n: nat): (s: seq<byte>)
    requires n < 0x100_0000
    ensures |s| == 3 && U24(s[0], s[1], s[2]) == n
  {
    Single(n / 0x1_0000) + Bytes16(n % 0x1_0000)
  }

  predicate FrameOk(f: Frame) {
    4 + |f.body| + |f.inRecord| < 0x1_0000
  }

  function HandshakeBytes(f: Frame): (s: seq<byte>)
    requires FrameOk(f)
    ensures |s| < 0x1_0000
  {
    (Single(1) + Bytes24(|f.body|)) + (f.body + f.inRecord)
  }

  function FrameBytes(f: Frame): seq<byte>
    requires FrameOk(f)
  {
    (Single(0x16) + Bytes16(f.recordVersion)) + (Vec16(HandshakeBytes(f)) + f.afterRecord)
  }

  /** The first non-empty host name of a list, when it is valid UTF-8. */
  function HostOf(n: Names): Option<seq<byte>> {
    match n
    case Stray(_) => None
    case Host(t, _) => if Utf8.Valid(t) then Some(t) else None
    case Skipped(_, _, tail) => HostOf(tail)
  }

  /** The host name of the last server_name extension that contributes one. */
  function SniOf(e: Extensions): Option<seq<byte>> {
    match e
    case Trailer(_) => None
    case Other(_, _, tail) => SniOf(tail)
    case ServerName(n, _, tail) => SniOf(tail).OrElse(HostOf(n))
  }

  function HelloSni(h: ClientHello): Option<seq<byte>> {
    if h.rest.Ends? then None else SniOf(h.rest.extensions)
  }
}
