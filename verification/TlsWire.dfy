/** The grammar's encodings by byte positions, and answers for concrete payloads, independent of the field helpers. */
module TlsWire {
  import opened Prelude
  import opened Vectors
  import opened TransportTypes
  import opened TlsGrammar
  import opened TlsSplit
  import opened TlsAnalyzer
  import opened TlsTheorems
  import Utf8

  lemma Deeper(s: seq<byte>, a: nat, b: nat)
    requires a + b <= |s|
    ensures s[a..][b..] == s[a + b..]
  {
  }

  lemma Within(s: seq<byte>, a: nat, b: nat, c: nat)
    requires b <= c && a + c <= |s|
    ensures s[a..][b..c] == s[a + b..a + c]
  {
  }

  lemma DropJoined(a: seq<byte>, b: seq<byte>, n: nat)
    requires n <= |a|
    ensures (a + b)[n..] == a[n..] + b
  {
  }

  lemma Digits24(n: nat)
    requires n < 0x100_0000
    ensures Bytes24(n) == [n / 0x1_0000, n / 0x100 % 0x100, n % 0x100]
  {
    var q, r := n / 0x1_0000, n % 0x1_0000;
    assert n == 0x100 * (0x100 * q) + r;
    assert n / 0x100 == 0x100 * q + r / 0x100 && n % 0x100 == r % 0x100;
    Digits16(r);
    hide Bytes16;
  }

  /** A vector's two length bytes, high byte first, its contents, and what follows it. */
  lemma Vec16OnTheWire(s: seq<byte>, rest: seq<byte>)
    requires |s| < 0x1_0000
    ensures var b := Vec16(s) + rest;
            && |b| == 2 + |s| + |rest| && b[0] == |s| / 0x100 && b[1] == |s| % 0x100
            && b[2..] == s + rest && b[2..2 + |s|] == s && b[2 + |s|..] == rest
  {
    Digits16(|s|);
    var b := Vec16(s) + rest;
    assert b == Bytes16(|s|) + (s + rest);
  }

  /** A vector behind a short front. */
  lemma VecBehind(front: seq<byte>, s: seq<byte>, rest: seq<byte>)
    requires |s| < 0x1_0000
    ensures var b, n := front + (Vec16(s) + rest), |front|;
            && |b| == n + 2 + |s| + |rest| && b[..n] == front
            && b[n] == |s| / 0x100 && b[n + 1] == |s| % 0x100 && b[n + 2..] == s + rest
  {
    Vec16OnTheWire(s, rest);
    hide Vec16;
    var b, tail := front + (Vec16(s) + rest), Vec16(s) + rest;
    Rejoin(front, tail);
    Deeper(b, |front|, 2);
  }

  lemma HandshakeOnTheWire(f: Frame)
    requires FrameOk(f)
    ensures var hs, m := HandshakeBytes(f), |f.body|;
            && |hs| == 4 + m + |f.inRecord|
            && hs[0] == 1 && hs[1] == m / 0x1_0000 && hs[2] == m / 0x100 % 0x100 && hs[3] == m % 0x100
            && hs[4..] == f.body + f.inRecord
  {
    Digits24(|f.body|);
    hide Bytes24;
    Rejoin(Single(1) + Bytes24(|f.body|), f.body + f.inRecord);
  }

  lemma RecordOnTheWire(f: Frame)
    requires FrameOk(f)
    ensures var p, hs := FrameBytes(f), HandshakeBytes(f);
            && |p| == 5 + |hs| + |f.afterRecord| && p[..3] == [0x16, f.recordVersion / 0x100, f.recordVersion % 0x100]
            && p[3] == |hs| / 0x100 && p[4] == |hs| % 0x100 && p[5..] == hs + f.afterRecord
  {
    hide HandshakeBytes;
    Digits16(f.recordVersion);
    hide Bytes16;
    VecBehind(Single(0x16) + Bytes16(f.recordVersion), HandshakeBytes(f), f.afterRecord);
    hide Vec16;
  }

  /** The nine bytes of the record and handshake headers (sections 5.1 and 4 of RFC 8446), high byte first. */
  lemma FrameOnTheWire(f: Frame)
    requires FrameOk(f)
    ensures var p, n, m, v: int := FrameBytes(f), 4 + |f.body| + |f.inRecord|, |f.body|, f.recordVersion;
            && |p| == 5 + n + |f.afterRecord|
            && p[0] == 0x16 && p[1] == v / 0x100 && p[2] == v % 0x100 && p[3] == n / 0x100 && p[4] == n % 0x100
            && p[5] == 1 && p[6] == m / 0x1_0000 && p[7] == m / 0x100 % 0x100 && p[8] == m % 0x100
            && p[9..] == (f.body + f.inRecord) + f.afterRecord
  {
    HandshakeOnTheWire(f);
    RecordOnTheWire(f);
    hide FrameBytes, HandshakeBytes;
    var p, hs := FrameBytes(f), HandshakeBytes(f);
    assert p[0] == p[..3][0] && p[1] == p[..3][1] && p[2] == p[..3][2];
    assert p[5] == p[5..][0] && p[6] == p[5..][1] && p[7] == p[5..][2] && p[8] == p[5..][3];
    Deeper(p, 5, 4);
    DropJoined(hs, f.afterRecord, 4);
  }

  /** The fixed fields of a ClientHello and its two leading vectors (section 4.1.2 of RFC 8446). */
  lemma HelloOnTheWire(h: ClientHello)
    requires HelloOk(h)
    ensures var b, s, c := HelloBytes(h), |h.session|, |h.ciphers|;
            && |b| >= 37 + s + c
            && b[0] == h.version / 0x100 && b[1] == h.version % 0x100 && b[2..34] == h.random
            && b[34] == s && b[35..35 + s] == h.session
            && b[35 + s] == c / 0x100 && b[36 + s] == c % 0x100 && b[37 + s..37 + s + c] == h.ciphers
            && b[37 + s + c..] == RestBytes(h.rest)
  {
    hide Vec16, RestBytes;
    var s, c, b := |h.session|, |h.ciphers|, HelloBytes(h);
    var front, tail := Bytes16(h.version) + h.random, Vec16(h.ciphers) + RestBytes(h.rest);
    Digits16(h.version);
    Rejoin(front, Vec8(h.session) + tail);
    Rejoin(Bytes16(h.version), h.random);
    assert b[..34] == front && b[2..34] == b[..34][2..];
    Rejoin(Vec8(h.session), tail);
    assert b[34..][1..1 + s] == h.session && b[34..][1 + s..] == tail;
    Vec16OnTheWire(h.ciphers, RestBytes(h.rest));
    Within(b, 34, 1, 1 + s);
    Deeper(b, 34, 1 + s);
    Within(b, 35 + s, 2, 2 + c);
    Deeper(b, 35 + s, 2 + c);
  }

  /** The compression methods and the length of the extension block. */
  lemma RestOnTheWire(r: HelloRest)
    requires RestOk(r) && r.Continues?
    ensures var b, m, n := RestBytes(r), |r.compression|, |ExtensionsBytes(r.extensions)|;
            && |b| >= 3 + m + n && b[0] == m && b[1..1 + m] == r.compression
            && b[1 + m] == n / 0x100 && b[2 + m] == n % 0x100
            && b[3 + m..3 + m + n] == ExtensionsBytes(r.extensions) && b[3 + m + n..] == r.ignored
  {
    hide Vec16, ExtensionsBytes;
    var block := ExtensionsBytes(r.extensions);
    var m, n, tail := |r.compression|, |block|, Vec16(block) + r.ignored;
    Rejoin(Vec8(r.compression), tail);
    Vec16OnTheWire(block, r.ignored);
    var b := RestBytes(r);
    assert b[1..1 + m] == r.compression && b[1 + m..] == tail;
    assert b[3 + m..3 + m + n] == tail[2..2 + n] && b[3 + m + n..] == tail[2 + n..];
  }

  /** The contents of a server_name extension (section 3 of RFC 6066): the list's length, the list, ignored bytes. */
  lemma ServerNameOnTheWire(names: Names, padding: seq<byte>)
    requires ServerNameOk(names, padding)
    ensures var s, n := ServerNameBytes(names, padding), |NamesBytes(names)|;
            && |s| == 2 + n + |padding| && s[0] == n / 0x100 && s[1] == n % 0x100
            && s[2..2 + n] == NamesBytes(names) && s[2 + n..] == padding
  {
    hide NamesBytes;
    Vec16OnTheWire(NamesBytes(names), padding);
  }

  /** A server_name extension starts with type 0; then follow its contents as a vector. */
  lemma ServerNameExtension(names: Names, padding: seq<byte>, tail: Extensions)
    requires ServerNameOk(names, padding) && ExtensionsOk(tail)
    ensures ExtensionsBytes(ServerName(names, padding, tail)) ==
            [0, 0] + (Vec16(ServerNameBytes(names, padding)) + ExtensionsBytes(tail))
  {
    Digits16(0);
    hide Bytes16, NamesOk, NamesBytes, Vec16, ServerNameBytes, ServerNameOk;
  }

  /** Any other extension starts with its own type. */
  lemma OtherExtension(kind: u16, data: seq<byte>, tail: Extensions)
    requires ExtensionsOk(Other(kind, data, tail))
    ensures ExtensionsBytes(Other(kind, data, tail)) ==
            [kind / 0x100, kind % 0x100] + (Vec16(data) + ExtensionsBytes(tail))
  {
    Digits16(kind);
    hide Bytes16, Vec16;
  }

  /** A host name entry starts with type 0, one passed over with its own; then follows the name as a vector. */
  lemma NameOnTheWire(kind: byte, text: seq<byte>, ignored: seq<byte>, tail: Names)
    ensures NamesOk(Host(text, ignored)) ==> NamesBytes(Host(text, ignored)) == [0] + (Vec16(text) + ignored)
    ensures NamesOk(Skipped(kind, text, tail)) ==>
              NamesBytes(Skipped(kind, text, tail)) == [kind] + (Vec16(text) + NamesBytes(tail))
  {
    hide Vec16;
  }

  // --- Concrete payloads, written out layer by layer ---

  const HOST: seq<byte> := [97, 46, 98]  // a.b
  const NAME_LIST: seq<byte> := [0] + (([0, 3] + HOST) + [])
  const NAME_DATA: seq<byte> := ([0, 6] + NAME_LIST) + []
  const EXTENSIONS: seq<byte> := [0, 0] + (([0, 8] + NAME_DATA) + [])
  const AFTER_CIPHERS: seq<byte> := ([1] + [0]) + (([0, 12] + EXTENSIONS) + [])

  function Hello(random: seq<byte>): seq<byte> {
    ([3, 3] + random) + (([0] + []) + (([0, 2] + [0x13, 1]) + AFTER_CIPHERS))
  }

  /** The record of a message shorter than 252 bytes, alone in it. */
  function Record(message: seq<byte>): seq<byte>
    requires |message| < 0xFC
  {
    ([0x16] + [3, 1]) + (([0, |message| + 4] + (([1] + [0, 0, |message|]) + (message + []))) + [])
  }

  lemma VecOfFew(s: seq<byte>)
    requires |s| < 0x100
    ensures Vec16(s) == [0, |s|] + s
  {
    Digits16(|s|);
  }

  lemma HostNameBytes()
    ensures NamesOk(Host(HOST, [])) && NamesBytes(Host(HOST, [])) == NAME_LIST && |NAME_LIST| == 6
  {
    VecOfFew(HOST);
    hide Vec16;
  }

  lemma HostDataBytes()
    ensures ServerNameOk(Host(HOST, []), []) && ServerNameBytes(Host(HOST, []), []) == NAME_DATA && |NAME_DATA| == 8
  {
    HostNameBytes();
    hide NamesOk, NamesBytes;
    VecOfFew(NAME_LIST);
    hide Vec16;
  }

  lemma HostExtensionBytes()
    ensures var e := ServerName(Host(HOST, []), [], Trailer([]));
            ExtensionsOk(e) && ExtensionsBytes(e) == EXTENSIONS && |EXTENSIONS| == 12
  {
    HostDataBytes();
    ServerNameExtension(Host(HOST, []), [], Trailer([]));
    hide ServerNameOk, ServerNameBytes, NamesBytes, NamesOk;
    VecOfFew(NAME_DATA);
    hide Vec16;
  }

  /** The tree of a ClientHello that names the host. */
  function HostHello(random: seq<byte>): ClientHello {
    ClientHello(0x0303, random, [], [0x13, 1], Continues([0], ServerName(Host(HOST, []), [], Trailer([])), []))
  }

  lemma HostRestBytes(random: seq<byte>)
    ensures RestOk(HostHello(random).rest)
    ensures RestBytes(HostHello(random).rest) == AFTER_CIPHERS && |AFTER_CIPHERS| == 16
  {
    HostExtensionBytes();
    hide ExtensionsOk, ExtensionsBytes;
    VecOfFew(EXTENSIONS);
    hide Vec16;
  }

  lemma HostHelloBytes(random: seq<byte>)
    requires |random| == 32
    ensures HelloOk(HostHello(random)) && HelloBytes(HostHello(random)) == Hello(random) && |Hello(random)| == 55
  {
    HostRestBytes(random);
    hide RestOk, RestBytes;
    Digits16(0x0303);
    VecOfFew([0x13, 1]);
    hide Vec16, Bytes16;
  }

  lemma ShortHandshakeBytes(message: seq<byte>)
    requires |message| < 0xFC
    ensures HandshakeBytes(Frame(0x0301, message, [], [])) == ([1] + [0, 0, |message|]) + (message + [])
  {
    Digits24(|message|);
    hide Bytes24;
  }

  lemma RecordBytes(message: seq<byte>)
    requires |message| < 0xFC
    ensures var f := Frame(0x0301, message, [], []);
            FrameOk(f) && FrameBytes(f) == Record(message)
  {
    ShortHandshakeBytes(message);
    hide HandshakeBytes;
    VecOfFew(HandshakeBytes(Frame(0x0301, message, [], [])));
    Digits16(0x0301);
    hide Vec16, Bytes16;
  }

  lemma HostName(random: seq<byte>)
    ensures HelloSni(HostHello(random)) == Some(HOST)
  {
    assert Utf8.Valid(HOST) by {
      Utf8.AsciiIsValid(HOST);
    }
    hide Utf8.Valid;
    assert SniOf(Trailer([])) == None;
  }

  /** A ClientHello that names the host a.b. */
  lemma HelloWithHost(random: seq<byte>)
    requires |random| == 32
    ensures |Hello(random)| == 55
    ensures TlsOutcome(Record(Hello(random))) == Ok(TlsClientHello(0x0303, Some([97, 46, 98]), 55))
  {
    HostHelloBytes(random);
    HostName(random);
    RecordBytes(Hello(random));
    hide HelloOk, HelloBytes, HelloSni, Hello, Record, FrameBytes, FrameOk, TlsOutcome;
    TreeOutcome(Frame(0x0301, Hello(random), [], []), HostHello(random));
  }

  function BareHello(random: seq<byte>): seq<byte> {
    ([3, 3] + random) + (([0] + []) + (([0, 2] + [0x13, 1]) + []))
  }

  /** A ClientHello that ends after its cipher suites has no name. */
  lemma HelloWithoutHost(random: seq<byte>)
    requires |random| == 32
    ensures |BareHello(random)| == 39
    ensures TlsOutcome(Record(BareHello(random))) == Ok(TlsClientHello(0x0303, None, 39))
  {
    var h := ClientHello(0x0303, random, [], [0x13, 1], Ends);
    BareBytes(h, random);
    RecordBytes(BareHello(random));
    hide HelloOk, HelloBytes, BareHello, Record, FrameBytes, FrameOk, TlsOutcome;
    TreeOutcome(Frame(0x0301, BareHello(random), [], []), h);
  }

  lemma BareBytes(h: ClientHello, random: seq<byte>)
    requires |random| == 32
    requires h == ClientHello(0x0303, random, [], [0x13, 1], Ends)
    ensures HelloOk(h) && HelloBytes(h) == BareHello(random) && |BareHello(random)| == 39
  {
    Digits16(0x0303);
    VecOfFew([0x13, 1]);
    hide Vec16, Bytes16;
  }

  /** The first two bytes of a record, as in the tests of `transport.rs`, and a record of another type. */
  lemma ShortAndOther()
    ensures TlsOutcome([0x16, 3]) == Err(Truncated)
    ensures TlsOutcome([0x17, 3, 3, 0, 0]) == Ok(NotRecognised)
  {
    assert SplitFrame([0x17, 3, 3, 0, 0]).None?;
  }

  /** Of two server_name extensions the later name counts, unless it is not valid UTF-8: then the earlier one stays. */
  lemma LastNameWins(first: seq<byte>, second: seq<byte>)
    requires Utf8.Valid(first)
    ensures var both := ServerName(Host(first, []), [], ServerName(Host(second, []), [], Trailer([])));
            SniOf(both) == if Utf8.Valid(second) then Some(second) else Some(first)
  {
    hide Utf8.Valid;
    assert SniOf(ServerName(Host(second, []), [], Trailer([]))) == HostOf(Host(second, []));
  }
}
