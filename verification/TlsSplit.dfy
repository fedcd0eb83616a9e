/** The tree of a byte string, when it has one. */
module TlsSplit {
  import opened Prelude
  import opened Vectors
  import opened TlsGrammar

  function SplitNames(l: seq<byte>): Option<Names> {
    if |l| < 3 then Some(Stray(l))
    else
      match Take16(l[1..])
      case None => None
      case Some((text, rest)) =>
        if l[0] == 0 && text != [] then Some(Host(text, rest))
        else
          Take16Sound(l[1..]);
          match SplitNames(rest)
          case None => None
          case Some(tail) => Some(Skipped(l[0], text, tail))
  }

  function SplitServerName(d: seq<byte>): Option<(Names, seq<byte>)> {
    match Take16(d)
    case None => None
    case Some((list, padding)) =>
      match SplitNames(list)
      case None => None
      case Some(names) => Some((names, padding))
  }

  /** One extension in front of an already split tail. */
  function Attach(kind: u16, data: seq<byte>, tail: Extensions): Option<Extensions> {
    if kind == 0 && |data| >= 5 then
      match SplitServerName(data)
      case None => None
      case Some((names, padding)) => Some(ServerName(names, padding, tail))
    else Some(Other(kind, data, tail))
  }

  function SplitExtensions(b: seq<byte>): Option<Extensions> {
    if |b| < 4 then Some(Trailer(b))
    else
      match Take16(b[2..])
      case None => None
      case Some((data, rest)) =>
        Take16Sound(b[2..]);
        match SplitExtensions(rest)
        case None => None
        case Some(tail) => Attach(U16(b[0], b[1]), data, tail)
  }

  function SplitRest(b: seq<byte>): Option<HelloRest> {
    if b == [] then Some(Ends)
    else
      match Take8(b)
      case None => None
      case Some((compression, b1)) =>
        match Take16(b1)
        case None => None
        case Some((block, ignored)) =>
          match SplitExtensions(block)
          case None => None
          case Some(e) => Some(Continues(compression, e, ignored))
  }

  function SplitHello(b: seq<byte>): Option<ClientHello>
    requires |b| >= 34
  {
    match Take8(b[34..])
    case None => None
    case Some((session, b1)) =>
      match Take16(b1)
      case None => None
      case Some((ciphers, b2)) =>
        match SplitRest(b2)
        case None => None
        case Some(rest) => Some(ClientHello(U16(b[0], b[1]), b[2..34], session, ciphers, rest))
  }

  /** Cutting a concatenation where it was joined. */
  lemma Rejoin(a: seq<byte>, b: seq<byte>)
    ensures (a + b)[..|a|] == a && (a + b)[|a|..] == b
  {
  }

  // --- Names ---

  lemma {:induction false} NamesSound(l: seq<byte>)
    ensures SplitNames(l).Some? ==> NamesOk(SplitNames(l).value) && NamesBytes(SplitNames(l).value) == l
  {
    if |l| >= 3 && Take16(l[1..]).Some? {
      var (text, rest) := Take16(l[1..]).value;
      Take16Sound(l[1..]);
      hide Take16, Vec16;
      assert l == Single(l[0]) + l[1..];
      NamesSound(rest);
    }
  }

  lemma {:induction false} NamesComplete(n: Names)
    requires NamesOk(n)
    ensures SplitNames(NamesBytes(n)) == Some(n)
  {
    match n
    case Stray(_) =>
    case Host(t, ignored) =>
      Rejoin(Single(0), Vec16(t) + ignored);
      Take16Complete(t, ignored);
    case Skipped(k, t, tail) =>
      Rejoin(Single(k), Vec16(t) + NamesBytes(tail));
      Take16Complete(t, NamesBytes(tail));
      NamesComplete(tail);
  }

  // --- Extensions ---

  lemma ServerNameSound(d: seq<byte>)
    requires 5 <= |d| < 0x1_0000
    ensures SplitServerName(d).Some? ==>
              var (n, padding) := SplitServerName(d).value;
              ServerNameOk(n, padding) && ServerNameBytes(n, padding) == d
  {
    Take16Sound(d);
    if Take16(d).Some? {
      NamesSound(Take16(d).value.0);
    }
  }

  lemma ServerNameComplete(n: Names, padding: seq<byte>)
    requires ServerNameOk(n, padding)
    ensures SplitServerName(ServerNameBytes(n, padding)) == Some((n, padding))
  {
    Take16Complete(NamesBytes(n), padding);
    NamesComplete(n);
  }

  /** An attached extension spells its type, its contents and then the tail. */
  lemma AttachSound(kind: u16, data: seq<byte>, tail: Extensions)
    requires |data| < 0x1_0000 && ExtensionsOk(tail)
    ensures var e := Attach(kind, data, tail);
            e.Some? ==>
              && ExtensionsOk(e.value)
              && ExtensionsBytes(e.value) == Bytes16(kind) + (Vec16(data) + ExtensionsBytes(tail))
  {
    if kind == 0 && |data| >= 5 {
      ServerNameSound(data);
    }
  }

  lemma {:induction false} ExtensionsSound(b: seq<byte>)
    ensures SplitExtensions(b).Some? ==>
              ExtensionsOk(SplitExtensions(b).value) && ExtensionsBytes(SplitExtensions(b).value) == b
  {
    if |b| >= 4 && SplitExtensions(b).Some? {
      Take16Sound(b[2..]);
      var (data, rest) := Take16(b[2..]).value;
      ExtensionsSound(rest);
      AttachSound(U16(b[0], b[1]), data, SplitExtensions(rest).value);
      Field16Of(b);
    }
  }

  /** A whole extension in front of a block that splits is attached to what the block splits into. */
  lemma FrontExtension(kind: u16, data: seq<byte>, block: seq<byte>, tail: Extensions)
    requires |data| < 0x1_0000 && SplitExtensions(block) == Some(tail)
    ensures SplitExtensions(Bytes16(kind) + (Vec16(data) + block)) == Attach(kind, data, tail)
  {
    Field16(kind, Vec16(data) + block);
    Take16Complete(data, block);
  }

  lemma {:induction false} ExtensionsComplete(e: Extensions)
    requires ExtensionsOk(e)
    ensures SplitExtensions(ExtensionsBytes(e)) == Some(e)
  {
    match e
    case Trailer(_) =>
    case Other(k, d, tail) =>
      ExtensionsComplete(tail);
      FrontExtension(k, d, ExtensionsBytes(tail), tail);
    case ServerName(n, padding, tail) =>
      ExtensionsComplete(tail);
      ServerNameComplete(n, padding);
      FrontExtension(0, ServerNameBytes(n, padding), ExtensionsBytes(tail), tail);
  }

  // --- The ClientHello ---

  lemma RestSound(b: seq<byte>)
    ensures SplitRest(b).Some? ==> RestOk(SplitRest(b).value) && RestBytes(SplitRest(b).value) == b
  {
    if SplitRest(b).Some? && b != [] {
      Take8Sound(b);
      var b1 := Take8(b).value.1;
      Take16Sound(b1);
      ExtensionsSound(Take16(b1).value.0);
    }
  }

  lemma RestComplete(r: HelloRest)
    requires RestOk(r)
    ensures SplitRest(RestBytes(r)) == Some(r)
  {
    if r.Continues? {
      Take8Complete(r.compression, Vec16(ExtensionsBytes(r.extensions)) + r.ignored);
      Take16Complete(ExtensionsBytes(r.extensions), r.ignored);
      ExtensionsComplete(r.extensions);
    }
  }

  lemma HelloSound(b: seq<byte>)
    requires |b| >= 34
    ensures SplitHello(b).Some? ==> HelloOk(SplitHello(b).value) && HelloBytes(SplitHello(b).value) == b
  {
    if SplitHello(b).Some? {
      Take8Sound(b[34..]);
      var (session, b1) := Take8(b[34..]).value;
      Take16Sound(b1);
      var (ciphers, b2) := Take16(b1).value;
      RestSound(b2);
      Field16Of(b[..34]);
      assert b[..34][2..] == b[2..34];
      calc {
        b;
        b[..34] + b[34..];
        (Bytes16(U16(b[0], b[1])) + b[2..34]) + (Vec8(session) + (Vec16(ciphers) + b2));
      }
    }
  }

  lemma HelloComplete(h: ClientHello)
    requires HelloOk(h)
    ensures |HelloBytes(h)| >= 37 && SplitHello(HelloBytes(h)) == Some(h)
  {
    var front, b2 := Bytes16(h.version) + h.random, Vec16(h.ciphers) + RestBytes(h.rest);
    Rejoin(front, Vec8(h.session) + b2);
    Rejoin(Bytes16(h.version), h.random);
    var b := HelloBytes(h);
    assert b[2..34] == front[2..] && b[..2] == front[..2];
    Take8Complete(h.session, b2);
    Take16Complete(h.ciphers, RestBytes(h.rest));
    RestComplete(h.rest);
  }

  // --- The record and handshake headers ---

  function SplitFrame(p: seq<byte>): Option<Frame> {
    if |p| < 5 || p[0] != 0x16 then None
    else
      match Take16(p[3..])
      case None => None
      case Some((hs, afterRecord)) =>
        if |hs| < 4 || hs[0] != 1 || 4 + U24(hs[1], hs[2], hs[3]) > |hs| then None
        else
          var n := U24(hs[1], hs[2], hs[3]);
          Some(Frame(U16(p[1], p[2]), hs[4..4 + n], hs[4 + n..], afterRecord))
  }

  lemma Bytes24OfU24(a: byte, b: byte, c: byte)
    ensures Bytes24(U24(a, b, c)) == [a, b, c]
  {
    Bytes16OfU16(b, c);
    assert U24(a, b, c) / 0x1_0000 == a && U24(a, b, c) % 0x1_0000 == U16(b, c);
  }

  /** The handshake header rebuilt from a record's contents. */
  lemma HandshakeRebuilt(hs: seq<byte>, f: Frame)
    requires 4 <= |hs| < 0x1_0000 && hs[0] == 1 && 4 + U24(hs[1], hs[2], hs[3]) <= |hs|
    requires f.body == hs[4..4 + U24(hs[1], hs[2], hs[3])] && f.inRecord == hs[4 + U24(hs[1], hs[2], hs[3])..]
    ensures FrameOk(f) && HandshakeBytes(f) == hs
  {
    Bytes24OfU24(hs[1], hs[2], hs[3]);
    assert hs[..4] == Single(1) + Bytes24(|f.body|);
    assert hs[4..] == f.body + f.inRecord;
    assert hs == hs[..4] + hs[4..];
  }

  lemma FrameSound(p: seq<byte>)
    ensures SplitFrame(p).Some? ==> FrameOk(SplitFrame(p).value) && FrameBytes(SplitFrame(p).value) == p
  {
    if SplitFrame(p).Some? {
      var f := SplitFrame(p).value;
      Take16Sound(p[3..]);
      HandshakeRebuilt(Take16(p[3..]).value.0, f);
      Bytes16OfU16(p[1], p[2]);
      assert p[..3] == Single(0x16) + Bytes16(f.recordVersion);
      assert p == p[..3] + p[3..];
    }
  }

  lemma FrameComplete(f: Frame)
    requires FrameOk(f)
    ensures SplitFrame(FrameBytes(f)) == Some(f)
  {
    var p, hs := FrameBytes(f), HandshakeBytes(f);
    var front := Single(0x16) + Bytes16(f.recordVersion);
    Rejoin(front, Vec16(hs) + f.afterRecord);
    assert p[1..3] == front[1..3] == Bytes16(f.recordVersion);
    Take16Complete(hs, f.afterRecord);
    var head := Single(1) + Bytes24(|f.body|);
    Rejoin(head, f.body + f.inRecord);
    assert hs[1..4] == head[1..4] == Bytes24(|f.body|);
    Rejoin(f.body, f.inRecord);
    assert hs[4..4 + |f.body|] == f.body && hs[4 + |f.body|..] == f.inRecord;
  }
}
