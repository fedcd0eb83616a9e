/** What a ClientHello analysis means: the accepted language, the failures, and the round trip. */
module TlsTheorems {
  import opened Prelude
  import opened Vectors
  import opened TransportTypes
  import opened TlsGrammar
  import opened TlsSplit
  import opened TlsAnalyzer
  import Utf8

  /** `p` carries the whole ClientHello message framed by `f`. */
  ghost predicate Carries(p: seq<byte>, f: Frame) {
    FrameOk(f) && FrameBytes(f) == p
  }

  /** `body` is spelled by the syntax tree `h`. */
  ghost predicate Spells(h: ClientHello, body: seq<byte>) {
    HelloOk(h) && HelloBytes(h) == body
  }

  /** A byte string carries at most one frame, and `SplitFrame` finds it. */
  lemma FrameUnique(p: seq<byte>, f: Frame)
    ensures SplitFrame(p) == Some(f) <==> Carries(p, f)
  {
    FrameSound(p);
    if Carries(p, f) {
      FrameComplete(f);
    }
  }

  /** A body is spelled by at most one tree, and `SplitHello` finds it. */
  lemma HelloUnique(body: seq<byte>, h: ClientHello)
    ensures |body| >= 35 && SplitHello(body) == Some(h) <==> Spells(h, body)
  {
    if |body| >= 35 {
      HelloSound(body);
    }
    if Spells(h, body) {
      HelloComplete(h);
    }
  }

  /** A framed message is never cut short, so its body decides the outcome. */
  lemma FramedOutcome(f: Frame)
    requires FrameOk(f)
    ensures TlsOutcome(FrameBytes(f)) == BodyOutcome(f.body)
  {
    var p := FrameBytes(f);
    FrameComplete(f);
    assert Take16(p[3..]).Some?;
    var hs := Take16(p[3..]).value.0;
    assert |hs| == U16(p[3], p[4]);
    assert forall i :: 0 <= i < 4 ==> hs[i] == p[5 + i];
  }

  /** The analyzer reports a ClientHello for exactly the bytes the grammar derives, with exactly the tree's fields. */
  lemma AcceptedExactly(p: seq<byte>, version: u16, sni: Option<seq<byte>>, handshakeLen: nat)
    ensures TlsOutcome(p) == Ok(TlsClientHello(version, sni, handshakeLen)) <==>
            exists f: Frame, h: ClientHello ::
              && Carries(p, f) && Spells(h, f.body)
              && version == h.version && sni == HelloSni(h) && handshakeLen == |f.body|
  {
    if TlsOutcome(p) == Ok(TlsClientHello(version, sni, handshakeLen)) {
      var f := SplitFrame(p).value;
      var h := SplitHello(f.body).value;
      FrameUnique(p, f);
      HelloUnique(f.body, h);
      assert Carries(p, f) && Spells(h, f.body);
    }
    forall f: Frame, h: ClientHello | Carries(p, f) && Spells(h, f.body)
      ensures TlsOutcome(p) == Ok(TlsClientHello(h.version, HelloSni(h), |f.body|))
    {
      FramedOutcome(f);
      HelloUnique(f.body, h);
    }
  }

  /** Apart from a 34-byte body, a carried message is malformed exactly when no tree spells it. */
  lemma MalformedExactly(p: seq<byte>)
    ensures TlsOutcome(p) == Err(Malformed) <==>
            exists f: Frame :: Carries(p, f) && |f.body| != 34 && forall h: ClientHello :: !Spells(h, f.body)
  {
    if TlsOutcome(p) == Err(Malformed) {
      var f := SplitFrame(p).value;
      FrameUnique(p, f);
      forall h: ClientHello
        ensures !Spells(h, f.body)
      {
        HelloUnique(f.body, h);
      }
      assert Carries(p, f);
    }
    forall f: Frame | Carries(p, f) && |f.body| != 34 && forall h: ClientHello :: !Spells(h, f.body)
      ensures TlsOutcome(p) == Err(Malformed)
    {
      FramedOutcome(f);
      if |f.body| >= 35 && SplitHello(f.body).Some? {
        HelloUnique(f.body, SplitHello(f.body).value);
      }
    }
  }

  /** What is neither cut short nor a carried message is passed over without an error. */
  lemma NotRecognisedExactly(p: seq<byte>)
    ensures TlsOutcome(p) == Ok(NotRecognised) <==> !CutShort(p) && forall f: Frame :: !Carries(p, f)
  {
    forall f: Frame
      ensures SplitFrame(p) == Some(f) <==> Carries(p, f)
    {
      FrameUnique(p, f);
    }
  }

  /** The length a caller can read off the headers before the call. */
  predicate AnnouncesBodyOf34(p: seq<byte>) {
    && |p| >= 9 && p[0] == 0x16 && 38 <= U16(p[3], p[4]) <= |p| - 5
    && p[5] == 1 && U24(p[6], p[7], p[8]) == 34
  }

  /** The analyzer indexes out of range for exactly the payloads that announce a 34-byte ClientHello. */
  lemma PanicsExactly(p: seq<byte>)
    ensures TlsOutcome(p) == Panic <==> AnnouncesBodyOf34(p)
  {
    if |p| >= 9 {
      var n: int := U16(p[3], p[4]);
      if 5 + n <= |p| {
        assert p[3..][2..2 + n] == p[5..5 + n];
        if n >= 4 {
          var hs := p[5..5 + n];
          assert hs[0] == p[5] && hs[1] == p[6] && hs[2] == p[7] && hs[3] == p[8];
        }
      }
    }
  }

  /** Such payloads exist: a ClientHello that stops after its random. */
  lemma PanicWitness()
    ensures var f := Frame(0x0301, seq(34, _ => 0), [], []);
            FrameOk(f) && TlsOutcome(FrameBytes(f)) == Panic
  {
    var f := Frame(0x0301, seq(34, _ => 0), [], []);
    FramedOutcome(f);
  }

  /** Once the answer is not `Truncated`, no bytes that arrive later change it. */
  lemma LaterBytesIgnored(p: seq<byte>, more: seq<byte>)
    requires TlsOutcome(p) != Err(Truncated)
    ensures TlsOutcome(p + more) == TlsOutcome(p)
  {
    if p[0] == 0x16 {
      FrameGrows(p, more);
    }
  }

  lemma FrameGrows(p: seq<byte>, more: seq<byte>)
    requires |p| >= 5 && p[0] == 0x16 && 5 + U16(p[3], p[4]) <= |p|
    ensures SplitFrame(p).None? ==> SplitFrame(p + more).None?
    ensures SplitFrame(p).Some? ==>
              SplitFrame(p + more) == Some(SplitFrame(p).value.(afterRecord := SplitFrame(p).value.afterRecord + more))
  {
    var n: int := U16(p[3], p[4]);
    assert (p + more)[3..] == p[3..] + more;
    assert (p[3..] + more)[2..2 + n] == p[3..][2..2 + n];
    assert (p[3..] + more)[2 + n..] == p[3..][2 + n..] + more;
  }

  // --- What later bytes can do for a truncated payload ---

  function ByteOrZero(p: seq<byte>, i: nat): byte {
    if i < |p| then p[i] else 0
  }

  /** The record is not complete yet, and what is known of the message in it still fits into it. */
  predicate StillOpen(p: seq<byte>) {
    || |p| < 6
    || (|p| < 5 + U16(p[3], p[4])
        && (U16(p[3], p[4]) < 4 || p[5] != 1
            || 4 + U24(ByteOrZero(p, 6), ByteOrZero(p, 7), ByteOrZero(p, 8)) <= U16(p[3], p[4])))
  }

  /** Enough zero bytes end any truncation that can be ended. */
  lemma ZerosHelp(p: seq<byte>)
    requires TlsOutcome(p) == Err(Truncated) && StillOpen(p)
    ensures TlsOutcome(p + seq(0x1_0004, _ => 0)) != Err(Truncated)
  {
    var q := p + seq(0x1_0004, _ => 0);
    assert forall i: nat :: i < 9 ==> q[i] == ByteOrZero(p, i);
  }

  /** A message longer than its record stays truncated, whatever follows. */
  lemma NothingHelps(p: seq<byte>, more: seq<byte>)
    requires TlsOutcome(p) == Err(Truncated) && !StillOpen(p)
    ensures TlsOutcome(p + more) == Err(Truncated)
  {
    var q := p + more;
    assert forall i: nat :: i < |p| ==> q[i] == p[i];
    if |q| >= 9 {
      assert U24(q[6], q[7], q[8]) >= U24(ByteOrZero(p, 6), ByteOrZero(p, 7), ByteOrZero(p, 8));
    }
  }

  /** Later bytes can change a truncated answer exactly while the record is open; a split ClientHello is never read. */
  lemma TruncationEndsExactly(p: seq<byte>)
    requires TlsOutcome(p) == Err(Truncated)
    ensures StillOpen(p) <==> exists more: seq<byte> :: TlsOutcome(p + more) != Err(Truncated)
  {
    if StillOpen(p) {
      ZerosHelp(p);
    } else {
      forall more: seq<byte>
        ensures TlsOutcome(p + more) == Err(Truncated)
      {
        NothingHelps(p, more);
      }
    }
  }

  /** Such payloads exist: a complete record that holds only the first four bytes of a longer ClientHello. */
  lemma SplitHelloWitness()
    ensures var p: seq<byte> := [0x16, 3, 1, 0, 4, 1, 0, 1, 0];
            TlsOutcome(p) == Err(Truncated) && !StillOpen(p)
  {
  }

  // --- Encoding a ClientHello with one host name ---

  datatype Extra = Extra(kind: u16, data: seq<byte>)

  /** Other extensions in front of `tail`. */
  function Prefixed(extras: seq<Extra>, tail: Extensions): Extensions {
    if extras == [] then tail else Other(extras[0].kind, extras[0].data, Prefixed(extras[1..], tail))
  }

  lemma {:induction false} PrefixedSni(extras: seq<Extra>, tail: Extensions)
    ensures SniOf(Prefixed(extras, tail)) == SniOf(tail)
  {
    if extras != [] {
      PrefixedSni(extras[1..], tail);
    }
  }

  /** The extension block of a client that names `host` between any other extensions. */
  function HostExtensions(before: seq<Extra>, host: seq<byte>, after: seq<Extra>): Extensions {
    Prefixed(before, ServerName(Host(host, []), [], Prefixed(after, Trailer([]))))
  }

  /** A framed tree parses back to its own version, length and host name. */
  lemma TreeOutcome(f: Frame, h: ClientHello)
    requires FrameOk(f) && Spells(h, f.body)
    ensures TlsOutcome(FrameBytes(f)) == Ok(TlsClientHello(h.version, HelloSni(h), |f.body|))
  {
    FramedOutcome(f);
    HelloUnique(f.body, h);
  }

  /**
    * Any ClientHello with one host name parses back to its version, length and name, whatever surrounds the name or
    * follows the message.
    */
  lemma HostNameRoundTrip(h: ClientHello, before: seq<Extra>, host: seq<byte>, after: seq<Extra>, f: Frame)
    requires HelloOk(h) && h.rest.Continues? && h.rest.extensions == HostExtensions(before, host, after)
    requires host != [] && Utf8.Valid(host)
    requires FrameOk(f) && f.body == HelloBytes(h)
    ensures TlsOutcome(FrameBytes(f)) == Ok(TlsClientHello(h.version, Some(host), |HelloBytes(h)|))
  {
    TreeOutcome(f, h);
    HostExtensionsSni(before, host, after);
  }

  lemma HostExtensionsSni(before: seq<Extra>, host: seq<byte>, after: seq<Extra>)
    requires Utf8.Valid(host)
    ensures SniOf(HostExtensions(before, host, after)) == Some(host)
  {
    PrefixedSni(after, Trailer([]));
    PrefixedSni(before, ServerName(Host(host, []), [], Prefixed(after, Trailer([]))));
  }
}
