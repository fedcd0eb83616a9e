/** `analyze_tls_client_hello`: its loops, what they compute, and the grammar theorems about it. */
module TlsAnalyzer {
  import opened Prelude
  import opened Vectors
  import opened TransportTypes
  import opened TlsGrammar
  import opened TlsSplit
  import Utf8

  /** What becomes of the body of a complete ClientHello message. */
  function BodyOutcome(body: seq<byte>): Outcome {
    if |body| < 34 then Err(Malformed)
    else if |body| == 34 then Panic
    else
      match SplitHello(body)
      case None => Err(Malformed)
      case Some(h) => Ok(TlsClientHello(h.version, HelloSni(h), |body|))
  }

  /** A record or handshake length that reaches past the bytes at hand. */
  predicate CutShort(p: seq<byte>) {
    || |p| < 5
    || (p[0] == 0x16 && 5 + U16(p[3], p[4]) > |p|)
    || (p[0] == 0x16 && U16(p[3], p[4]) >= 4 && p[5] == 1 && U24(p[6], p[7], p[8]) > U16(p[3], p[4]) - 4)
  }

  function TlsOutcome(p: seq<byte>): Outcome {
    if CutShort(p) then Err(Truncated)
    else if SplitFrame(p).None? then Ok(NotRecognised)
    else BodyOutcome(SplitFrame(p).value.body)
  }

  // --- What the two loops carry ---

  function NamesOutcome(l: seq<byte>): Option<Option<seq<byte>>> {
    match SplitNames(l)
    case None => None
    case Some(n) => Some(HostOf(n))
  }

  function ExtensionsOutcome(sni: Option<seq<byte>>, block: seq<byte>): Option<Option<seq<byte>>> {
    match SplitExtensions(block)
    case None => None
    case Some(e) => Some(SniOf(e).OrElse(sni))
  }

  /** One entry of the name list `s[i..end]`: its text is `s[i + 3..i + 3 + n]`. */
  lemma NamesFront(s: seq<byte>, i: nat, end: nat, n: nat)
    requires i + 3 <= end <= |s| && n == U16(s[i + 1], s[i + 2])
    ensures i + 3 + n > end ==> NamesOutcome(s[i..end]) == None
    ensures i + 3 + n <= end && s[i] == 0 && n > 0 ==>
              var text := s[i + 3..i + 3 + n];
              NamesOutcome(s[i..end]) == Some(if Utf8.Valid(text) then Some(text) else None)
    ensures i + 3 + n <= end && (s[i] != 0 || n == 0) ==> NamesOutcome(s[i..end]) == NamesOutcome(s[i + 3 + n..end])
  {
    hide NamesOutcome, Utf8.Valid;
    Take16At(s, i + 1, end);
    assert s[i..end][1..] == s[i + 1..end];
    NamesCut(s[i..end]);
  }

  lemma NamesCut(l: seq<byte>)
    requires |l| >= 3
    ensures Take16(l[1..]).None? ==> NamesOutcome(l) == None
    ensures Take16(l[1..]).Some? ==>
              var (text, rest) := Take16(l[1..]).value;
              NamesOutcome(l) ==
              if l[0] == 0 && text != [] then Some(if Utf8.Valid(text) then Some(text) else None)
              else NamesOutcome(rest)
  {
    Take16Sound(l[1..]);
  }

  /** What the extension of the given type and contents does to the name found so far. */
  function ExtensionOutcome(kind: u16, data: seq<byte>, sni: Option<seq<byte>>): Option<Option<seq<byte>>> {
    if kind == 0 && |data| >= 5 then
      match SplitServerName(data)
      case None => None
      case Some((names, _)) => Some(HostOf(names).OrElse(sni))
    else Some(sni)
  }

  lemma ExtensionsCut(sni: Option<seq<byte>>, b: seq<byte>, data: seq<byte>, rest: seq<byte>)
    requires |b| >= 4 && Take16(b[2..]) == Some((data, rest))
    ensures var next := ExtensionOutcome(U16(b[0], b[1]), data, sni);
            ExtensionsOutcome(sni, b) == if next.None? then None else ExtensionsOutcome(next.value, rest)
  {
    Take16Sound(b[2..]);
  }

  /** One extension of the block `s[i..end]`: its contents are `s[i + 4..i + 4 + n]`. */
  lemma ExtensionsFront(s: seq<byte>, i: nat, end: nat, n: nat, sni: Option<seq<byte>>)
    requires i + 4 <= end <= |s| && n == U16(s[i + 2], s[i + 3])
    ensures i + 4 + n > end ==> ExtensionsOutcome(sni, s[i..end]) == None
    ensures i + 4 + n <= end ==>
              var next := ExtensionOutcome(U16(s[i], s[i + 1]), s[i + 4..i + 4 + n], sni);
              ExtensionsOutcome(sni, s[i..end]) ==
              if next.None? then None else ExtensionsOutcome(next.value, s[i + 4 + n..end])
  {
    Take16At(s, i + 2, end);
    assert s[i..end][2..] == s[i + 2..end];
    if i + 4 + n <= end {
      ExtensionsCut(sni, s[i..end], s[i + 4..i + 4 + n], s[i + 4 + n..end]);
    }
  }

  /** Both loops end where too few bytes are left for another header. */
  lemma LoopEnds(b: seq<byte>, sni: Option<seq<byte>>)
    ensures |b| < 3 ==> NamesOutcome(b) == Some(None)
    ensures |b| < 4 ==> ExtensionsOutcome(sni, b) == Some(sni)
  {
  }

  /** A server_name extension is decided by the names in its list. */
  lemma ServerNameOutcome(ext: seq<byte>, sni: Option<seq<byte>>)
    requires |ext| >= 5
    ensures var n: int := U16(ext[0], ext[1]);
            ExtensionOutcome(0, ext, sni) ==
            if n + 2 > |ext| || NamesOutcome(ext[2..2 + n]).None? then None
            else Some(NamesOutcome(ext[2..2 + n]).value.OrElse(sni))
  {
  }

  /** The name loop: `None` stands for its `Malformed` return, otherwise the name it leaves in `sni`. */
  method ScanServerName(ext: seq<byte>, sni: Option<seq<byte>>) returns (r: Option<Option<seq<byte>>>)
    requires |ext| >= 5
    ensures r == ExtensionOutcome(0, ext, sni)
  {
    hide Utf8.Valid, NamesOutcome, ExtensionOutcome;
    ServerNameOutcome(ext, sni);
    var listLen: int := U16(ext[0], ext[1]);
    if listLen + 2 > |ext| {
      return None;
    }
    var end := 2 + listLen;
    var np, found := 2, sni;
    while np + 3 <= end
      invariant 2 <= np <= end && found == sni
      invariant NamesOutcome(ext[2..end]) == NamesOutcome(ext[np..end])
    {
      var kind := ext[np];
      var nameLen: int := U16(ext[np + 1], ext[np + 2]);
      NamesFront(ext, np, end, nameLen);
      np := np + 3;
      if np + nameLen > end || np + nameLen > |ext| {
        return None;
      }
      if kind == 0 && nameLen > 0 {
        if Utf8.Valid(ext[np..np + nameLen]) {
          found := Some(ext[np..np + nameLen]);
        }
        return Some(found);
      }
      np := np + nameLen;
    }
    LoopEnds(ext[np..end], sni);
    return Some(found);
  }

  /** The extension loop over `body[start..end]`; `None` stands for its `Malformed` return. */
  method ScanExtensions(body: seq<byte>, start: nat, end: nat) returns (r: Option<Option<seq<byte>>>)
    requires start <= end <= |body|
    ensures r == ExtensionsOutcome(None, body[start..end])
  {
    hide ExtensionsOutcome, SplitServerName, HostOf;
    var pos, sni: Option<seq<byte>> := start, None;
    while pos + 4 <= end
      invariant start <= pos <= end
      invariant ExtensionsOutcome(sni, body[pos..end]) == ExtensionsOutcome(None, body[start..end])
    {
      var kind: u16 := U16(body[pos], body[pos + 1]);
      var extLen: int := U16(body[pos + 2], body[pos + 3]);
      ExtensionsFront(body, pos, end, extLen, sni);
      pos := pos + 4;
      if pos + extLen > end {
        return None;
      }
      if kind == 0 && extLen >= 5 {
        var s := ScanServerName(body[pos..pos + extLen], sni);
        if s.None? {
          return None;
        }
        sni := s.value;
      }
      pos := pos + extLen;
    }
    LoopEnds(body[pos..end], sni);
    return Some(sni);
  }

  /** The part after the cipher suites, from `start` on. */
  method AnalyzeRest(body: seq<byte>, start: nat) returns (malformed: bool, sni: Option<seq<byte>>)
    requires start <= |body|
    ensures malformed == SplitRest(body[start..]).None?
    ensures !malformed ==>
              sni == (if SplitRest(body[start..]).value.Ends? then None
                      else SniOf(SplitRest(body[start..]).value.extensions))
  {
    hide SplitExtensions;
    var pos := start;
    ghost var b := body[start..];
    if pos >= |body| {
      return false, None;
    }
    var compressionLen: int := body[pos];
    pos := pos + 1;
    if pos + compressionLen > |body| {
      return true, None;
    }
    pos := pos + compressionLen;
    ghost var b1 := body[pos..];
    assert b[1 + compressionLen..] == b1;
    if pos + 2 > |body| {
      return true, None;
    }
    var extensionsLen: int := U16(body[pos], body[pos + 1]);
    pos := pos + 2;
    if pos + extensionsLen > |body| {
      return true, None;
    }
    assert b1[2..2 + extensionsLen] == body[pos..pos + extensionsLen];
    var scanned := ScanExtensions(body, pos, pos + extensionsLen);
    if scanned.None? {
      return true, None;
    }
    return false, scanned.value;
  }

  /** Where the fields of a body lie: session identifier from 35, cipher suites from `37 + s`, the rest after those. */
  lemma BodyFields(body: seq<byte>, s: nat)
    requires |body| >= 35 && s == body[34]
    ensures 35 + s + 2 > |body| ==> SplitHello(body).None?
    ensures 35 + s + 2 <= |body| ==>
              var c: int := U16(body[35 + s], body[36 + s]);
              if 37 + s + c > |body| then SplitHello(body).None?
              else
                var rest := SplitRest(body[37 + s + c..]);
                && (rest.None? <==> SplitHello(body).None?)
                && (rest.Some? ==> SplitHello(body).value.version == U16(body[0], body[1])
                                   && SplitHello(body).value.rest == rest.value)
  {
    hide SplitRest;
    assert body[34..] == body[34..|body|];
    Take8At(body, 34, |body|);
    if 35 + s <= |body| {
      assert body[35 + s..] == body[35 + s..|body|];
      Take16At(body, 35 + s, |body|);
      if 37 + s <= |body| {
        var c: int := U16(body[35 + s], body[36 + s]);
        if 37 + s + c <= |body| {
          assert body[37 + s + c..] == body[37 + s + c..|body|];
        }
      }
    }
  }

  method AnalyzeBody(body: seq<byte>) returns (r: Outcome)
    ensures r == BodyOutcome(body)
  {
    hide SplitHello, SplitRest;
    if |body| < 34 {
      return Err(Malformed);
    }
    var version := U16(body[0], body[1]);
    if |body| == 34 {
      return Panic;  // body[34] is read next
    }
    var sessionLen: int := body[34];
    BodyFields(body, sessionLen);
    var pos := 35;
    if pos + sessionLen > |body| {
      return Err(Malformed);
    }
    pos := pos + sessionLen;
    if pos + 2 > |body| {
      return Err(Malformed);
    }
    var cipherLen: int := U16(body[pos], body[pos + 1]);
    pos := pos + 2;
    if pos + cipherLen > |body| {
      return Err(Malformed);
    }
    pos := pos + cipherLen;
    var malformed, sni := AnalyzeRest(body, pos);
    if malformed {
      return Err(Malformed);
    }
    return Ok(TlsClientHello(version, sni, |body|));
  }

  /** `analyze_tls_client_hello`; every index not covered by `Panic` is proved in bounds. */
  method AnalyzeTlsClientHello(payload: seq<byte>) returns (r: Outcome)
    ensures r == TlsOutcome(payload)
  {
    if |payload| < 5 {
      return Err(Truncated);
    }
    if payload[0] != 0x16 {
      return Ok(NotRecognised);
    }
    var recordLen: int := U16(payload[3], payload[4]);
    if recordLen > |payload| - 5 {
      return Err(Truncated);
    }
    var hs := payload[5..5 + recordLen];
    assert payload[3..][2..2 + recordLen] == hs;
    if |hs| < 4 || hs[0] != 1 {
      return Ok(NotRecognised);
    }
    var handshakeLen: int := hs[1] as int * 0x1_0000 + hs[2] as int * 0x100 + hs[3];
    if handshakeLen > |hs| - 4 {
      return Err(Truncated);
    }
    r := AnalyzeBody(hs[4..4 + handshakeLen]);
  }
}
