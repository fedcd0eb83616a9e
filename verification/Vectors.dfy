/** Length-prefixed byte strings, as TLS and QUIC frame their fields. */
module Vectors {
  import opened Prelude

  /** `Some((contents, rest))` when the input starts with a whole vector. */
  type Cut = Option<(seq<byte>, seq<byte>)>

  /** A two-byte field by its digits: high byte first. */
  lemma Digits16(n: u16)
    ensures Bytes16(n) == [n / 0x100, n % 0x100]
  {
  }

  function Vec8(s: seq<byte>): seq<byte>
    requires |s| < 0x100
  {
    Single(|s|) + s
  }

  function Vec16(s: seq<byte>): seq<byte>
    requires |s| < 0x1_0000
  {
    Bytes16(|s|) + s
  }

  function Take8(b: seq<byte>): Cut {
    if |b| < 1 then None
    else
      var n: int := b[0];
      if 1 + n > |b| then None else Some((b[1..1 + n], b[1 + n..]))
  }

  function Take16(b: seq<byte>): Cut {
    if |b| < 2 then None
    else
      var n: int := U16(b[0], b[1]);
      if 2 + n > |b| then None else Some((b[2..2 + n], b[2 + n..]))
  }

  lemma Take8Sound(b: seq<byte>)
    ensures Take8(b).Some? ==>
              var (s, rest) := Take8(b).value;
              |s| < 0x100 && |rest| < |b| && b == Vec8(s) + rest
  {
  }

  lemma Take8Complete(s: seq<byte>, rest: seq<byte>)
    requires |s| < 0x100
    ensures Take8(Vec8(s) + rest) == Some((s, rest))
  {
    var b := Vec8(s) + rest;
    assert b[1..1 + |s|] == s && b[1 + |s|..] == rest;
  }

  lemma Take16Sound(b: seq<byte>)
    ensures Take16(b).Some? ==>
              var (s, rest) := Take16(b).value;
              |s| < 0x1_0000 && |rest| < |b| && b == Vec16(s) + rest
  {
    if |b| >= 2 {
      Bytes16OfU16(b[0], b[1]);
    }
  }

  lemma Take16Complete(s: seq<byte>, rest: seq<byte>)
    requires |s| < 0x1_0000
    ensures Take16(Vec16(s) + rest) == Some((s, rest))
  {
    var b := Vec16(s) + rest;
    assert b[..2] == Bytes16(|s|);
    assert b[2..2 + |s|] == s && b[2 + |s|..] == rest;
  }

  /** A two-byte field in front is read back, and rebuilt from what is read. */
  lemma Field16(n: u16, rest: seq<byte>)
    ensures var b := Bytes16(n) + rest; U16(b[0], b[1]) == n && b[2..] == rest
  {
  }

  lemma Field16Of(b: seq<byte>)
    requires |b| >= 2
    ensures b == Bytes16(U16(b[0], b[1])) + b[2..]
  {
    Bytes16OfU16(b[0], b[1]);
  }

  /** `Take8` and `Take16` on a slice, told by positions in the whole string. */
  lemma Take8At(s: seq<byte>, i: nat, end: nat)
    requires i <= end <= |s|
    ensures Take8(s[i..end]) ==
            if i + 1 > end || i + 1 + s[i] > end then None
            else Some((s[i + 1..i + 1 + s[i] as int], s[i + 1 + s[i] as int..end]))
  {
    if i + 1 <= end && i + 1 + s[i] <= end {
      var n: int := s[i];
      Reslice(s, i, end, 1, 1 + n);
      Reslice(s, i, end, 1 + n, end - i);
    }
  }

  lemma Take16At(s: seq<byte>, i: nat, end: nat)
    requires i <= end <= |s|
    ensures Take16(s[i..end]) ==
            if i + 2 > end || i + 2 + U16(s[i], s[i + 1]) > end then None
            else
              var n: int := U16(s[i], s[i + 1]);
              Some((s[i + 2..i + 2 + n], s[i + 2 + n..end]))
  {
    if i + 2 <= end && i + 2 + U16(s[i], s[i + 1]) <= end {
      var n: int := U16(s[i], s[i + 1]);
      Reslice(s, i, end, 2, 2 + n);
      Reslice(s, i, end, 2 + n, end - i);
    }
  }
}
