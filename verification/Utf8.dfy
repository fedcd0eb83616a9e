/** Well-formed UTF-8 as `std::str::from_utf8` accepts it (Unicode, table 3-7). */
module Utf8 {
  import opened Prelude

  predicate Continuation(b: byte) {
    0x80 <= b <= 0xBF
  }

  /** Length of the well-formed code unit sequence at the front of `s`, or 0 when there is none. */
  function FrontLength(s: seq<byte>): (n: nat)
    requires s != []
    ensures n <= |s|
  {
    if s[0] <= 0x7F then 1
    else if 0xC2 <= s[0] <= 0xDF && |s| >= 2 && Continuation(s[1]) then 2
    else if 0xE0 <= s[0] <= 0xEF && |s| >= 3 && Continuation(s[1]) && Continuation(s[2])
            && (s[0] == 0xE0 ==> s[1] >= 0xA0) && (s[0] == 0xED ==> s[1] <= 0x9F) then 3
    else if 0xF0 <= s[0] <= 0xF4 && |s| >= 4 && Continuation(s[1]) && Continuation(s[2]) && Continuation(s[3])
            && (s[0] == 0xF0 ==> s[1] >= 0x90) && (s[0] == 0xF4 ==> s[1] <= 0x8F) then 4
    else 0
  }

  predicate Valid(s: seq<byte>) {
    s == [] || (FrontLength(s) > 0 && Valid(s[FrontLength(s)..]))
  }

  /** Every ASCII string is valid, so the condition never rejects an ordinary host name. */
  lemma {:induction false} AsciiIsValid(s: seq<byte>)
    requires forall i :: 0 <= i < |s| ==> s[i] <= 0x7F
    ensures Valid(s)
  {
    if s != [] {
      AsciiIsValid(s[1..]);
    }
  }

  // --- The encoding behind the table ---

  /** A Unicode scalar value: a code point that is no surrogate. */
  predicate IsScalar(c: nat) {
    c < 0xD800 || 0xE000 <= c < 0x11_0000
  }

  function EncodeScalar(c: nat): (s: seq<byte>)
    requires IsScalar(c)
    ensures s != []
  {
    if c < 0x80 then [c]
    else if c < 0x800 then [0xC0 + c / 0x40, 0x80 + c % 0x40]
    else if c < 0x1_0000 then [0xE0 + c / 0x40 / 0x40, 0x80 + c / 0x40 % 0x40, 0x80 + c % 0x40]
    else [0xF0 + c / 0x40 / 0x40 / 0x40, 0x80 + c / 0x40 / 0x40 % 0x40, 0x80 + c / 0x40 % 0x40, 0x80 + c % 0x40]
  }

  ghost predicate AllScalars(text: seq<nat>) {
    forall i :: 0 <= i < |text| ==> IsScalar(text[i])
  }

  function Encode(text: seq<nat>): seq<byte>
    requires AllScalars(text)
  {
    if text == [] then [] else EncodeScalar(text[0]) + Encode(text[1..])
  }

  /** Four encodings by value; an overlong form, a surrogate, a value too large and a stray byte are not valid. */
  lemma KnownEncodings()
    ensures EncodeScalar(0x65) == [0x65] && EncodeScalar(0xE9) == [0xC3, 0xA9]
    ensures EncodeScalar(0x20AC) == [0xE2, 0x82, 0xAC] && EncodeScalar(0x1_F600) == [0xF0, 0x9F, 0x98, 0x80]
    ensures !Valid([0xC0, 0x80]) && !Valid([0xED, 0xA0, 0x80]) && !Valid([0xF4, 0x90, 0x80, 0x80]) && !Valid([0x80])
  {
  }

  /** Six more bits. */
  function Joined(high: int, b: byte): int {
    high * 0x40 + (b as int - 0x80)
  }

  lemma JoinedDigits(high: nat, b: byte)
    requires Continuation(b)
    ensures Joined(high, b) >= 0 && Joined(high, b) / 0x40 == high && 0x80 + Joined(high, b) % 0x40 == b
  {
  }

  /** Each well-formed front is the encoding of a scalar value. */
  lemma FrontIsEncoded(s: seq<byte>) returns (c: nat)
    requires s != [] && FrontLength(s) > 0
    ensures IsScalar(c) && EncodeScalar(c) == s[..FrontLength(s)]
  {
    hide Joined;
    var lead: int := s[0];
    match FrontLength(s)
    case 1 =>
      c := lead;
    case 2 =>
      c := TwoUnits(lead - 0xC0, s[1]);
    case 3 =>
      c := ThreeUnits(lead - 0xE0, s[1], s[2]);
    case _ =>
      c := FourUnits(lead - 0xF0, s[1], s[2], s[3]);
  }

  lemma TwoUnits(lead: nat, b1: byte) returns (c: nat)
    requires 2 <= lead < 0x20 && Continuation(b1)
    ensures 0x80 <= c < 0x800 && EncodeScalar(c) == [0xC0 + lead, b1]
  {
    JoinedDigits(lead, b1);
    c := Joined(lead, b1);
  }

  lemma ThreeUnits(lead: nat, b1: byte, b2: byte) returns (c: nat)
    requires lead < 0x10 && Continuation(b1) && Continuation(b2)
    requires (lead == 0 ==> b1 >= 0xA0) && (lead == 0xD ==> b1 <= 0x9F)
    ensures IsScalar(c) && 0x800 <= c < 0x1_0000 && EncodeScalar(c) == [0xE0 + lead, b1, b2]
  {
    JoinedDigits(lead, b1);
    JoinedDigits(Joined(lead, b1), b2);
    c := Joined(Joined(lead, b1), b2);
  }

  lemma FourUnits(lead: nat, b1: byte, b2: byte, b3: byte) returns (c: nat)
    requires lead <= 4 && Continuation(b1) && Continuation(b2) && Continuation(b3)
    requires (lead == 0 ==> b1 >= 0x90) && (lead == 4 ==> b1 <= 0x8F)
    ensures IsScalar(c) && 0x1_0000 <= c && EncodeScalar(c) == [0xF0 + lead, b1, b2, b3]
  {
    JoinedDigits(lead, b1);
    JoinedDigits(Joined(lead, b1), b2);
    JoinedDigits(Joined(Joined(lead, b1), b2), b3);
    c := Joined(Joined(Joined(lead, b1), b2), b3);
  }

  lemma EncodedIsFront(c: nat, rest: seq<byte>)
    requires IsScalar(c)
    ensures FrontLength(EncodeScalar(c) + rest) == |EncodeScalar(c)|
  {
  }

  lemma {:induction false} EncodedIsValid(text: seq<nat>)
    requires AllScalars(text)
    ensures Valid(Encode(text))
  {
    if text != [] {
      var front, rest := EncodeScalar(text[0]), Encode(text[1..]);
      EncodedIsFront(text[0], rest);
      assert (front + rest)[|front|..] == rest;
      EncodedIsValid(text[1..]);
    }
  }

  lemma {:induction false} ValidIsEncoded(s: seq<byte>) returns (text: seq<nat>)
    requires Valid(s)
    ensures AllScalars(text) && Encode(text) == s
  {
    text := [];
    if s != [] {
      var c := FrontIsEncoded(s);
      var rest := ValidIsEncoded(s[FrontLength(s)..]);
      text := [c] + rest;
      assert text[1..] == rest;
    }
  }

  /** The condition holds for exactly the encodings of sequences of scalar values. */
  lemma ValidExactly(s: seq<byte>)
    ensures Valid(s) <==> exists text: seq<nat> :: AllScalars(text) && Encode(text) == s
  {
    if Valid(s) {
      var text := ValidIsEncoded(s);
    }
    forall text: seq<nat> | AllScalars(text) && Encode(text) == s
      ensures Valid(s)
    {
      EncodedIsValid(text);
    }
  }
}
