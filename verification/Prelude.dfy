/** Machine widths, big-endian fields and the few helpers every other module uses. */
module Prelude {
  const MAX_U64: nat := 0xFFFF_FFFF_FFFF_FFFF
  const TWO_TO_64: nat := 0x1_0000_0000_0000_0000

  type byte = b: int | 0 <= b < 0x100
  type u16 = n: int | 0 <= n < 0x1_0000
  type u32 = n: int | 0 <= n < 0x1_0000_0000
  type u64 = n: int | 0 <= n <= MAX_U64

  datatype Option<+T> = None | Some(value: T) {
    /** The value, or the one of `other` when there is none. */
    function OrElse(other: Option<T>): Option<T> {
      if Some? then this else other
    }
  }

  function Min(a: int, b: int): int {
    if a < b then a else b
  }

  function Max(a: int, b: int): int {
    if a < b then b else a
  }

  /** Rust's `u64::saturating_add`. */
  function SaturatingAdd(a: u64, b: nat): u64 {
    Min(a + b, MAX_U64)
  }

  /** Elapsed time as `Instant::duration_since` gives it: never negative. */
  function Elapsed(now: int, earlier: int): nat {
    Max(0, now - earlier)
  }

  /** `u16::from_be_bytes`. */
  function U16(hi: byte, lo: byte): u16 {
    hi * 0x100 + lo
  }

  /** One byte as a string. */
  function Single(b: byte): seq<byte> {
    [b]
  }

  /** `u16::to_be_bytes`. */
  function Bytes16(n: u16): (s: seq<byte>)
    ensures |s| == 2 && U16(s[0], s[1]) == n
  {
    [n / 0x100, n % 0x100]
  }

  /** A big-endian field read from two bytes is rebuilt by `Bytes16`. */
  lemma Bytes16OfU16(hi: byte, lo: byte)
    ensures Bytes16(U16(hi, lo)) == [hi, lo]
  {
  }

  function Last<T>(s: seq<T>): T
    requires s != []
  {
    s[|s| - 1]
  }

  /** The last `n` elements, or all of them when there are fewer. */
  function Newest<T>(s: seq<T>, n: nat): (r: seq<T>)
    ensures |r| == Min(|s|, n)
  {
    if |s| <= n then s else s[|s| - n..]
  }

  /** A slice of a slice. */
  lemma Reslice<T>(s: seq<T>, a: nat, b: nat, c: nat, d: nat)
    requires a <= b <= |s| && c <= d <= b - a
    ensures s[a..b][c..d] == s[a + c..a + d]
  {
    forall k | 0 <= k < d - c
      ensures s[a..b][c..d][k] == s[a + c..a + d][k]
    {
    }
  }

  /** A subset is no larger. */
  lemma {:induction false} SubsetSize<T>(a: set<T>, b: set<T>)
    requires a <= b
    ensures |a| <= |b|
  {
    if x :| x in a {
      SubsetSize(a - {x}, b - {x});
    }
  }
}
