/** Bytes, little-endian integers, hexadecimal text, and the hash functions the program calls but does not define. */
module Encoding {
  import opened Strings

  type byte = b: int | 0 <= b < 256
  type Bytes = seq<byte>
  type u16 = n: int | 0 <= n < 0x1_0000
  type u32 = n: int | 0 <= n < 0x1_0000_0000
  type u64 = n: int | 0 <= n < 0x1_0000_0000_0000_0000
  type i64 = n: int | -0x8000_0000_0000_0000 <= n < 0x8000_0000_0000_0000
  type Digest = d: Bytes | |d| == 32 witness seq(32, _ => 0)

  /** sha256, md5 and crc32c stay uninterpreted; a lemma that needs collision-freedom says so. */
  datatype Hashes = Hashes(sha256: Bytes -> Digest, md5: Bytes -> Bytes, crc32c: Bytes -> u32)

  /** int64(x) for a uint64 x. */
  function ToI64(x: u64): i64 {
    if x < 0x8000_0000_0000_0000 then x else x - 0x1_0000_0000_0000_0000
  }

  /** int64 addition: the exact sum of two int64 values wraps around. */
  function AddI64(a: i64, b: i64): i64 {
    var s := a + b;
    if s >= 0x8000_0000_0000_0000 then s - 0x1_0000_0000_0000_0000
    else if s < -0x8000_0000_0000_0000 then s + 0x1_0000_0000_0000_0000
    else s
  }

  /** The int64 a running int64 sum holds when the exact sum is `n`. */
  function Wrap64(n: int): i64 {
    (n + 0x8000_0000_0000_0000) % 0x1_0000_0000_0000_0000 - 0x8000_0000_0000_0000
  }

  /** Wrapping at every addition is wrapping once at the end. */
  lemma WrapAdds(a: int, b: int)
    ensures Wrap64(Wrap64(a) + b) == Wrap64(a + b)
    ensures -0x8000_0000_0000_0000 <= a < 0x8000_0000_0000_0000 ==> Wrap64(a) == a
  {
  }

  function Zeros(n: nat): (z: Bytes)
    ensures |z| == n
  {
    seq(n, _ => 0)
  }

  // ---------------------------------------------------------------- little-endian

  function Pow256(w: nat): (p: nat)
    ensures p >= 1
  {
    if w == 0 then 1 else 256 * Pow256(w - 1)
  }

  function Le(v: nat, w: nat): (b: Bytes)
    ensures |b| == w
  {
    if w == 0 then [] else [v % 256] + Le(v / 256, w - 1)
  }

  function FromLe(b: Bytes): nat {
    if b == [] then 0 else b[0] + 256 * FromLe(b[1..])
  }

  lemma {:induction false} FromLeBound(b: Bytes)
    ensures FromLe(b) < Pow256(|b|)
  {
    if b != [] { FromLeBound(b[1..]); }
  }

  lemma {:induction false} LeRoundTrip(v: nat, w: nat)
    requires v < Pow256(w)
    ensures FromLe(Le(v, w)) == v
  {
    if w > 0 {
      assert v / 256 < Pow256(w - 1);
      LeRoundTrip(v / 256, w - 1);
      assert Le(v, w)[1..] == Le(v / 256, w - 1);
    }
  }

  lemma {:induction false} LeOfFromLe(b: Bytes)
    ensures Le(FromLe(b), |b|) == b
  {
    if b != [] {
      LeOfFromLe(b[1..]);
      assert FromLe(b) % 256 == b[0] && FromLe(b) / 256 == FromLe(b[1..]);
    }
  }

  /** The number two bytes spell, the lower one first. */
  function Word(b: Bytes): nat
    requires |b| == 2
  {
    b[0] as nat + 256 * b[1] as nat
  }

  /** ... and four bytes. */
  function DoubleWord(b: Bytes): nat
    requires |b| == 4
  {
    Word(b[..2]) + 65536 * Word(b[2..])
  }

  lemma FromLeStarts(b: Bytes)
    requires |b| >= 2
    ensures FromLe(b) == Word(b[..2]) + 65536 * FromLe(b[2..])
  {
    assert FromLe(b) == b[0] as nat + 256 * FromLe(b[1..]);
    assert FromLe(b[1..]) == b[1] as nat + 256 * FromLe(b[1..][1..]);
    assert b[1..][1..] == b[2..];
  }

  lemma FromLeTwo(b: Bytes)
    requires |b| == 2
    ensures FromLe(b) == Word(b)
  {
    FromLeStarts(b);
    assert b[2..] == [] && b[..2] == b;
  }

  lemma FromLeFour(b: Bytes)
    requires |b| == 4
    ensures FromLe(b) == DoubleWord(b)
  {
    FromLeStarts(b);
    FromLeTwo(b[2..]);
  }

  lemma FromLeEight(b: Bytes)
    requires |b| == 8
    ensures FromLe(b) == DoubleWord(b[..4]) + 0x1_0000_0000 * DoubleWord(b[4..])
  {
    FromLeStarts(b);
    FromLeStarts(b[2..]);
    assert b[2..][2..] == b[4..] && b[2..][..2] == b[..4][2..] && b[..2] == b[..4][..2];
    FromLeFour(b[4..]);
  }

  lemma Widths()
    ensures Pow256(2) == 0x1_0000
    ensures Pow256(4) == 0x1_0000_0000
    ensures Pow256(8) == 0x1_0000_0000_0000_0000
  {
    assert Pow256(2) == 0x1_0000;
    assert Pow256(4) == 0x1_0000 * Pow256(2);
    assert Pow256(6) == 0x1_0000 * Pow256(4);
    assert Pow256(8) == 0x1_0000 * Pow256(6);
  }

  // ---------------------------------------------------------------- hexadecimal

  function HexDigit(n: int, upper: bool): char
    requires 0 <= n < 16
  {
    if n < 10 then (n + '0' as int) as char
    else if upper then (n - 10 + 'A' as int) as char
    else (n - 10 + 'a' as int) as char
  }

  function HexValue(c: char): Option<int> {
    if '0' <= c <= '9' then Some(c as int - '0' as int)
    else if 'a' <= c <= 'f' then Some(c as int - 'a' as int + 10)
    else if 'A' <= c <= 'F' then Some(c as int - 'A' as int + 10)
    else None
  }

  /** hex.EncodeToString. */
  function HexEncode(b: Bytes): string {
    if b == [] then ""
    else [HexDigit(b[0] / 16, false), HexDigit(b[0] % 16, false)] + HexEncode(b[1..])
  }

  /** hex.DecodeString: either case is accepted, odd lengths and other characters are errors. */
  function HexDecode(s: string): Option<Bytes> {
    if s == "" then Some([])
    else if |s| == 1 then None
    else match (HexValue(s[0]), HexValue(s[1]), HexDecode(s[2..]))
      case (Some(hi), Some(lo), Some(rest)) =>
        assert 0 <= hi < 16 && 0 <= lo < 16;
        Some([16 * hi + lo] + rest)
      case _ => None
  }

  lemma HexDigitRoundTrip(n: int, upper: bool)
    requires 0 <= n < 16
    ensures HexValue(HexDigit(n, upper)) == Some(n)
  {
  }

  lemma {:induction false} HexRoundTrip(b: Bytes)
    ensures HexDecode(HexEncode(b)) == Some(b)
  {
    if b != [] {
      HexRoundTrip(b[1..]);
      HexDigitRoundTrip(b[0] / 16, false);
      HexDigitRoundTrip(b[0] % 16, false);
      assert [16 * (b[0] / 16) + b[0] % 16] + b[1..] == b;
      assert HexEncode(b)[2..] == HexEncode(b[1..]);
    }
  }
}
