/**
 * Bytes as the recorder writes them. A Kotlin `Byte` is a signed 8-bit value;
 * here a byte is its bit pattern read as an unsigned number, so `n.toByte()`
 * keeps the low eight bits of `n`.
 */
module Bytes {
  newtype byte = x: int | 0 <= x < 256

  const TWO_32: int := 0x1_0000_0000

  /** `n.toByte()`: the low eight bits of `n` (two's complement for negative `n`). */
  function ToByte(n: int): (b: byte)
    ensures b as int == n % 256
  {
    (n % 256) as byte
  }

  function Pow256(k: nat): (p: nat)
    ensures p > 0
  {
    if k == 0 then 1 else 256 * Pow256(k - 1)
  }

  /** Four bytes, least significant first, as the header's 4-byte size and rate fields: they
      read back as `n` reduced modulo 2^32. */
  function U32LE(n: nat): (s: seq<byte>)
    ensures |s| == 4 && DecodeLE(s) == n % TWO_32
  {
    var s := [ToByte(n), ToByte(n / 0x100), ToByte(n / 0x1_0000), ToByte(n / 0x100_0000)];
    DecodeFour(s[0], s[1], s[2], s[3]);
    DigitsU32(n);
    s
  }

  /** Two bytes, least significant first, as the header's 2-byte fields: they read back as `n`
      reduced modulo 2^16. */
  function U16LE(n: nat): (s: seq<byte>)
    ensures |s| == 2 && DecodeLE(s) == n % 0x1_0000
  {
    var s := [ToByte(n), ToByte(n / 0x100)];
    DecodeTwo(s[0], s[1]);
    DigitsU16(n);
    s
  }

  /** Reads a little-endian unsigned integer from a byte sequence. */
  function DecodeLE(s: seq<byte>): (n: nat)
    ensures n < Pow256(|s|)
  {
    if s == [] then 0 else s[0] as nat + 256 * DecodeLE(s[1..])
  }

  lemma DigitsU32(n: nat)
    ensures n % 0x100 + 256 * (n / 0x100 % 0x100 + 256 * (n / 0x1_0000 % 0x100 + 256 * (n / 0x100_0000 % 0x100)))
            == n % TWO_32
  {
    var q1 := n / 0x100;
    var q2 := q1 / 0x100;
    var q3 := q2 / 0x100;
    assert n / 0x1_0000 == q2;
    assert n / 0x100_0000 == q3;
    assert n == n % 0x100 + 256 * q1;
    assert q1 == q1 % 0x100 + 256 * q2;
    assert q2 == q2 % 0x100 + 256 * q3;
    assert q3 == q3 % 0x100 + 256 * (q3 / 0x100);
    assert q3 / 0x100 == n / TWO_32;
  }

  /** The other direction: re-encoding the value of any four bytes gives them back. */
  lemma {:induction false} EncodeDecodeU32(s: seq<byte>)
    requires |s| == 4
    ensures U32LE(DecodeLE(s)) == s
  {
    var b0, b1, b2, b3 := s[0] as int, s[1] as int, s[2] as int, s[3] as int;
    assert s == [s[0], s[1], s[2], s[3]];
    DecodeFour(s[0], s[1], s[2], s[3]);
    var n := DecodeLE(s);
    var m2 := b2 + 256 * b3;
    var m1 := b1 + 256 * m2;
    assert n == b0 + 256 * m1;
    DivUnique(n, 0x100, m1, b0);
    DivUnique(m1, 0x100, m2, b1);
    DivUnique(m2, 0x100, b3, b2);
    DivUnique(n, 0x1_0000, m2, b0 + 256 * b1);
    DivUnique(n, 0x100_0000, b3, b0 + 256 * b1 + 0x1_0000 * b2);
    DivUnique(b3, 0x100, 0, b3);
  }

  /** Only the value modulo 2^32 reaches the four bytes. */
  lemma U32LEMod(n: nat)
    ensures U32LE(n) == U32LE(n % TWO_32)
  {
    var m := n % TWO_32;
    var q := n / TWO_32;
    assert n == m + TWO_32 * q;
    LowDigitMod(n, m, 1, 0x100_0000 * q);
    LowDigitMod(n, m, 0x100, 0x1_0000 * q);
    LowDigitMod(n, m, 0x1_0000, 0x100 * q);
    LowDigitMod(n, m, 0x100_0000, q);
  }

  /** Adding a multiple of `256 * d` to `m` leaves digit `m / d % 256` unchanged. */
  lemma LowDigitMod(n: nat, m: nat, d: nat, t: nat)
    requires d > 0 && n == m + d * (256 * t)
    ensures ToByte(n / d) == ToByte(m / d)
  {
    DivAddMultiple(m, 256 * t, d);
    DivAddMultiple(m / d, t, 256);
  }

  lemma DivAddMultiple(m: nat, q: nat, d: nat)
    requires d > 0
    ensures (m + d * q) / d == m / d + q && (m + d * q) % d == m % d
  {
    assert m + d * q == d * (m / d + q) + m % d;
    DivUnique(m + d * q, d, m / d + q, m % d);
  }

  /** Euclidean division has one quotient and one remainder. */
  lemma DivUnique(x: int, d: int, k: int, r: int)
    requires d > 0 && 0 <= r < d && x == d * k + r
    ensures x / d == k && x % d == r
  {
    var k', r' := x / d, x % d;
    assert d * (k - k') == r' - r;
    if k - k' >= 1 {
      MulAtLeast(d, k - k');
    } else if k - k' <= -1 {
      MulAtLeast(d, k' - k);
    }
  }

  lemma MulAtLeast(d: int, j: int)
    requires d > 0 && j >= 1
    ensures d * j >= d
  {
  }

  lemma DigitsU16(n: nat)
    ensures n % 0x100 + 256 * (n / 0x100 % 0x100) == n % 0x1_0000
  {
    var q1 := n / 0x100;
    var q2 := q1 / 0x100;
    assert n / 0x1_0000 == q2;
    assert n == n % 0x100 + 256 * q1;
    assert q1 == q1 % 0x100 + 256 * q2;
    DivUnique(n, 0x1_0000, q2, n % 0x100 + 256 * (q1 % 0x100));
  }

  /** Re-encoding the value of any two bytes gives them back. */
  lemma {:induction false} EncodeDecodeU16(s: seq<byte>)
    requires |s| == 2
    ensures U16LE(DecodeLE(s)) == s
  {
    assert s[1..][1..] == [];
    assert DecodeLE(s[1..]) == s[1] as int;
    var n := DecodeLE(s);
    assert n == s[0] as int + 256 * s[1] as int;
    var e := U16LE(n);
    assert e[0] == s[0];
    assert e[1] == s[1];
  }

  lemma DecodeTwo(b0: byte, b1: byte)
    ensures DecodeLE([b0, b1]) == b0 as int + 256 * b1 as int
  {
    assert [b0, b1][1..] == [b1];
    assert [b1][1..] == [];
  }

  lemma DecodeFour(b0: byte, b1: byte, b2: byte, b3: byte)
    ensures DecodeLE([b0, b1, b2, b3]) == b0 as int + 256 * (b1 as int + 256 * (b2 as int + 256 * b3 as int))
  {
    assert [b0, b1, b2, b3][1..] == [b1, b2, b3];
    assert [b1, b2, b3][1..] == [b2, b3];
    DecodeTwo(b2, b3);
  }
}
