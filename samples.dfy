/**
 * The two per-sample helpers: the soft-knee limiter `gain` and the 16-bit
 * byte swap `reverseBytes`. `x * scale` is a Kotlin `Float`; here it is a
 * `real`, so the model is the exact-arithmetic idealisation of the code.
 */
module Samples {
  import Bytes

  const SHORT_MIN: int := -32768
  const SHORT_MAX: int := 32767
  const GAIN_MARGIN: int := 4096

  predicate IsShort(n: int)
  {
    SHORT_MIN <= n <= SHORT_MAX
  }

  /** `Float.toInt()`: truncation toward zero. */
  function TruncToInt(v: real): (n: int)
    ensures v >= 0.0 ==> n as real <= v < n as real + 1.0
    ensures v < 0.0 ==> n as real - 1.0 < v <= n as real
  {
    if v >= 0.0 then v.Floor else -((-v).Floor)
  }

  /** `Int.toShort()`: keeps the low 16 bits, read as two's complement. */
  function ToShort(n: int): (s: int)
    ensures IsShort(s) && (s - n) % 0x1_0000 == 0
    ensures IsShort(n) ==> s == n
  {
    (n + 32768) % 0x1_0000 - 32768
  }

  /** The `when` expression of `gain` applied to the scaled sample `x0`. */
  function Limit(x0: real): (r: int)
    ensures IsShort(r)
  {
    if x0 <= (SHORT_MIN - GAIN_MARGIN) as real then SHORT_MIN
    else if x0 < (SHORT_MIN + GAIN_MARGIN) as real then
      var x1 := x0 + 32768.0 + GAIN_MARGIN as real;
      ToShort(TruncToInt(LowerKnee(x1)))
    else if x0 <= (SHORT_MAX - GAIN_MARGIN) as real then ToShort(TruncToInt(x0))
    else if x0 < (SHORT_MAX + GAIN_MARGIN) as real then
      var x1 := x0 - 32767.0 - GAIN_MARGIN as real;
      ToShort(TruncToInt(UpperKnee(x1)))
    else SHORT_MAX
  }

  /** The quadratic of the lower knee, `x1` measured from -32768 - margin. */
  function LowerKnee(x1: real): (y: real)
    ensures y >= -32767.5
    ensures x1 == 8192.0 ==> y == -28671.5
  {
    var margin := GAIN_MARGIN as real;
    (0.25 / margin) * (x1 * x1 + margin * 2.0) - 32768.0
  }

  /** The quadratic of the upper knee, `x1` measured from 32767 + margin. */
  function UpperKnee(x1: real): (y: real)
    ensures y <= 32767.5
    ensures x1 == -8192.0 ==> y == 28671.5
  {
    var margin := GAIN_MARGIN as real;
    -(0.25 / margin) * (x1 * x1 - margin * 2.0) + 32767.0
  }

  /** `gain(x, scale)`: the limiter applied to `x * scale`. */
  function Gain(x: int, scale: real): (r: int)
    ensures IsShort(r)
    ensures x as real * scale <= (SHORT_MIN - GAIN_MARGIN) as real ==> r == SHORT_MIN
    ensures x as real * scale >= (SHORT_MAX + GAIN_MARGIN) as real ==> r == SHORT_MAX
  {
    Limit(x as real * scale)
  }

  /** In the lower knee the curve stays within [-32767.5, -28671.5), so truncation lands
      in [-32767, -28671] and the final `toShort` changes nothing. */
  lemma LowerKneeBounds(x1: real)
    requires 0.0 <= x1 < 8192.0
    ensures -32767.5 <= LowerKnee(x1) < -28671.5
    ensures -32767 <= TruncToInt(LowerKnee(x1)) <= -28671
  {
    SquareBounds(x1);
    assert LowerKnee(x1) == (x1 * x1) / 16384.0 - 32767.5;
  }

  /** In the upper knee the curve stays within (28671.5, 32767.5], so truncation lands
      in [28671, 32767]. */
  lemma UpperKneeBounds(x1: real)
    requires -8192.0 < x1 <= 0.0
    ensures 28671.5 < UpperKnee(x1) <= 32767.5
    ensures 28671 <= TruncToInt(UpperKnee(x1)) <= 32767
  {
    SquareBounds(-x1);
    assert x1 * x1 == (-x1) * (-x1);
    assert UpperKnee(x1) == 32767.5 - (x1 * x1) / 16384.0;
  }

  lemma SquareBounds(y: real)
    requires 0.0 <= y < 8192.0
    ensures 0.0 <= y * y < 67108864.0
  {
    assert y * y <= 8192.0 * y;
  }

  /** With unit scale, every sample of the linear region passes through unchanged. */
  lemma GainIdentity(x: int)
    requires SHORT_MIN + GAIN_MARGIN <= x <= SHORT_MAX - GAIN_MARGIN
    ensures Gain(x, 1.0) == x
  {
    assert x as real * 1.0 == x as real;
  }

  lemma TruncMonotone(a: real, b: real)
    requires a <= b
    ensures TruncToInt(a) <= TruncToInt(b)
  {
  }

  lemma LowerKneeMonotone(x0: real, y0: real)
    requires -36864.0 < x0 <= y0 < -28672.0
    ensures Limit(x0) <= Limit(y0)
  {
    var x1, y1 := x0 + 36864.0, y0 + 36864.0;
    LowerKneeBounds(x1);
    LowerKneeBounds(y1);
    SquareMonotone(x1, y1);
    KneesMonotone(x1, y1);
    TruncMonotone(LowerKnee(x1), LowerKnee(y1));
  }

  lemma UpperKneeMonotone(x0: real, y0: real)
    requires 28671.0 < x0 <= y0 < 36863.0
    ensures Limit(x0) <= Limit(y0)
  {
    var x1, y1 := x0 - 36863.0, y0 - 36863.0;
    UpperKneeBounds(x1);
    UpperKneeBounds(y1);
    SquareMonotone(-y1, -x1);
    assert x1 * x1 == (-x1) * (-x1) && y1 * y1 == (-y1) * (-y1);
    KneesMonotone(y1, x1);
    TruncMonotone(UpperKnee(x1), UpperKnee(y1));
  }

  /** Both knees are monotone in the square of their offset. */
  lemma KneesMonotone(a: real, b: real)
    requires a * a <= b * b
    ensures LowerKnee(a) <= LowerKnee(b) && UpperKnee(b) <= UpperKnee(a)
  {
  }

  /** The output range of each of the five branches. */
  lemma LimitRanges(x0: real)
    ensures x0 <= -36864.0 ==> Limit(x0) == SHORT_MIN
    ensures -36864.0 < x0 < -28672.0 ==> -32767 <= Limit(x0) <= -28671
    ensures -28672.0 <= x0 <= 28671.0 ==> -28672 <= Limit(x0) <= 28671
    ensures 28671.0 < x0 < 36863.0 ==> 28671 <= Limit(x0) <= 32767
    ensures 36863.0 <= x0 ==> Limit(x0) == SHORT_MAX
  {
    if -36864.0 < x0 < -28672.0 {
      LowerKneeBounds(x0 + 36864.0);
    } else if -28672.0 <= x0 <= 28671.0 {
      TruncMonotone(-28672.0, x0);
      TruncMonotone(x0, 28671.0);
    } else if 28671.0 < x0 < 36863.0 {
      UpperKneeBounds(x0 - 36863.0);
    }
  }

  lemma SquareMonotone(a: real, b: real)
    requires 0.0 <= a <= b
    ensures a * a <= b * b
  {
    assert a * a <= a * b <= b * b;
  }

  /** Truncation toward zero makes the lower knee meet the linear region one unit too high:
      just below -28672 the limiter gives -28671, at -28672 it gives -28672. */
  lemma LowerKneeDip()
    ensures Limit(-28672.25) == -28671 && Limit(-28672.0) == -28672
  {
    var x1 := -28672.25 + 36864.0;
    assert x1 * x1 == 67104768.0625;
    assert LowerKnee(x1) == 67112960.0625 / 16384.0 - 32768.0;
  }

  /* ---------- reverseBytes ---------- */

  /** A Kotlin `Int` (32-bit two's complement) read back from its bit pattern. */
  function Signed32(n: int): (v: int)
    ensures -0x8000_0000 <= v < 0x8000_0000 && (v - n) % Bytes.TWO_32 == 0
  {
    (n + 0x8000_0000) % Bytes.TWO_32 - 0x8000_0000
  }

  /** The unsigned 16-bit pattern of a short. */
  function Bits16(s: int): (u: int)
    ensures 0 <= u < 0x1_0000
  {
    s % 0x1_0000
  }

  function HighByte(s: int): (b: int)
    ensures 0 <= b < 0x100
  {
    Bits16(s) / 0x100
  }

  function LowByte(s: int): (b: int)
    ensures 0 <= b < 0x100
  {
    s % 0x100
  }

  /** `v and 0xFF00`: bits 8 to 15 of `v`, the others cleared (the mask is non-negative,
      so the result is too). */
  function AndFF00(v: int): (m: int)
    ensures 0 <= m <= 0xFF00 && m % 0x100 == 0 && m == HighByte(v) * 0x100
  {
    Bits16(v) / 0x100 * 0x100
  }

  /** `v shl 8` on a 32-bit `Int`: bits pushed past bit 31 are lost. */
  function Shl8(v: int): (w: int)
    ensures -0x8000_0000 <= w < 0x8000_0000
    ensures w % 0x100 == 0 && Bits16(w) == LowByte(v) * 0x100
  {
    var w := Signed32(v * 0x100);
    Shl8Bits(v, w);
    w
  }

  /** `m shr 8` on a non-negative `Int`: floor division by 256. */
  function Shr8(m: int): (q: int)
    requires 0 <= m
    ensures 0 <= q && q * 0x100 <= m < q * 0x100 + 0x100
  {
    m / 0x100
  }

  /** `a or w` where `a` fits in the low byte and the low byte of `w` is clear: no bit
      is set in both, so the or is a sum. */
  function OrLowByte(a: int, w: int): (r: int)
    requires 0 <= a < 0x100 && w % 0x100 == 0
    ensures r % 0x100 == a && r / 0x100 == w / 0x100
  {
    Bytes.DivUnique(w + a, 0x100, w / 0x100, a);
    w + a
  }

  /** `reverseBytes(i)`: `(i.toInt() and 0xFF00 shr 8 or (i.toInt() shl 8)).toShort()`,
      where Kotlin's infix operators associate to the left. */
  function ReverseBytes(i: int): (r: int)
    requires IsShort(i)
    ensures IsShort(r)
    ensures HighByte(r) == LowByte(i) && LowByte(r) == HighByte(i)
  {
    var v := i;
    var n := OrLowByte(Shr8(AndFF00(v)), Shl8(v));
    SwappedBits(v);
    var r := ToShort(n);
    SameBits16(r, n);
    BytesOfBits16(r, LowByte(v), HighByte(v));
    r
  }

  /** Before the final `toShort`, the low 16 bits already hold the swapped bytes. */
  lemma SwappedBits(v: int)
    ensures Bits16(OrLowByte(Shr8(AndFF00(v)), Shl8(v))) == LowByte(v) * 0x100 + HighByte(v)
  {
    var w := Shl8(v);
    var h := HighByte(v);
    assert AndFF00(v) == h * 0x100;
    assert Shr8(h * 0x100) == h;
    var q := w / 0x1_0000;
    assert w == q * 0x1_0000 + LowByte(v) * 0x100;
    ModOfSum(w + h, q, LowByte(v) * 0x100 + h);
  }

  lemma ModOfSum(x: int, q: int, c: int)
    requires 0 <= c < 0x1_0000 && x == q * 0x1_0000 + c
    ensures x % 0x1_0000 == c
  {
    Bytes.DivUnique(x, 0x1_0000, q, c);
  }

  /** Two integers congruent modulo 2^16 have the same 16-bit pattern. */
  lemma SameBits16(r: int, n: int)
    requires (r - n) % 0x1_0000 == 0
    ensures Bits16(r) == Bits16(n)
  {
    var k := (r - n) / 0x1_0000;
    assert r == 0x1_0000 * (n / 0x1_0000 + k) + n % 0x1_0000;
    Bytes.DivUnique(r, 0x1_0000, n / 0x1_0000 + k, n % 0x1_0000);
  }

  /** Reading the two bytes back out of a 16-bit pattern. */
  lemma BytesOfBits16(r: int, hi: int, lo: int)
    requires 0 <= hi < 0x100 && 0 <= lo < 0x100
    requires Bits16(r) == hi * 0x100 + lo
    ensures HighByte(r) == hi && LowByte(r) == lo
  {
    var k := r / 0x1_0000;
    assert r == 0x1_0000 * k + Bits16(r);
    Bytes.DivUnique(Bits16(r), 0x100, hi, lo);
    assert r == 0x100 * (k * 0x100 + hi) + lo;
    Bytes.DivUnique(r, 0x100, k * 0x100 + hi, lo);
  }

  /** A value congruent to `v * 256` modulo 2^32 has a clear low byte and carries the
      low byte of `v` in bits 8 to 15. */
  lemma Shl8Bits(v: int, w: int)
    requires (w - v * 0x100) % Bytes.TWO_32 == 0
    ensures w % 0x100 == 0 && Bits16(w) == LowByte(v) * 0x100
  {
    var k := (w - v * 0x100) / Bytes.TWO_32;
    assert w == v * 0x100 + k * Bytes.TWO_32;
    assert w == ((v / 0x100) + k * 0x1_0000) * 0x1_0000 + LowByte(v) * 0x100;
    ModOfSum(w, (v / 0x100) + k * 0x1_0000, LowByte(v) * 0x100);
  }

  /** The short whose 16-bit pattern is `c`. */
  function ShortWithBits(c: bv16): (i: int)
    ensures IsShort(i) && Bits16(i) == c as int
  {
    if c < 0x8000 then c as int else c as int - 0x1_0000
  }

  /** `i.toInt()` as a Kotlin bit pattern: the short's 16 bits, sign-extended to 32. */
  function IntBits(c: bv16): bv32
  {
    if c < 0x8000 then c as bv32 else c as bv32 | 0xFFFF_0000
  }

  /** `reverseBytes` against Kotlin's bitwise operators, for every short `i` (the one with
      pattern `c`): the low 16 bits of `i.toInt() and 0xFF00 shr 8 or (i.toInt() shl 8)`,
      computed on the 32-bit pattern, are the two bytes of `c` swapped, and those are the
      16 bits of `reverseBytes(i)`. */
  lemma ReverseBytesBitwise(c: bv16)
    ensures var b := IntBits(c);
            (((b & 0xFF00) >> 8) | (b << 8)) & 0xFFFF == (((c & 0xFF) << 8) | (c >> 8)) as bv32
    ensures Bits16(ReverseBytes(ShortWithBits(c))) == (((c & 0xFF) << 8) | (c >> 8)) as int
  {
    SwapWithin16(c);
    var i := ShortWithBits(c);
    var hi, lo := PatternBytes(c);
    BytesOfBits16(i, hi, lo);
    Bits16Parts(ReverseBytes(i));
  }

  /** The sign-extended upper half of `i.toInt()` does not reach the low 16 bits. */
  lemma SwapWithin16(c: bv16)
    ensures var b := IntBits(c);
            (((b & 0xFF00) >> 8) | (b << 8)) & 0xFFFF == (((c & 0xFF) << 8) | (c >> 8)) as bv32
  {
  }

  /** The two bytes of a 16-bit pattern, as numbers, before and after the swap. */
  lemma PatternBytes(c: bv16) returns (hi: int, lo: int)
    ensures 0 <= hi < 0x100 && 0 <= lo < 0x100
    ensures c as int == hi * 0x100 + lo
    ensures (((c & 0xFF) << 8) | (c >> 8)) as int == lo * 0x100 + hi
  {
    hi, lo := (c >> 8) as int, (c & 0xFF) as int;
  }

  /** Two samples worked through Kotlin's operators: -2 (pattern 0xFFFE) becomes -257, and
      0x00FF becomes -256. */
  lemma ReverseBytesExamples()
    ensures ReverseBytes(-2) == -257 && ReverseBytes(0x00FF) == -256
  {
    ReverseBytesBitwise(0xFFFE);
    ShortOfBits(ReverseBytes(-2));
    ReverseBytesBitwise(0x00FF);
    ShortOfBits(ReverseBytes(0x00FF));
  }

  /** Swapping twice gives back the sample. */
  lemma ReverseBytesInvolution(i: int)
    requires IsShort(i)
    ensures ReverseBytes(ReverseBytes(i)) == i
  {
    var r := ReverseBytes(i);
    var rr := ReverseBytes(r);
    ShortFromBytes(rr, i);
  }

  /** A short is determined by its two bytes. */
  lemma ShortFromBytes(a: int, b: int)
    requires IsShort(a) && IsShort(b)
    requires HighByte(a) == HighByte(b) && LowByte(a) == LowByte(b)
    ensures a == b
  {
    Bits16Parts(a);
    Bits16Parts(b);
    ShortOfBits(a);
    ShortOfBits(b);
  }

  /** The 16-bit pattern is the high byte followed by the low byte. */
  lemma Bits16Parts(a: int)
    ensures Bits16(a) == 0x100 * HighByte(a) + LowByte(a)
  {
    var u := Bits16(a);
    assert u == 0x100 * (u / 0x100) + u % 0x100;
    assert a == 0x100 * (0x100 * (a / 0x1_0000) + u / 0x100) + u % 0x100;
    Bytes.DivUnique(a, 0x100, 0x100 * (a / 0x1_0000) + u / 0x100, u % 0x100);
  }

  /** A short is its 16-bit pattern read as two's complement. */
  lemma ShortOfBits(a: int)
    requires IsShort(a)
    ensures a == if Bits16(a) < 0x8000 then Bits16(a) else Bits16(a) - 0x1_0000
  {
    if a < 0 {
      Bytes.DivUnique(a, 0x1_0000, -1, a + 0x1_0000);
    } else {
      Bytes.DivUnique(a, 0x1_0000, 0, a);
    }
  }
}
