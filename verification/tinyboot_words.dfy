/**
 * The integer arithmetic of tinyboot.py on Python's unbounded integers: the word
 * encoding `as_bytes`/`decode`, `add` modulo 2^32 and `bitwise_not`. Python's `>>` and
 * `&` with a positive mask are floor division and floor modulo, which is what Dafny's
 * `/` and `%` compute for a positive divisor.
 */
module TinybootWords {

  const WordModulus: int := 0x1_0000_0000

  function Pow2(k: nat): (r: nat)
    ensures r >= 1
  {
    if k == 0 then 1 else 2 * Pow2(k - 1)
  }

  /**
   * Python's `|` on non-negative integers, bit by bit from the least significant end.
   * `decode` applies it to stored values, which need not be below 256.
   */
  function BitOr(a: nat, b: nat): (r: nat)
    decreases a + b
  {
    if a == 0 then b
    else if b == 0 then a
    else 2 * BitOr(a / 2, b / 2) + (if a % 2 == 1 || b % 2 == 1 then 1 else 0)
  }

  /** OR-ing in a value shifted above every bit of `a` adds it. */
  lemma {:induction false} BitOrOfDisjoint(a: nat, b: nat, k: nat)
    requires a < Pow2(k)
    ensures BitOr(a, b * Pow2(k)) == a + b * Pow2(k)
  {
    if k == 0 || a == 0 || b == 0 {
    } else {
      var high := b * Pow2(k);
      assert high == 2 * (b * Pow2(k - 1));
      assert high / 2 == b * Pow2(k - 1) && high % 2 == 0;
      BitOrOfDisjoint(a / 2, b, k - 1);
    }
  }

  /** `as_bytes`: `num >> 8k & 255` for k = 0..3, low byte first. */
  function AsBytes(num: int): (bytes: seq<nat>)
    ensures |bytes| == 4
    ensures forall i :: 0 <= i < 4 ==> bytes[i] < 256
  {
    [num % 0x100, num / 0x100 % 0x100, num / 0x1_0000 % 0x100, num / 0x100_0000 % 0x100]
  }

  /** The little-endian value of four bytes. */
  function LittleEndian(bytes: seq<nat>): int
    requires |bytes| >= 4
  {
    bytes[0] + bytes[1] * 0x100 + bytes[2] * 0x1_0000 + bytes[3] * 0x100_0000
  }

  /** `decode`: the four values OR-ed into place, read as a signed 32-bit word. */
  function Decode(bytes: seq<nat>): (n: int)
    requires |bytes| >= 4
  {
    var rv := BitOr(BitOr(BitOr(bytes[0], bytes[1] * 0x100), bytes[2] * 0x1_0000), bytes[3] * 0x100_0000);
    if rv > 0x7FFF_FFFF then rv - WordModulus else rv
  }

  /** Euclidean division is determined by any quotient and remainder in range. */
  lemma DivModUnique(n: int, d: int, q: int, r: int)
    requires d > 0 && n == q * d + r && 0 <= r < d
    ensures n / d == q && n % d == r
  {
    var q', r' := n / d, n % d;
    assert (q - q') * d == r' - r;
    if q > q' {
      MultipleAtLeast(q - q', d);
    } else if q < q' {
      MultipleAtLeast(q' - q, d);
    }
  }

  lemma MultipleAtLeast(k: int, d: int)
    requires k >= 1 && d > 0
    ensures k * d >= d
  {
    assert k * d == (k - 1) * d + d;
  }

  /** The bytes of `as_bytes(num)` spell `num` modulo 2^32. */
  lemma AsBytesValue(num: int)
    ensures LittleEndian(AsBytes(num)) == num % WordModulus
  {
    var t1, t2, t3 := num / 0x100, num / 0x1_0000, num / 0x100_0000;
    DivModUnique(num, 0x1_0000, t1 / 0x100, t1 % 0x100 * 0x100 + num % 0x100);
    DivModUnique(num, 0x100_0000, t2 / 0x100, t2 % 0x100 * 0x1_0000 + t1 % 0x100 * 0x100 + num % 0x100);
    var low := LittleEndian(AsBytes(num));
    DivModUnique(num, WordModulus, t3 / 0x100, low);
  }

  /** Four bytes OR-ed into place are their little-endian sum. */
  lemma DecodeOfBytes(bytes: seq<nat>)
    requires |bytes| >= 4 && forall i :: 0 <= i < 4 ==> bytes[i] < 256
    ensures var v := LittleEndian(bytes);
      Decode(bytes) == if v > 0x7FFF_FFFF then v - WordModulus else v
  {
    assert Pow2(8) == 0x100 && Pow2(16) == 0x1_0000 && Pow2(24) == 0x100_0000 by {
      assert Pow2(4) == 16;
      assert Pow2(8) == 256;
      assert Pow2(16) == 0x1_0000 by { assert Pow2(12) == 0x1000; }
      assert Pow2(24) == 0x100_0000 by { assert Pow2(20) == 0x10_0000; }
    }
    var v1 := bytes[0] + bytes[1] * 0x100;
    var v2 := v1 + bytes[2] * 0x1_0000;
    BitOrOfDisjoint(bytes[0], bytes[1], 8);
    assert BitOr(bytes[0], bytes[1] * 0x100) == v1;
    BitOrOfDisjoint(v1, bytes[2], 16);
    assert BitOr(v1, bytes[2] * 0x1_0000) == v2;
    BitOrOfDisjoint(v2, bytes[3], 24);
    assert BitOr(v2, bytes[3] * 0x100_0000) == LittleEndian(bytes);
  }

  /** `decode(as_bytes(n)) == n` for every signed 32-bit `n`. */
  lemma {:induction false} DecodeAsBytes(n: int)
    requires -0x8000_0000 <= n < 0x8000_0000
    ensures Decode(AsBytes(n)) == n
  {
    var bytes := AsBytes(n);
    AsBytesValue(n);
    DecodeOfBytes(bytes);
    var v := LittleEndian(bytes);
    if n < 0 {
      DivModUnique(n, WordModulus, -1, n + WordModulus);
      assert v == n + WordModulus && v > 0x7FFF_FFFF;
    } else {
      DivModUnique(n, WordModulus, 0, n);
      assert v == n && v <= 0x7FFF_FFFF;
    }
  }

  /** `add`: `(a + b) & 0xFFFFFFFF`. */
  function Add(a: int, b: int): (r: int)
    ensures 0 <= r < WordModulus
    ensures (r - (a + b)) % WordModulus == 0
  {
    var s := a + b;
    DivModUnique(s - s % WordModulus, WordModulus, s / WordModulus, 0);
    s % WordModulus
  }

  /**
   * `x ^ 0xFFFFFFFF` in Python's two's complement: bits 0-31 are complemented and every
   * bit above them, including an infinite run of ones for a negative `x`, is kept.
   */
  function BitwiseNot(x: int): (r: int)
    ensures r / WordModulus == x / WordModulus
    ensures r % WordModulus == WordModulus - 1 - x % WordModulus
  {
    var high, low := x / WordModulus, x % WordModulus;
    DivModUnique(high * WordModulus + (WordModulus - 1 - low), WordModulus, high, WordModulus - 1 - low);
    high * WordModulus + (WordModulus - 1 - low)
  }

  /** Complementing twice gives the value back. */
  lemma BitwiseNotInvolution(x: int)
    ensures BitwiseNot(BitwiseNot(x)) == x
  {
    var y := BitwiseNot(x);
    assert x == x / WordModulus * WordModulus + x % WordModulus;
    assert y == y / WordModulus * WordModulus + y % WordModulus;
  }

  /** On a word, `bitwise_not` is `0xFFFFFFFF - x`. */
  lemma BitwiseNotOfWord(x: int)
    requires 0 <= x < WordModulus
    ensures BitwiseNot(x) == WordModulus - 1 - x
  {
    DivModUnique(x, WordModulus, 0, x);
  }
}
