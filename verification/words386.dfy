/**
 * Fixed-width integers of the emulator and its little-endian word access
 * (`u32_in` and `u32_out` in 386.c). A `u32` is an int in [0, 2^32); C's
 * wrap-around is written out with `Wrap`.
 */
module Words386 {

  const U32Modulus: int := 0x1_0000_0000

  type u8 = x: int | 0 <= x < 0x100
  type u32 = x: int | 0 <= x < 0x1_0000_0000

  /**
   * C's conversion of an integer result to `uint32_t`: reduction modulo 2^32. The sums and
   * differences of two `u32`s are reduced by one explicit correction.
   */
  function Wrap(x: int): (r: u32)
    ensures 0 <= x < U32Modulus ==> r == x
    ensures U32Modulus <= x < 2 * U32Modulus ==> r == x - U32Modulus
    ensures -U32Modulus <= x < 0 ==> r == x + U32Modulus
    decreases if x < 0 then U32Modulus - x else x
  {
    if x < 0 then Wrap(x + U32Modulus)
    else if x < U32Modulus then x
    else Wrap(x - U32Modulus)
  }

  /** Wrapping is reduction modulo 2^32. */
  lemma {:induction false} WrapIsModulo(x: int)
    ensures Wrap(x) == x % U32Modulus
    decreases if x < 0 then U32Modulus - x else x
  {
    if x < 0 {
      WrapIsModulo(x + U32Modulus);
      ModuloShift(x, 1);
    } else if x >= U32Modulus {
      WrapIsModulo(x - U32Modulus);
      ModuloShift(x - U32Modulus, 1);
    }
  }

  /** Wrapping an operand first does not change a wrapped sum. */
  lemma WrapOfSum(a: int, b: int)
    ensures Wrap(a + Wrap(b)) == Wrap(a + b)
  {
    var q := b / U32Modulus;
    WrapIsModulo(b);
    WrapIsModulo(a + b);
    WrapIsModulo(a + Wrap(b));
    assert b == q * U32Modulus + Wrap(b);
    assert (a + Wrap(b)) + q * U32Modulus == a + b;
    ModuloShift(a + Wrap(b), q);
  }

  lemma {:induction false} ModuloShift(x: int, q: int)
    ensures (x + q * U32Modulus) % U32Modulus == x % U32Modulus
    decreases if q < 0 then -q else q
  {
    if q > 0 {
      ModuloShift(x, q - 1);
      assert x + q * U32Modulus == (x + (q - 1) * U32Modulus) + U32Modulus;
    } else if q < 0 {
      ModuloShift(x, q + 1);
      assert x + q * U32Modulus == (x + (q + 1) * U32Modulus) - U32Modulus;
    }
  }

  /** A `u32` read as an `int32_t` (two's complement). */
  function Signed(v: u32): (r: int)
    ensures -0x8000_0000 <= r < 0x8000_0000
    ensures Wrap(r) == v
  {
    if v < 0x8000_0000 then v else v - U32Modulus
  }

  /**
   * `u32_in`: `p[0] | p[1] << 8 | p[2] << 16 | p[3] << 24`; the four bytes occupy disjoint
   * bit ranges, so the ORs are sums. The top byte shifted into the sign bit is taken modulo 2^32.
   */
  function U32In(p: seq<u8>): (v: u32)
    requires |p| >= 4
  {
    p[0] + p[1] as int * 0x100 + p[2] as int * 0x1_0000 + p[3] as int * 0x100_0000
  }

  /** `u32_out`: the four bytes of `v`, low byte first, which `U32In` reads back as `v`. */
  function U32Out(v: u32): (p: seq<u8>)
    ensures |p| == 4
    ensures U32In(p) == v
  {
    var q1 := v / 0x100;
    var q2 := q1 / 0x100;
    var q3 := q2 / 0x100;
    [v % 0x100, q1 % 0x100, q2 % 0x100, q3]
  }

  /** The four bytes `U32In` combines are the base-256 digits of the word it returns. */
  lemma U32InDigits(p: seq<u8>)
    requires |p| >= 4
    ensures var v := U32In(p);
      && v % 0x100 == p[0] && v / 0x100 % 0x100 == p[1]
      && v / 0x100 / 0x100 % 0x100 == p[2] && v / 0x100 / 0x100 / 0x100 == p[3]
  {
    var r2 := p[2] as int + p[3] as int * 0x100;
    var r1 := p[1] as int + r2 * 0x100;
    assert U32In(p) == p[0] as int + r1 * 0x100;
    LowDigit(p[0], r1);
    LowDigit(p[1], r2);
    LowDigit(p[2], p[3]);
  }

  lemma LowDigit(lo: int, hi: int)
    requires 0 <= lo < 0x100
    ensures (lo + hi * 0x100) / 0x100 == hi && (lo + hi * 0x100) % 0x100 == lo
  {
  }

  /** Reading a word and writing it back reproduces the four bytes it came from. */
  lemma U32OutOfU32In(p: seq<u8>)
    requires |p| >= 4
    ensures U32Out(U32In(p)) == p[..4]
  {
    U32InDigits(p);
  }
}
