/** The arithmetic helpers of the emulator: `sex`, `sex_dword` and `set_flags` (386.c). */
module Alu386 {
  import opened Words386
  import opened Memory386

  /** What i386 `movsbl` computes: bit 7 of the byte copied into bits 8-31. */
  function SignExtend(b: u8): u32 {
    if b < 0x80 then b else 0xFFFF_FF00 + b
  }

  /**
   * `sex`, as written: a byte with bit 7 set becomes `0xFFFFFFFF - b`, which read as
   * `int32_t` is -(b + 1), where the byte's own signed value is b - 256.
   */
  function Sex(b: u8): (r: u32)
    ensures b < 0x80 ==> r == b
    ensures b >= 0x80 ==> Signed(r) == -(b + 1)
  {
    if b >= 0x80 then 0xFFFF_FFFF - b else b
  }

  /**
   * `sex_dword`: `-(s32)(~v + 1)` when bit 31 of `v` is set, else `v`. Negating INT_MIN
   * is undefined in C; it is taken to wrap, as the compiled code does.
   */
  function SexDword(v: u32): (r: int)
    ensures r == Signed(v)
    ensures Wrap(r) == v
  {
    if v >= 0x8000_0000 then
      var t := Signed(Wrap((0xFFFF_FFFF - v) + 1));
      if t == -0x8000_0000 then t else -t
    else
      v
  }

  /**
   * `set_flags`, as written: `zf = !!v` is set when `v` is NON-zero, and
   * `sf = !!(v & 0xf0000000)` when any of bits 28-31 is set; nothing else changes.
   */
  function SetFlags(m: Machine, v: u32): (r: Machine)
    ensures r.zf <==> v != 0
    ensures r.sf <==> v >= 0x1000_0000
    ensures r == m.(zf := r.zf, sf := r.sf)
  {
    m.(zf := v != 0, sf := v / 0x1000_0000 != 0)
  }

  /** `sex` agrees with i386 sign extension exactly on the bytes below 0x80. */
  lemma SexIsSignExtensionIff(b: u8)
    ensures Sex(b) == SignExtend(b) <==> b < 0x80
  {
  }

  /** i386 sets ZF on a zero result; `set_flags` sets it in exactly the other case. */
  lemma SetFlagsZeroFlagInverted(m: Machine, v: u32)
    ensures SetFlags(m, v).zf <==> !(v == 0)
  {
  }

  /** i386 sets SF from bit 31; `set_flags` agrees except when bits 28-30 alone are set. */
  lemma SetFlagsSignFlagIff(m: Machine, v: u32)
    ensures SetFlags(m, v).sf == (v >= 0x8000_0000) <==> !(0x1000_0000 <= v < 0x8000_0000)
  {
  }
}
