/**
 * Two bounds computations of 386.c as written, in 32-bit arithmetic, next to the
 * unbounded forms the rest of the model uses (`Memory386.Translate` and
 * `Loader386.CopyLength`). Each as-written form wraps modulo 2^32 and lets an access
 * through that lands outside RAM.
 */
module Findings386 {
  import opened Wrappers
  import opened Words386
  import opened Memory386
  import opened Loader386

  /** The two checks of `translate` with `address + length` computed in `u32`. */
  predicate TranslatePassesAsWritten(brk: u32, address: u32, length: u32) {
    !(address > brk || Wrap(address + length) > brk) && !(address < ZeroPageLimit)
  }

  /** When the sum does not wrap, the as-written check is exactly the corrected one. */
  lemma TranslateAsWrittenAgreesWithoutWrap(m: Machine, address: u32, length: u32)
    requires Valid(m) && address + length < U32Modulus
    ensures TranslatePassesAsWritten(m.brk, address, length) <==> Translate(m, address, length).Ok?
  {
  }

  /**
   * An 8 KiB RAM, a buffer at 0x1000 and a length of 0xFFFFF000: the wrapped sum is 0, so
   * the check passes, and a `read` into that buffer could write 4 GiB past the allocation.
   * The corrected check rejects it.
   */
  lemma TranslateWrapCounterexample(m: Machine)
    requires Valid(m) && m.brk == 0x2000
    ensures TranslatePassesAsWritten(m.brk, 0x1000, 0xFFFF_F000)
    ensures 0x1000 + 0xFFFF_F000 > m.brk
    ensures Translate(m, 0x1000, 0xFFFF_F000) == Err(OutOfBounds(0x1000, 0xFFFF_F000))
  {
  }

  /** `load`'s clamp with `p_memsz - p_vaddr` computed in `u32`. */
  function CopyLengthAsWritten(length: nat, memsz: u32, vaddr: u32): (n: nat)
    ensures n <= length
  {
    var room := Wrap(memsz - vaddr);
    if length > room then room else length
  }

  /** While `p_vaddr` is at most `p_memsz` the as-written clamp is the corrected one. */
  lemma CopyLengthAsWrittenAgrees(length: nat, memsz: u32, vaddr: u32)
    requires vaddr <= memsz
    ensures CopyLengthAsWritten(length, memsz, vaddr) == CopyLength(length, memsz, vaddr)
  {
  }

  /**
   * `p_memsz` 0x1000 and `p_vaddr` 0x2000: the room wraps to 0xFFFFF000, so a 16-byte
   * image is copied whole to offset 0x2000 of a 0x1000-byte buffer. The corrected clamp
   * copies nothing.
   */
  lemma CopyLengthWrapCounterexample()
    ensures CopyLengthAsWritten(0x10, 0x1000, 0x2000) == 0x10
    ensures 0x2000 + CopyLengthAsWritten(0x10, 0x1000, 0x2000) > 0x1000
    ensures CopyLength(0x10, 0x1000, 0x2000) == 0
  {
  }
}
