/**
 * What each instruction form of `single_step` does once decoded, including the `die` of
 * its `translate` when the operand lies outside RAM, and how pairs of forms combine.
 */
module Cpu386Forms {
  import opened Wrappers
  import opened Words386
  import opened Memory386
  import opened Alu386
  import opened Cpu386

  /**
   * `setge %al` as written: the low byte of `eax` becomes 1 when `sf` is set and 0
   * otherwise (i386 would compare SF with OF); the upper three bytes are kept.
   */
  lemma SetGeEffect(m: Machine)
    requires Valid(m)
    ensures Execute(m, SetGeAl).Running?
    ensures var r := Execute(m, SetGeAl).m;
      && r.eax / 0x100 == m.eax / 0x100
      && r.eax % 0x100 == (if m.sf then 1 else 0)
      && r == m.(eax := r.eax, eip := Wrap(m.eip + 3))
  {
    var cleared := m.eax - m.eax % 0x100;
    assert cleared == m.eax / 0x100 * 0x100;
  }

  /**
   * `movsbl %al, %eax` through `sex`: `eax` is i386's sign extension of `al` exactly
   * when bit 7 of `al` is clear.
   */
  lemma MovsblAlEffect(m: Machine)
    requires Valid(m)
    ensures Execute(m, MovsblAlInsn) == Running(m.(eax := Sex(m.eax % 0x100), eip := Wrap(m.eip + 3)))
    ensures Execute(m, MovsblAlInsn).m.eax == SignExtend(m.eax % 0x100) <==> m.eax % 0x100 < 0x80
  {
    SexIsSignExtensionIff(m.eax % 0x100);
  }

  /** `movzbl (%eax), %eax`: the byte at `eax`, or the `die` of `translate`. */
  lemma MovzblEaxEffect(m: Machine)
    requires Valid(m)
    ensures Translate(m, m.eax, 1).Ok? ==>
      Execute(m, MovzblEaxInsn) == Running(m.(eax := m.ram[m.eax], eip := Wrap(m.eip + 3)))
    ensures Translate(m, m.eax, 1).Err? ==>
      Execute(m, MovzblEaxInsn) == Faulted(Translate(m, m.eax, 1).error, m)
  {
  }

  /** `mov (%eax), %eax`: the word at `eax`, or the `die` of `translate`. */
  lemma LoadEaxEffect(m: Machine)
    requires Valid(m)
    ensures Translate(m, m.eax, 4).Ok? ==>
      Execute(m, LoadEaxInsn) == Running(m.(eax := U32In(m.ram[m.eax .. m.eax + 4]), eip := Wrap(m.eip + 2)))
    ensures Translate(m, m.eax, 4).Err? ==>
      Execute(m, LoadEaxInsn) == Faulted(Translate(m, m.eax, 4).error, m)
  {
    if Translate(m, m.eax, 4).Ok? {
      var v := ReadWord(m, m.eax).value;
      assert U32In(U32Out(v)) == v;
    }
  }

  /** `mov %cl, (%eax)`: the low byte of `ecx` is stored at `eax`, or `translate` dies. */
  lemma StoreClEffect(m: Machine)
    requires Valid(m)
    ensures Translate(m, m.eax, 1).Ok? ==>
      Execute(m, StoreClInsn) == Running(m.(ram := m.ram[m.eax := m.ecx % 0x100], eip := Wrap(m.eip + 2)))
    ensures Translate(m, m.eax, 1).Err? ==>
      Execute(m, StoreClInsn) == Faulted(Translate(m, m.eax, 1).error, m)
  {
  }

  /** `mov %cl, (%eax)` then `movzbl (%eax), %eax` loads the low byte of `ecx`. */
  lemma StoreClThenMovzbl(m: Machine)
    requires Valid(m) && Translate(m, m.eax, 1).Ok?
    ensures Execute(m, StoreClInsn).Running?
    ensures var m1 := Execute(m, StoreClInsn).m;
      Execute(m1, MovzblEaxInsn) == Running(m1.(eax := m.ecx % 0x100, eip := Wrap(m1.eip + 3)))
  {
    StoreClEffect(m);
    var m1 := Execute(m, StoreClInsn).m;
    MovzblEaxEffect(m1);
  }

  /**
   * `m` with `d` stored as the word on top of the stack, the flags set from `d`, and `eip`
   * moved on to `next`.
   */
  function StoredOnTop(m: Machine, d: u32, next: u32): Machine
    requires m.esp + 4 <= |m.ram|
  {
    m.(ram := Splice(m.ram, m.esp, U32Out(d)), zf := d != 0, sf := d >= 0x1000_0000, eip := next)
  }

  /**
   * `sub %eax, (%esp)`: the word on top of the stack becomes itself minus `eax` modulo
   * 2^32 with the flags set from the difference, or `translate` dies; `zf` ends up set
   * exactly when the two words were different.
   */
  lemma SubEaxFromTopEffect(m: Machine)
    requires Valid(m)
    ensures Translate(m, m.esp, 4).Err? ==>
      Execute(m, SubEaxFromTopInsn) == Faulted(Translate(m, m.esp, 4).error, m)
    ensures Translate(m, m.esp, 4).Ok? ==>
      var nos := U32In(m.ram[m.esp .. m.esp + 4]);
      && Execute(m, SubEaxFromTopInsn) == Running(StoredOnTop(m, Wrap(nos - m.eax), Wrap(m.eip + 3)))
      && (Execute(m, SubEaxFromTopInsn).m.zf <==> nos != m.eax)
  {
    SubEaxFromTopResult(m);
    if Translate(m, m.esp, 4).Ok? {
      DifferenceZeroIff(U32In(m.ram[m.esp .. m.esp + 4]), m.eax);
    }
  }

  lemma SubEaxFromTopResult(m: Machine)
    requires Valid(m)
    ensures Translate(m, m.esp, 4).Err? ==> SubEaxFromTop(m) == Faulted(Translate(m, m.esp, 4).error, m)
    ensures Translate(m, m.esp, 4).Ok? ==>
      SubEaxFromTop(m) == Running(StoredOnTop(m, Wrap(U32In(m.ram[m.esp .. m.esp + 4]) - m.eax), Wrap(m.eip + 3)))
  {
    if Translate(m, m.esp, 4).Ok? {
      var nos := ReadWord(m, m.esp).value;
      assert nos == U32In(m.ram[m.esp .. m.esp + 4]);
      SubEaxFromTopStored(m, nos);
    }
  }

  /** The store of `sub %eax, (%esp)` once the word `nos` on top of the stack has been read. */
  lemma SubEaxFromTopStored(m: Machine, nos: u32)
    requires Valid(m) && ReadWord(m, m.esp) == Ok(nos)
    ensures SubEaxFromTop(m) == Running(StoredOnTop(m, Wrap(nos - m.eax), Wrap(m.eip + 3)))
  {
    var d := Wrap(nos - m.eax);
    SubEaxFromTopWrites(m, nos, d);
    FlagsOf(m, d);
  }

  lemma SubEaxFromTopWrites(m: Machine, nos: u32, d: u32)
    requires Valid(m) && ReadWord(m, m.esp) == Ok(nos) && d == Wrap(nos - m.eax)
    ensures SubEaxFromTop(m)
      == Running(SetFlags(m, d).(ram := Splice(m.ram, m.esp, U32Out(d)), eip := Wrap(m.eip + 3)))
  {
  }

  /** `set_flags` written as a record update. */
  lemma FlagsOf(m: Machine, d: u32)
    ensures SetFlags(m, d) == m.(zf := d != 0, sf := d >= 0x1000_0000)
  {
  }

  /** Two words differ exactly when their difference modulo 2^32 is not zero. */
  lemma DifferenceZeroIff(a: u32, b: u32)
    ensures Wrap(a - b) != 0 <==> a != b
  {
    WrapIsModulo(a - b);
  }

  /**
   * `sub $imm, %ebp`: `ebp` drops by `imm` modulo 2^32 and the flags are set from the new
   * `ebp`; `zf` ends up set exactly when `ebp` was not `imm`.
   */
  lemma SubImmEbpEffect(m: Machine, imm: u32)
    requires Valid(m)
    ensures var e := Wrap(m.ebp - imm);
      && Execute(m, SubImmEbpInsn(imm))
           == Running(m.(ebp := e, zf := e != 0, sf := e >= 0x1000_0000, eip := Wrap(m.eip + 6)))
      && (e != 0 <==> m.ebp != imm)
  {
  }

  /** `xchg %ebp, %esp` twice gives both registers back. */
  lemma XchgTwice(m: Machine)
    requires Valid(m)
    ensures Execute(m, XchgEbpEsp).Running?
    ensures Execute(Execute(m, XchgEbpEsp).m, XchgEbpEsp) == Running(m.(eip := Wrap(m.eip + 4)))
  {
    WrapOfSum(2, m.eip + 2);
    assert 2 + (m.eip + 2) == m.eip + 4;
  }

  /**
   * `popl (%eax)`: the word on top of the stack is copied to `eax` and popped. The pop
   * comes first, so a store that `translate` rejects dies with `esp` already moved.
   */
  lemma PopToEaxAddressEffect(m: Machine)
    requires Valid(m)
    ensures Translate(m, m.esp, 4).Err? ==>
      Execute(m, PopToEaxAddressInsn) == Faulted(Translate(m, m.esp, 4).error, m)
    ensures Translate(m, m.esp, 4).Ok? && Translate(m, m.eax, 4).Err? ==>
      Execute(m, PopToEaxAddressInsn) == Faulted(Translate(m, m.eax, 4).error, m.(esp := Wrap(m.esp + 4)))
    ensures Translate(m, m.esp, 4).Ok? && Translate(m, m.eax, 4).Ok? ==>
      Execute(m, PopToEaxAddressInsn)
        == Running(m.(ram := Splice(m.ram, m.eax, m.ram[m.esp .. m.esp + 4]), esp := Wrap(m.esp + 4),
                      eip := Wrap(m.eip + 2)))
  {
    PopToEaxAddressResult(m);
  }

  lemma PopToEaxAddressResult(m: Machine)
    requires Valid(m)
    ensures Translate(m, m.esp, 4).Err? ==>
      PopToEaxAddress(m) == Faulted(Translate(m, m.esp, 4).error, m)
    ensures Translate(m, m.esp, 4).Ok? && Translate(m, m.eax, 4).Err? ==>
      PopToEaxAddress(m) == Faulted(Translate(m, m.eax, 4).error, m.(esp := Wrap(m.esp + 4)))
    ensures Translate(m, m.esp, 4).Ok? && Translate(m, m.eax, 4).Ok? ==>
      PopToEaxAddress(m)
        == Running(m.(ram := Splice(m.ram, m.eax, m.ram[m.esp .. m.esp + 4]), esp := Wrap(m.esp + 4),
                      eip := Wrap(m.eip + 2)))
  {
    if Translate(m, m.esp, 4).Ok? {
      var word := m.ram[m.esp .. m.esp + 4];
      U32OutOfU32In(word);
      var m1 := m.(esp := Wrap(m.esp + 4));
      assert Pop(m) == Ok((U32In(word), m1));
      if Translate(m, m.eax, 4).Ok? {
        assert WriteWord(m1, m.eax, U32In(word)) == Ok(m1.(ram := Splice(m.ram, m.eax, word)));
      }
    }
  }

  /** After `popl (%eax)`, `mov (%eax), %eax` loads the word that was popped. */
  lemma PopToEaxAddressThenLoad(m: Machine)
    requires Valid(m) && Translate(m, m.esp, 4).Ok? && Translate(m, m.eax, 4).Ok?
    ensures Execute(m, PopToEaxAddressInsn).Running?
    ensures var m1 := Execute(m, PopToEaxAddressInsn).m;
      Execute(m1, LoadEaxInsn) == Running(m1.(eax := U32In(m.ram[m.esp .. m.esp + 4]), eip := Wrap(m1.eip + 2)))
  {
    PopToEaxAddressEffect(m);
    var m1 := Execute(m, PopToEaxAddressInsn).m;
    LoadEaxEffect(m1);
    assert m1.ram[m.eax .. m.eax + 4] == m.ram[m.esp .. m.esp + 4];
  }
}
