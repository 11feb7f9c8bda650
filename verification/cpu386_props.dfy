/** Properties of the emulator's step function, stated over all machine states. */
module Cpu386Props {
  import opened Wrappers
  import opened Words386
  import opened Memory386
  import opened Alu386
  import opened Cpu386

  /** The six-byte fetch window at `eip` passes `translate`. */
  predicate Fetchable(m: Machine)
    requires Valid(m)
  {
    ZeroPageLimit <= m.eip && m.eip + 6 <= m.brk
  }

  /** `bytes` are in RAM at `address`. */
  predicate CodeAt(m: Machine, address: int, bytes: seq<u8>) {
    0 <= address && address + |bytes| <= |m.ram| && m.ram[address .. address + |bytes|] == bytes
  }

  /** The `i`th byte of code placed at `address`. */
  lemma CodeByte(m: Machine, address: int, bytes: seq<u8>, i: int)
    requires CodeAt(m, address, bytes) && 0 <= i < |bytes|
    ensures m.ram[address + i] == bytes[i]
  {
    assert m.ram[address .. address + |bytes|][i] == m.ram[address + i];
  }

  /** A word-sized access at `address` passes `translate`. */
  predicate WordInBounds(m: Machine, address: u32)
    requires Valid(m)
  {
    ZeroPageLimit <= address && address + 4 <= m.brk
  }

  /** A fetchable window that decodes to `insn` executes `insn`. */
  lemma StepDecoded(m: Machine, insn: Insn)
    requires Valid(m) && Fetchable(m)
    requires Decode(m.ram[m.eip .. m.eip + 6], m.eip) == Ok(insn)
    ensures Step(m) == Execute(m, insn)
  {
    assert ReadBytes(m, m.eip, 6) == Ok(m.ram[m.eip .. m.eip + 6]);
  }

  /** A window outside RAM or in the zero page dies in `translate`, before any decoding. */
  lemma FetchFault(m: Machine)
    requires Valid(m) && !Fetchable(m)
    ensures Step(m) == Faulted(if m.eip + 6 > m.brk then OutOfBounds(m.eip, 6)
                               else ZeroPageAccess(m.eip, 6), m)
  {
  }

  /** A window the decoder rejects dies with the decoder's diagnostic and changes nothing. */
  lemma DecodeFault(m: Machine)
    requires Valid(m) && Fetchable(m)
    requires Decode(m.ram[m.eip .. m.eip + 6], m.eip).Err?
    ensures Step(m) == Faulted(Decode(m.ram[m.eip .. m.eip + 6], m.eip).error, m)
  {
    assert ReadBytes(m, m.eip, 6) == Ok(m.ram[m.eip .. m.eip + 6]);
  }

  /** A leading byte with no case in the table dies as an unimplemented instruction. */
  lemma UnknownOpcodeFault(m: Machine)
    requires Valid(m) && Fetchable(m) && m.ram[m.eip] !in Opcodes
    ensures Step(m) == Faulted(UnimplementedInstruction(m.ram[m.eip], m.eip), m)
  {
    var p := m.ram[m.eip .. m.eip + 6];
    assert p[0] == m.ram[m.eip];
    DecodeFault(m);
  }

  lemma MovImmExecuted(m: Machine)
    requires Valid(m) && Fetchable(m) && m.ram[m.eip] == 184
    ensures var imm := U32In(m.ram[m.eip + 1 .. m.eip + 6]);
      && Decode(m.ram[m.eip .. m.eip + 6], m.eip) == Ok(MovImmEax(imm))
      && Execute(m, MovImmEax(imm)) == Running(m.(eax := imm, eip := m.eip + 5))
  {
    var p := m.ram[m.eip .. m.eip + 6];
    assert p[0] == 184 && p[1..] == m.ram[m.eip + 1 .. m.eip + 6];
  }

  /** `mov $imm32, %eax`: the four bytes after the opcode, little-endian, land in `eax`. */
  lemma MovImmEffect(m: Machine)
    requires Valid(m) && Fetchable(m) && m.ram[m.eip] == 184
    ensures Step(m) == Running(m.(eax := U32In(m.ram[m.eip + 1 .. m.eip + 6]), eip := m.eip + 5))
  {
    MovImmExecuted(m);
    StepDecoded(m, MovImmEax(U32In(m.ram[m.eip + 1 .. m.eip + 6])));
  }

  lemma PushEaxResult(m: Machine)
    requires Valid(m)
    requires m.esp >= 4 && WordInBounds(m, m.esp - 4)
    ensures PushEax(m) == Running(m.(ram := Splice(m.ram, m.esp - 4, U32Out(m.eax)),
                                     esp := m.esp - 4, eip := Wrap(m.eip + 1)))
  {
    var m1 := m.(esp := m.esp - 4);
    assert Wrap(m.esp - 4) == m.esp - 4;
    assert Translate(m1, m1.esp, 4) == Ok(m.esp - 4);
    assert WriteWord(m1, m1.esp, m.eax) == Ok(m1.(ram := Splice(m.ram, m.esp - 4, U32Out(m.eax))));
  }

  lemma PushEaxExecuted(m: Machine)
    requires Valid(m) && Fetchable(m) && m.ram[m.eip] == 80
    requires m.esp >= 4 && WordInBounds(m, m.esp - 4)
    ensures Decode(m.ram[m.eip .. m.eip + 6], m.eip) == Ok(PushEaxInsn)
    ensures Execute(m, PushEaxInsn) == Running(m.(ram := Splice(m.ram, m.esp - 4, U32Out(m.eax)),
                                                   esp := m.esp - 4, eip := Wrap(m.eip + 1)))
  {
    assert m.ram[m.eip .. m.eip + 6][0] == 80;
    PushEaxResult(m);
  }

  /** `push %eax`: the word below `esp` becomes `eax` and `esp` moves down onto it. */
  lemma PushEaxEffect(m: Machine)
    requires Valid(m) && Fetchable(m) && m.ram[m.eip] == 80
    requires m.esp >= 4 && WordInBounds(m, m.esp - 4)
    ensures Step(m) == Running(m.(ram := Splice(m.ram, m.esp - 4, U32Out(m.eax)),
                                   esp := m.esp - 4, eip := Wrap(m.eip + 1)))
  {
    PushEaxExecuted(m);
    StepDecoded(m, PushEaxInsn);
  }

  /** A pop inside the stack yields the word at `esp`. */
  lemma PopResult(m: Machine)
    requires Valid(m) && WordInBounds(m, m.esp)
    ensures Pop(m) == Ok((U32In(m.ram[m.esp .. m.esp + 4]), m.(esp := Wrap(m.esp + 4))))
  {
    var v := Pop(m).value.0;
    assert U32In(U32Out(v)) == v;
  }

  lemma PopRegResult(m: Machine, r: Reg)
    requires Valid(m) && WordInBounds(m, m.esp)
    ensures PopReg(m, r) == Running(SetReg(m, r, U32In(m.ram[m.esp .. m.esp + 4]))
                                      .(esp := Wrap(m.esp + 4), eip := Wrap(m.eip + 1)))
  {
    PopResult(m);
  }

  lemma PopEaxExecuted(m: Machine)
    requires Valid(m) && Fetchable(m) && m.ram[m.eip] == 88
    requires WordInBounds(m, m.esp)
    ensures Decode(m.ram[m.eip .. m.eip + 6], m.eip) == Ok(PopInsn(Eax))
    ensures Execute(m, PopInsn(Eax)) == Running(m.(eax := U32In(m.ram[m.esp .. m.esp + 4]),
                                                    esp := Wrap(m.esp + 4), eip := Wrap(m.eip + 1)))
  {
    assert m.ram[m.eip .. m.eip + 6][0] == 88;
    PopRegResult(m, Eax);
  }

  /** `pop %eax`: `eax` becomes the word at `esp` and `esp` moves up past it. */
  lemma PopEaxEffect(m: Machine)
    requires Valid(m) && Fetchable(m) && m.ram[m.eip] == 88
    requires WordInBounds(m, m.esp)
    ensures Step(m) == Running(m.(eax := U32In(m.ram[m.esp .. m.esp + 4]),
                                   esp := Wrap(m.esp + 4), eip := Wrap(m.eip + 1)))
  {
    PopEaxExecuted(m);
    StepDecoded(m, PopInsn(Eax));
  }

  /** After `push %eax` a `pop %eax` is next, and it reads back the word just pushed. */
  lemma PushedThenPopped(m: Machine) returns (m1: Machine)
    requires Valid(m) && CodeAt(m, m.eip, [80, 88]) && ZeroPageLimit <= m.eip && m.eip + 7 <= m.brk
    requires m.esp >= 4 && WordInBounds(m, m.esp - 4)
    requires m.eip + 1 < m.esp - 4 || m.esp <= m.eip + 1
    ensures Fetchable(m) && m.ram[m.eip] == 80
    ensures m1 == m.(ram := Splice(m.ram, m.esp - 4, U32Out(m.eax)), esp := m.esp - 4, eip := Wrap(m.eip + 1))
    ensures Valid(m1) && Fetchable(m1) && m1.ram[m1.eip] == 88 && WordInBounds(m1, m1.esp)
    ensures m1.(eax := U32In(m1.ram[m1.esp .. m1.esp + 4]), esp := Wrap(m1.esp + 4), eip := Wrap(m1.eip + 1))
            == m.(ram := Splice(m.ram, m.esp - 4, U32Out(m.eax)), eip := m.eip + 2)
  {
    CodeByte(m, m.eip, [80, 88], 0);
    CodeByte(m, m.eip, [80, 88], 1);
    m1 := m.(ram := Splice(m.ram, m.esp - 4, U32Out(m.eax)), esp := m.esp - 4, eip := Wrap(m.eip + 1));
    assert m1.ram[m.esp - 4 .. m.esp] == U32Out(m.eax);
    assert m1.ram[m.eip + 1] == 88;
  }

  /** The first step of `push %eax; pop %eax`, with what the second step needs. */
  lemma PushThenPopFirst(m: Machine) returns (m1: Machine)
    requires Valid(m) && CodeAt(m, m.eip, [80, 88]) && ZeroPageLimit <= m.eip && m.eip + 7 <= m.brk
    requires m.esp >= 4 && WordInBounds(m, m.esp - 4)
    requires m.eip + 1 < m.esp - 4 || m.esp <= m.eip + 1
    ensures Step(m) == Running(m1)
    ensures Valid(m1) && Fetchable(m1) && m1.ram[m1.eip] == 88 && WordInBounds(m1, m1.esp)
    ensures m1.(eax := U32In(m1.ram[m1.esp .. m1.esp + 4]), esp := Wrap(m1.esp + 4), eip := Wrap(m1.eip + 1))
            == m.(ram := Splice(m.ram, m.esp - 4, U32Out(m.eax)), eip := m.eip + 2)
  {
    m1 := PushedThenPopped(m);
    PushEaxEffect(m);
  }

  /**
   * `push %eax` followed by `pop %eax` restores `eax` and `esp`, advances `eip` by 2 and
   * leaves the old `eax` in the word just below `esp`; nothing else changes.
   */
  lemma PushPopRoundTrip(m: Machine)
    requires Valid(m) && CodeAt(m, m.eip, [80, 88]) && ZeroPageLimit <= m.eip && m.eip + 7 <= m.brk
    requires m.esp >= 4 && WordInBounds(m, m.esp - 4)
    requires m.eip + 1 < m.esp - 4 || m.esp <= m.eip + 1   // the push does not overwrite the pop
    ensures Step(m).Running?
    ensures Step(Step(m).m) == Running(m.(ram := Splice(m.ram, m.esp - 4, U32Out(m.eax)), eip := m.eip + 2))
  {
    var m1 := PushThenPopFirst(m);
    PopEaxEffect(m1);
  }

  /** Adding a displacement read as signed or as unsigned gives the same address modulo 2^32. */
  lemma WrapOfSignedSum(a: int, rel: u32)
    ensures Wrap(a + SexDword(rel)) == Wrap(a + rel)
  {
    WrapOfSum(a, SexDword(rel));
  }

  /** RAM once `call` at `m` has stored its return address in the word below `esp`. */
  function CallPushedRam(m: Machine): (ram: seq<u8>)
    requires Valid(m) && m.eip + 5 < U32Modulus
    requires m.esp >= 4 && WordInBounds(m, m.esp - 4)
    ensures |ram| == |m.ram| && ram[m.esp - 4 .. m.esp] == U32Out(m.eip + 5)
  {
    Splice(m.ram, m.esp - 4, U32Out(m.eip + 5))
  }

  /**
   * Where `call` at `m` goes: past its five bytes, plus the displacement found at
   * `eip + 1` once the return address has been stored.
   */
  function CallTarget(m: Machine): u32
    requires Valid(m) && m.eip + 5 < U32Modulus && m.eip + 5 <= |m.ram|
    requires m.esp >= 4 && WordInBounds(m, m.esp - 4)
  {
    Wrap(m.eip + 5 + Displacement(CallPushedRam(m), m.eip))
  }

  /** The push half of `call`: the return address goes into the word below `esp`. */
  lemma CallPushes(m: Machine)
    requires Valid(m) && m.eip + 5 < U32Modulus
    requires m.esp >= 4 && WordInBounds(m, m.esp - 4)
    ensures var m1 := m.(eip := Wrap(m.eip + 5), esp := Wrap(m.esp - 4));
      WriteWord(m1, m1.esp, m1.eip) == Ok(m.(ram := CallPushedRam(m), eip := m.eip + 5, esp := m.esp - 4))
  {
    var m1 := m.(eip := m.eip + 5, esp := m.esp - 4);
    assert Translate(m1, m1.esp, 4) == Ok(m.esp - 4);
  }

  /** `call` as a record update, before the signed displacement is simplified. */
  lemma CallStores(m: Machine)
    requires Valid(m) && m.eip + 5 < U32Modulus && m.eip + 5 <= |m.ram|
    requires m.esp >= 4 && WordInBounds(m, m.esp - 4)
    ensures Call(m) == Running(m.(ram := CallPushedRam(m), esp := m.esp - 4,
                                  eip := Wrap(m.eip + 5 + SexDword(Displacement(CallPushedRam(m), m.eip)))))
  {
    var m1 := m.(eip := Wrap(m.eip + 5), esp := Wrap(m.esp - 4));
    CallPushes(m);
    var m2 := WriteWord(m1, m1.esp, m1.eip).value;
    assert m2.ram == CallPushedRam(m) && m1.eip == m.eip + 5;
  }

  lemma CallResult(m: Machine)
    requires Valid(m) && m.eip + 5 < U32Modulus && m.eip + 5 <= |m.ram|
    requires m.esp >= 4 && WordInBounds(m, m.esp - 4)
    ensures Call(m) == Running(m.(ram := CallPushedRam(m), esp := m.esp - 4, eip := CallTarget(m)))
  {
    var d := Displacement(CallPushedRam(m), m.eip);
    CallStores(m);
    WrapOfSignedSum(m.eip + 5, d);
    assert CallTarget(m) == Wrap(m.eip + 5 + SexDword(d));
  }

  lemma CallDecoded(m: Machine) returns (rel: u32)
    requires Valid(m) && Fetchable(m) && m.ram[m.eip] == 232
    ensures rel == Displacement(m.ram, m.eip)
    ensures Decode(m.ram[m.eip .. m.eip + 6], m.eip) == Ok(CallInsn(rel))
  {
    var p := m.ram[m.eip .. m.eip + 6];
    assert p[0] == 232 && p[1..][..4] == m.ram[m.eip + 1 .. m.eip + 5];
    rel := U32In(p[1..]);
  }

  lemma CallExecuted(m: Machine, rel: u32)
    requires Valid(m) && m.eip + 5 <= |m.ram|
    ensures Execute(m, CallInsn(rel)) == Call(m)
  {
  }

  /**
   * `call rel32`: the address of the next instruction is pushed and `eip` moves, modulo
   * 2^32, by the displacement read after the push.
   */
  lemma CallEffect(m: Machine)
    requires Valid(m) && Fetchable(m) && m.ram[m.eip] == 232
    requires m.esp >= 4 && WordInBounds(m, m.esp - 4)
    ensures Step(m) == Running(m.(ram := CallPushedRam(m), esp := m.esp - 4, eip := CallTarget(m)))
  {
    var rel := CallDecoded(m);
    StepDecoded(m, CallInsn(rel));
    CallExecuted(m, rel);
    CallResult(m);
  }

  /**
   * When the pushed word misses the displacement bytes, `call` jumps by the displacement
   * as fetched, the 32-bit relative call of i386.
   */
  lemma CallTargetAsFetched(m: Machine)
    requires Valid(m) && Fetchable(m)
    requires m.esp >= 4 && WordInBounds(m, m.esp - 4)
    requires m.eip + 5 <= m.esp - 4 || m.esp <= m.eip + 1
    ensures CallTarget(m) == Wrap(m.eip + 5 + Displacement(m.ram, m.eip))
  {
    DisplacementKept(m);
  }

  lemma DisplacementKept(m: Machine)
    requires Valid(m) && Fetchable(m)
    requires m.esp >= 4 && WordInBounds(m, m.esp - 4)
    requires m.eip + 5 <= m.esp - 4 || m.esp <= m.eip + 1
    ensures Displacement(CallPushedRam(m), m.eip) == Displacement(m.ram, m.eip)
  {
    var pushed := CallPushedRam(m);
    forall k | m.eip + 1 <= k < m.eip + 5
      ensures pushed[k] == m.ram[k]
    {
      assert pushed == Splice(m.ram, m.esp - 4, U32Out(m.eip + 5));
    }
    assert pushed[m.eip + 1 .. m.eip + 5] == m.ram[m.eip + 1 .. m.eip + 5];
  }

  /**
   * `e8 00 00 00 00` with `esp` just past it: the push overwrites the displacement with
   * the return address, so the call lands at twice that address instead of on it.
   */
  lemma CallOverwritesDisplacement(m: Machine)
    requires Valid(m) && Fetchable(m) && CodeAt(m, m.eip, [232, 0, 0, 0, 0])
    requires m.esp == m.eip + 5
    ensures Step(m) == Running(m.(ram := CallPushedRam(m), esp := m.eip + 1, eip := Wrap(2 * (m.eip + 5))))
    ensures Step(m).m.eip != m.eip + 5
  {
    CodeByte(m, m.eip, [232, 0, 0, 0, 0], 0);
    CallEffect(m);
    PushOverDisplacement(m);
  }

  /** The return address stored over the displacement is the displacement read back. */
  lemma PushOverDisplacement(m: Machine)
    requires Valid(m) && m.eip + 5 < U32Modulus && m.eip + 5 <= |m.ram|
    requires m.esp == m.eip + 5 && WordInBounds(m, m.esp - 4)
    ensures CallTarget(m) == Wrap(2 * (m.eip + 5))
  {
    var pushed := CallPushedRam(m);
    assert pushed[m.eip + 1 .. m.eip + 5] == U32Out(m.eip + 5);
  }

  lemma RetResult(m: Machine)
    requires Valid(m) && WordInBounds(m, m.esp)
    ensures Ret(m) == Running(m.(esp := Wrap(m.esp + 4), eip := U32In(m.ram[m.esp .. m.esp + 4])))
  {
    U32OutOfU32In(m.ram[m.esp .. m.esp + 4]);
  }

  lemma RetExecuted(m: Machine)
    requires Valid(m) && Fetchable(m) && m.ram[m.eip] == 195
    requires WordInBounds(m, m.esp)
    ensures Decode(m.ram[m.eip .. m.eip + 6], m.eip) == Ok(RetInsn)
    ensures Execute(m, RetInsn) == Running(m.(esp := Wrap(m.esp + 4), eip := U32In(m.ram[m.esp .. m.esp + 4])))
  {
    assert m.ram[m.eip .. m.eip + 6][0] == 195;
    RetResult(m);
  }

  /** `ret`: `eip` becomes the word on top of the stack, which is popped. */
  lemma RetEffect(m: Machine)
    requires Valid(m) && Fetchable(m) && m.ram[m.eip] == 195
    requires WordInBounds(m, m.esp)
    ensures Step(m) == Running(m.(esp := Wrap(m.esp + 4), eip := U32In(m.ram[m.esp .. m.esp + 4])))
  {
    RetExecuted(m);
    StepDecoded(m, RetInsn);
  }

  /** After a `call` to a `ret`, the `ret` is next and pops the return address just pushed. */
  lemma CalledThenReturned(m: Machine) returns (m1: Machine)
    requires Valid(m) && Fetchable(m)
    requires m.esp >= 4 && WordInBounds(m, m.esp - 4)
    requires var target := CallTarget(m);
      && ZeroPageLimit <= target && target + 6 <= m.brk && m.ram[target] == 195
      && !(m.esp - 4 <= target < m.esp)
    ensures m1 == m.(ram := CallPushedRam(m), esp := m.esp - 4, eip := CallTarget(m))
    ensures Valid(m1) && Fetchable(m1) && m1.ram[m1.eip] == 195 && WordInBounds(m1, m1.esp)
    ensures m1.(esp := Wrap(m1.esp + 4), eip := U32In(m1.ram[m1.esp .. m1.esp + 4]))
            == m.(ram := CallPushedRam(m), eip := m.eip + 5)
  {
    m1 := m.(ram := CallPushedRam(m), esp := m.esp - 4, eip := CallTarget(m));
  }

  /** The first step of a `call` to a `ret`, with what the second step needs. */
  lemma CallThenRetFirst(m: Machine) returns (m1: Machine)
    requires Valid(m) && Fetchable(m) && m.ram[m.eip] == 232
    requires m.esp >= 4 && WordInBounds(m, m.esp - 4)
    requires var target := CallTarget(m);
      && ZeroPageLimit <= target && target + 6 <= m.brk && m.ram[target] == 195
      && !(m.esp - 4 <= target < m.esp)
    ensures Step(m) == Running(m1)
    ensures Valid(m1) && Fetchable(m1) && m1.ram[m1.eip] == 195 && WordInBounds(m1, m1.esp)
    ensures m1.(esp := Wrap(m1.esp + 4), eip := U32In(m1.ram[m1.esp .. m1.esp + 4]))
            == m.(ram := CallPushedRam(m), eip := m.eip + 5)
  {
    m1 := CalledThenReturned(m);
    CallEffect(m);
  }

  /**
   * A `call` to a `ret` comes back to the instruction after the `call` with `esp` restored;
   * only the stack word below `esp` has changed, and it holds the return address.
   */
  lemma CallThenRet(m: Machine)
    requires Valid(m) && Fetchable(m) && m.ram[m.eip] == 232
    requires m.esp >= 4 && WordInBounds(m, m.esp - 4)
    requires var target := CallTarget(m);
      && ZeroPageLimit <= target && target + 6 <= m.brk && m.ram[target] == 195
      && !(m.esp - 4 <= target < m.esp)
    ensures Step(m).Running?
    ensures Step(Step(m).m) == Running(m.(ram := CallPushedRam(m), eip := m.eip + 5))
  {
    var m1 := CallThenRetFirst(m);
    RetEffect(m1);
  }

  lemma TestEaxExecuted(m: Machine)
    requires Valid(m) && Fetchable(m) && m.ram[m.eip] == 133 && m.ram[m.eip + 1] == 192
    ensures Decode(m.ram[m.eip .. m.eip + 6], m.eip) == Ok(TestEax)
    ensures Execute(m, TestEax) == Running(m.(zf := m.eax != 0, sf := m.eax >= 0x1000_0000,
                                              eip := Wrap(m.eip + 2)))
  {
    var p := m.ram[m.eip .. m.eip + 6];
    assert p[0] == 133 && p[1] == 192;
  }

  /** `test %eax, %eax` sets the flags from `eax` as `set_flags` does. */
  lemma TestEaxEffect(m: Machine)
    requires Valid(m) && Fetchable(m) && m.ram[m.eip] == 133 && m.ram[m.eip + 1] == 192
    ensures Step(m) == Running(m.(zf := m.eax != 0, sf := m.eax >= 0x1000_0000, eip := Wrap(m.eip + 2)))
  {
    TestEaxExecuted(m);
    StepDecoded(m, TestEax);
  }

  lemma JumpExecuted(m: Machine)
    requires Valid(m) && Fetchable(m) && m.ram[m.eip] in {116, 117}
    ensures var d := m.ram[m.eip + 1];
      var insn := if m.ram[m.eip] == 116 then Jz(d) else Jnz(d);
      && Decode(m.ram[m.eip .. m.eip + 6], m.eip) == Ok(insn)
      && Execute(m, insn) == Running(JumpShort(m, if m.ram[m.eip] == 116 then m.zf else !m.zf, d))
  {
    var p := m.ram[m.eip .. m.eip + 6];
    assert p[0] == m.ram[m.eip] && p[1] == m.ram[m.eip + 1];
  }

  /** `jz d` jumps by `sex(d)` past the instruction when `zf` is set; `jnz d` when it is clear. */
  lemma JumpEffect(m: Machine)
    requires Valid(m) && Fetchable(m) && m.ram[m.eip] in {116, 117}
    ensures Step(m) == Running(JumpShort(m, if m.ram[m.eip] == 116 then m.zf else !m.zf, m.ram[m.eip + 1]))
  {
    JumpExecuted(m);
    var d := m.ram[m.eip + 1];
    StepDecoded(m, if m.ram[m.eip] == 116 then Jz(d) else Jnz(d));
  }

  /** After `test %eax, %eax`, the conditional jump that follows is next. */
  lemma JumpAfterTest(m: Machine, op: u8) returns (m1: Machine)
    requires op in {116, 117}
    requires Valid(m) && CodeAt(m, m.eip, [133, 192, op])
    requires ZeroPageLimit <= m.eip && m.eip + 8 <= m.brk
    ensures Fetchable(m) && m.ram[m.eip] == 133 && m.ram[m.eip + 1] == 192
    ensures m1 == m.(zf := m.eax != 0, sf := m.eax >= 0x1000_0000, eip := Wrap(m.eip + 2))
    ensures Valid(m1) && Fetchable(m1) && m1.ram[m1.eip] in {116, 117}
    ensures JumpShort(m1, if m1.ram[m1.eip] == 116 then m1.zf else !m1.zf, m1.ram[m1.eip + 1])
            == m.(zf := m.eax != 0, sf := m.eax >= 0x1000_0000,
                  eip := if (op == 116) == (m.eax != 0) then Wrap(m.eip + 4 + Sex(m.ram[m.eip + 3])) else m.eip + 4)
  {
    CodeByte(m, m.eip, [133, 192, op], 0);
    CodeByte(m, m.eip, [133, 192, op], 1);
    CodeByte(m, m.eip, [133, 192, op], 2);
    m1 := m.(zf := m.eax != 0, sf := m.eax >= 0x1000_0000, eip := Wrap(m.eip + 2));
  }

  /**
   * The first step of `test %eax, %eax` followed by `jz` (`op` = 116) or `jnz` (117), with
   * what the second step needs.
   */
  lemma TestThenJumpFirst(m: Machine, op: u8) returns (m1: Machine)
    requires op in {116, 117}
    requires Valid(m) && CodeAt(m, m.eip, [133, 192, op])
    requires ZeroPageLimit <= m.eip && m.eip + 8 <= m.brk
    ensures Step(m) == Running(m1)
    ensures Valid(m1) && Fetchable(m1) && m1.ram[m1.eip] in {116, 117}
    ensures JumpShort(m1, if m1.ram[m1.eip] == 116 then m1.zf else !m1.zf, m1.ram[m1.eip + 1])
            == m.(zf := m.eax != 0, sf := m.eax >= 0x1000_0000,
                  eip := if (op == 116) == (m.eax != 0) then Wrap(m.eip + 4 + Sex(m.ram[m.eip + 3])) else m.eip + 4)
  {
    m1 := JumpAfterTest(m, op);
    TestEaxEffect(m);
  }

  /**
   * `test %eax, %eax; jz d` as written branches when `eax` is NON-zero, because `set_flags`
   * sets `zf` for a non-zero value.
   */
  lemma TestThenJz(m: Machine)
    requires Valid(m) && CodeAt(m, m.eip, [133, 192, 116])
    requires ZeroPageLimit <= m.eip && m.eip + 8 <= m.brk
    ensures Step(m).Running?
    ensures Step(Step(m).m) == Running(m.(zf := m.eax != 0, sf := m.eax >= 0x1000_0000,
      eip := if m.eax != 0 then Wrap(m.eip + 4 + Sex(m.ram[m.eip + 3])) else m.eip + 4))
  {
    var m1 := TestThenJumpFirst(m, 116);
    JumpEffect(m1);
  }

  /** `test %eax, %eax; jnz d` as written branches when `eax` is zero. */
  lemma TestThenJnz(m: Machine)
    requires Valid(m) && CodeAt(m, m.eip, [133, 192, 117])
    requires ZeroPageLimit <= m.eip && m.eip + 8 <= m.brk
    ensures Step(m).Running?
    ensures Step(Step(m).m) == Running(m.(zf := m.eax != 0, sf := m.eax >= 0x1000_0000,
      eip := if m.eax == 0 then Wrap(m.eip + 4 + Sex(m.ram[m.eip + 3])) else m.eip + 4))
  {
    var m1 := TestThenJumpFirst(m, 117);
    JumpEffect(m1);
  }

  lemma Int80Executed(m: Machine)
    requires Valid(m) && Fetchable(m) && CodeAt(m, m.eip, [205, 128])
    ensures Decode(m.ram[m.eip .. m.eip + 6], m.eip) == Ok(Int80)
    ensures Execute(m, Int80) == Syscall(m.(eip := m.eip + 2))
  {
    var p := m.ram[m.eip .. m.eip + 6];
    CodeByte(m, m.eip, [205, 128], 0);
    CodeByte(m, m.eip, [205, 128], 1);
    assert p[0] == 205 && p[1] == 128;
  }

  /** `int $0x80` with `eax` = 1 ends the run with exit status `ebx`, whatever the fuel. */
  lemma ExitSyscall(m: Machine, fuel: nat)
    requires Valid(m) && Fetchable(m) && CodeAt(m, m.eip, [205, 128]) && m.eax == 1
    requires fuel >= 1
    ensures Step(m) == Exited(m.ebx)
    ensures Run(m, fuel) == Exited(m.ebx)
  {
    Int80Executed(m);
    StepDecoded(m, Int80);
  }

  /**
   * `int $0x80` with `eax` = 4 and a buffer inside RAM hands a write of `edx` bytes from
   * `ecx` on descriptor `ebx` to the host, with `eip` already past the instruction.
   */
  lemma WriteSyscall(m: Machine)
    requires Valid(m) && Fetchable(m) && CodeAt(m, m.eip, [205, 128]) && m.eax == 4
    requires ZeroPageLimit <= m.ecx && m.ecx + m.edx <= m.brk
    ensures Step(m) == HostIo(SysWrite(m.ebx, m.ecx, m.edx), m.(eip := m.eip + 2))
  {
    Int80Executed(m);
    StepDecoded(m, Int80);
  }

  /**
   * `dec %al` agrees with the i386 instruction, which decrements only the low byte, iff
   * `al` is not zero or the upper bytes are already all ones.
   */
  lemma DecAlAgreesWithI386Iff(m: Machine)
    ensures var low := m.eax % 0x100;
      DecAl(m).eax == m.eax - low + (low + 0xFF) % 0x100 <==> low != 0 || m.eax >= 0xFFFF_FF00
  {
  }

  lemma {:induction false} IterateAdditive(step: Machine --> Outcome, o: Outcome, a: nat, b: nat)
    requires StepsPreserve(step) && (o.Running? ==> Valid(o.m))
    ensures Iterate(step, o, a + b) == Iterate(step, Iterate(step, o, a), b)
    decreases a
  {
    if a > 0 && o.Running? {
      IterateAdditive(step, step(o.m), a - 1, b);
      assert a + b - 1 == (a - 1) + b;
    }
  }

  /** Running `a` steps and then `b` more is running `a + b` steps. */
  lemma RunAdditive(m: Machine, a: nat, b: nat)
    requires Valid(m)
    ensures Run(m, a).Running? ==> Run(m, a + b) == Run(Run(m, a).m, b)
    ensures !Run(m, a).Running? ==> Run(m, a + b) == Run(m, a)
  {
    IterateAdditive(Step, Running(m), a, b);
  }
}
