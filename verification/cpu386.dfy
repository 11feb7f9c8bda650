/**
 * The fetch-decode-execute step of the emulator (`single_step`, `pop` and
 * `implement_syscall` in 386.c), as a pure function from one machine state to an outcome.
 */
module Cpu386 {
  import opened Wrappers
  import opened Words386
  import opened Memory386
  import opened Alu386

  /** The two system calls that move bytes between guest RAM and a host descriptor. */
  datatype IoCall =
    | SysRead(fd: u32, buffer: u32, count: u32)
    | SysWrite(fd: u32, buffer: u32, count: u32)

  /**
   * What one step leads to: the next state; `exit(code)`; a read or write for the host to
   * perform on the (already bounds-checked) buffer before execution resumes from `m`; or
   * `die`, with the state as it was when `die` was called.
   */
  datatype Outcome =
    | Running(m: Machine)
    | Exited(code: u32)
    | HostIo(call: IoCall, m: Machine)
    | Faulted(error: Error, m: Machine)

  /** The registers `pop` can write. */
  datatype Reg = Eax | Ecx | Edx | Ebx

  function SetReg(m: Machine, r: Reg, v: u32): Machine {
    match r
    case Eax => m.(eax := v)
    case Ecx => m.(ecx := v)
    case Edx => m.(edx := v)
    case Ebx => m.(ebx := v)
  }

  /** The word on top of the stack and the machine with `esp` moved past it. */
  function Pop(m: Machine): (r: Result<(u32, Machine), Error>)
    requires Valid(m)
    ensures r.Ok? <==> Translate(m, m.esp, 4).Ok?
    ensures r.Ok? ==> U32Out(r.value.0) == m.ram[m.esp .. m.esp + 4]
    ensures r.Ok? ==> r.value.1 == m.(esp := Wrap(m.esp + 4))
    ensures r.Err? ==> r.error == Translate(m, m.esp, 4).error
  {
    var v :- ReadWord(m, m.esp);
    Ok((v, m.(esp := Wrap(m.esp + 4))))
  }

  /**
   * No instruction resizes memory or touches the tracing toggles: a valid state stays
   * valid with the same `brk`.
   */
  predicate Preserves(m: Machine, o: Outcome) {
    !o.Exited? ==>
      && Valid(o.m) && o.m.brk == m.brk
      && o.m.tracingStacks == m.tracingStacks && o.m.tracingEip == m.tracingEip
  }

  /**
   * `implement_syscall` with the arguments taken from the registers: 1 exits with `ebx`,
   * 3 and 4 check the buffer `[ecx, ecx + edx)` and hand the transfer to the host (whose
   * result `single_step` discards), anything else dies.
   */
  function Syscall(m: Machine): (o: Outcome)
    requires Valid(m)
    ensures Preserves(m, o)
    ensures m.eax == 1 <==> o.Exited?
    ensures o.Exited? ==> o.code == m.ebx
    ensures o.HostIo? <==> (m.eax == 3 || m.eax == 4) && Translate(m, m.ecx, m.edx).Ok?
    ensures o.HostIo? ==> o.m == m && o.call.fd == m.ebx && o.call.buffer == m.ecx
                          && o.call.count == m.edx && (o.call.SysRead? <==> m.eax == 3)
    ensures o.Faulted? ==> o.m == m
    ensures o.Faulted? && m.eax !in {1, 3, 4} ==>
              o.error == UnimplementedSyscall(m.eax, m.ebx, m.ecx, m.edx)
  {
    if m.eax == 1 then
      Exited(m.ebx)
    else if m.eax == 3 || m.eax == 4 then
      match Translate(m, m.ecx, m.edx)
      case Err(e) => Faulted(e, m)
      case Ok(_) =>
        HostIo(if m.eax == 3 then SysRead(m.ebx, m.ecx, m.edx) else SysWrite(m.ebx, m.ecx, m.edx), m)
    else
      Faulted(UnimplementedSyscall(m.eax, m.ebx, m.ecx, m.edx), m)
  }

  /** The host's side of `read`: up to `count` bytes land at the start of the buffer. */
  function CompleteRead(m: Machine, call: IoCall, data: seq<u8>): (m': Machine)
    requires Valid(m) && call.SysRead?
    requires call.buffer + call.count <= |m.ram| && |data| <= call.count
    ensures Valid(m') && m' == m.(ram := m'.ram)
    ensures m'.ram[call.buffer .. call.buffer + |data|] == data
    ensures forall k :: 0 <= k < |m.ram| && !(call.buffer <= k < call.buffer + |data|) ==>
                        m'.ram[k] == m.ram[k]
  {
    m.(ram := Splice(m.ram, call.buffer, data))
  }

  // One function per instruction form; `m` is the state before the step, `p` the six
  // bytes at `eip`.

  /** `setge %al` as written: the low byte of `eax` becomes `sf`. */
  function SetGe(m: Machine): Machine {
    var cleared := m.eax - m.eax % 0x100;   // eax &= ~0xff
    m.(eax := if m.sf then cleared + 1 else cleared, eip := Wrap(m.eip + 3))
  }

  /** `movzbl (%eax), %eax`. */
  function MovzblEax(m: Machine): (o: Outcome)
    requires Valid(m)
    ensures Preserves(m, o)
  {
    match ReadBytes(m, m.eax, 1)
    case Err(e) => Faulted(e, m)
    case Ok(b) => Running(m.(eax := b[0], eip := Wrap(m.eip + 3)))
  }

  /** `movsbl %al, %eax`, through `sex` on the low byte. */
  function MovsblAl(m: Machine): Machine {
    m.(eax := Sex(m.eax % 0x100), eip := Wrap(m.eip + 3))
  }

  /** `sub %eax, (%esp)`: the top of stack minus `eax`, flags set from the difference. */
  function SubEaxFromTop(m: Machine): (o: Outcome)
    requires Valid(m)
    ensures Preserves(m, o)
  {
    match ReadWord(m, m.esp)
    case Err(e) => Faulted(e, m)
    case Ok(nos) =>
      var result := Wrap(nos - m.eax);
      var m1 := SetFlags(m, result);
      match WriteWord(m1, m.esp, result)
      case Err(e) => Faulted(e, m1)
      case Ok(m2) => Running(m2.(eip := Wrap(m.eip + 3)))
  }

  /** `push %eax`: `esp` drops by 4 before the store is checked. */
  function PushEax(m: Machine): (o: Outcome)
    requires Valid(m)
    ensures Preserves(m, o)
  {
    var m1 := m.(esp := Wrap(m.esp - 4));
    match WriteWord(m1, m1.esp, m.eax)
    case Err(e) => Faulted(e, m1)
    case Ok(m2) => Running(m2.(eip := Wrap(m.eip + 1)))
  }

  /** `pop %reg`. */
  function PopReg(m: Machine, r: Reg): (o: Outcome)
    requires Valid(m)
    ensures Preserves(m, o)
  {
    match Pop(m)
    case Err(e) => Faulted(e, m)
    case Ok((v, m1)) => Running(SetReg(m1, r, v).(eip := Wrap(m.eip + 1)))
  }

  /**
   * `jz`/`jnz`: past the two bytes, then by `sex` of the displacement when `taken`. Only
   * `eip` changes. A displacement with bit 7 set moves back by `disp + 1` bytes, where
   * i386 would move back by `0x100 - disp`.
   */
  function JumpShort(m: Machine, taken: bool, disp: u8): (r: Machine)
    ensures r == m.(eip := r.eip)
    ensures !taken ==> r.eip == Wrap(m.eip + 2)
    ensures taken && disp < 0x80 ==> r.eip == Wrap(m.eip + 2 + disp)
    ensures taken && disp >= 0x80 ==> r.eip == Wrap(m.eip + 2 - (disp + 1))
  {
    var next := Wrap(m.eip + 2);
    m.(eip := if taken then Wrap(next + Sex(disp)) else next)
  }

  /** `sub $imm, %ebp`, flags set from the new `ebp`. */
  function SubImmEbp(m: Machine, imm: u32): Machine {
    var ebp := Wrap(m.ebp - imm);
    SetFlags(m.(ebp := ebp), ebp).(eip := Wrap(m.eip + 6))
  }

  /** `mov %cl, (%eax)`. */
  function StoreCl(m: Machine): (o: Outcome)
    requires Valid(m)
    ensures Preserves(m, o)
  {
    match WriteByte(m, m.eax, m.ecx % 0x100)
    case Err(e) => Faulted(e, m)
    case Ok(m1) => Running(m1.(eip := Wrap(m.eip + 2)))
  }

  /** `mov (%eax), %eax`. */
  function LoadEax(m: Machine): (o: Outcome)
    requires Valid(m)
    ensures Preserves(m, o)
  {
    match ReadWord(m, m.eax)
    case Err(e) => Faulted(e, m)
    case Ok(v) => Running(m.(eax := v, eip := Wrap(m.eip + 2)))
  }

  /** `popl (%eax)`: the pop happens before the store is checked. */
  function PopToEaxAddress(m: Machine): (o: Outcome)
    requires Valid(m)
    ensures Preserves(m, o)
  {
    match Pop(m)
    case Err(e) => Faulted(e, m)
    case Ok((v, m1)) =>
      match WriteWord(m1, m1.eax, v)
      case Err(e) => Faulted(e, m1)
      case Ok(m2) => Running(m2.(eip := Wrap(m.eip + 2)))
  }

  /** `ret`: pop into `eip`. */
  function Ret(m: Machine): (o: Outcome)
    requires Valid(m)
    ensures Preserves(m, o)
  {
    match Pop(m)
    case Err(e) => Faulted(e, m)
    case Ok((v, m1)) => Running(m1.(eip := v))
  }

  /**
   * `call rel32`: push the address of the next instruction, then jump relative to it by
   * the displacement at `eip + 1`. The displacement is read through the fetch window after
   * the push has been stored, so a push that lands on the operand bytes redirects the call.
   */
  function Call(m: Machine): (o: Outcome)
    requires Valid(m) && m.eip + 5 <= |m.ram|
    ensures Preserves(m, o)
  {
    var m1 := m.(eip := Wrap(m.eip + 5), esp := Wrap(m.esp - 4));
    match WriteWord(m1, m1.esp, m1.eip)
    case Err(e) => Faulted(e, m1)
    case Ok(m2) => Running(m2.(eip := Wrap(m1.eip + SexDword(Displacement(m2.ram, m.eip)))))
  }

  /** `u32_in(p + 1)` for the instruction at `at`: the word after its opcode byte. */
  function Displacement(ram: seq<u8>, at: nat): u32
    requires at + 5 <= |ram|
  {
    U32In(ram[at + 1 .. at + 5])
  }

  /**
   * `dec %al` as written: `(eax & 0xFfffFf00) | ((eax & 0xff) - 1)`. The bytes are
   * disjoint, so the OR is a sum, except that a zero low byte wraps to 0xFFFFFFFF, whose
   * OR sets every bit. Flags come from the new low byte.
   */
  function DecAl(m: Machine): Machine {
    var low := m.eax % 0x100;
    var decremented := Wrap(low - 1);
    var eax := if decremented < 0x100 then (m.eax - low) + decremented else 0xFFFF_FFFF;
    SetFlags(m.(eax := eax), eax % 0x100).(eip := Wrap(m.eip + 2))
  }

  /** The 23 instruction forms the decoder accepts, with their operands. */
  datatype Insn =
    | SetGeAl                   // 15 157 192
    | MovzblEaxInsn             // 15 182 0
    | MovsblAlInsn              // 15 190 192
    | SubEaxFromTopInsn         // 41 4 36
    | PushEaxInsn               // 80
    | PopInsn(reg: Reg)         // 88 89 90 91
    | Jz(disp: u8)              // 116 disp
    | Jnz(disp: u8)             // 117 disp
    | SubImmEbpInsn(imm: u32)   // 129 237 imm32
    | TestEax                   // 133 192
    | XchgEbpEsp                // 135 236
    | StoreClInsn               // 136 8
    | MovEspEbp                 // 137 229
    | LoadEaxInsn               // 139 0
    | PopToEaxAddressInsn       // 143 0
    | MovImmEax(imm: u32)       // 184 imm32
    | RetInsn                   // 195
    | Int80                     // 205 128
    | CallInsn(rel: u32)        // 232 rel32
    | DecAlInsn                 // 254 200

  /** The leading bytes the `switch` of `single_step` has a case for. */
  const Opcodes: set<u8> :=
    {15, 41, 80, 88, 89, 90, 91, 116, 117, 129, 133, 135, 136, 137, 139, 143, 184, 195, 205, 232, 254}

  /**
   * The `switch` of `single_step` without its effects: every `req` of a case is checked
   * before that case changes any state, so decoding can be done first. `address` is `eip`,
   * which the diagnostics report. The operand of `call` is the displacement as fetched;
   * `Call` reads it again after its push, as the C does.
   */
  function Decode(p: seq<u8>, address: u32): (r: Result<Insn, Error>)
    requires |p| == 6
    ensures p[0] !in Opcodes <==> r == Err(UnimplementedInstruction(p[0], address))
    ensures p[0] == 15 && p[1] !in {157, 182, 190} <==> r == Err(UnimplementedTwoByte(p[1]))
    ensures r.Err? && p[0] in Opcodes && !(p[0] == 15 && p[1] !in {157, 182, 190}) ==>
              r.error == ReqFailed(p[0], address)
  {
    var op := p[0];
    var bad := Err(ReqFailed(op, address));
    if op == 15 then
      if p[1] == 157 then (if p[2] == 192 then Ok(SetGeAl) else bad)
      else if p[1] == 182 then (if p[2] == 0 then Ok(MovzblEaxInsn) else bad)
      else if p[1] == 190 then (if p[2] == 192 then Ok(MovsblAlInsn) else bad)
      else Err(UnimplementedTwoByte(p[1]))
    else if op == 41 then (if p[1] == 4 && p[2] == 36 then Ok(SubEaxFromTopInsn) else bad)
    else if op == 80 then Ok(PushEaxInsn)
    else if op == 88 then Ok(PopInsn(Eax))
    else if op == 89 then Ok(PopInsn(Ecx))
    else if op == 90 then Ok(PopInsn(Edx))
    else if op == 91 then Ok(PopInsn(Ebx))
    else if op == 116 then Ok(Jz(p[1]))
    else if op == 117 then Ok(Jnz(p[1]))
    else if op == 129 then (if p[1] == 237 then Ok(SubImmEbpInsn(U32In(p[2..]))) else bad)
    else if op == 133 then (if p[1] == 192 then Ok(TestEax) else bad)
    else if op == 135 then (if p[1] == 236 then Ok(XchgEbpEsp) else bad)
    else if op == 136 then (if p[1] == 8 then Ok(StoreClInsn) else bad)
    else if op == 137 then (if p[1] == 229 then Ok(MovEspEbp) else bad)
    else if op == 139 then (if p[1] == 0 then Ok(LoadEaxInsn) else bad)
    else if op == 143 then (if p[1] == 0 then Ok(PopToEaxAddressInsn) else bad)
    else if op == 184 then Ok(MovImmEax(U32In(p[1..])))
    else if op == 195 then Ok(RetInsn)
    else if op == 205 then (if p[1] == 0x80 then Ok(Int80) else bad)
    else if op == 232 then Ok(CallInsn(U32In(p[1..])))
    else if op == 254 then (if p[1] == 200 then Ok(DecAlInsn) else bad)
    else Err(UnimplementedInstruction(op, address))
  }

  /** The effect of one decoded instruction on `m`. */
  function Execute(m: Machine, insn: Insn): (o: Outcome)
    requires Valid(m)
    requires insn.CallInsn? ==> m.eip + 5 <= |m.ram|
    ensures Preserves(m, o)
  {
    match insn
    case SetGeAl => Running(SetGe(m))
    case MovzblEaxInsn => MovzblEax(m)
    case MovsblAlInsn => Running(MovsblAl(m))
    case SubEaxFromTopInsn => SubEaxFromTop(m)
    case PushEaxInsn => PushEax(m)
    case PopInsn(r) => PopReg(m, r)
    case Jz(d) => Running(JumpShort(m, m.zf, d))
    case Jnz(d) => Running(JumpShort(m, !m.zf, d))
    case SubImmEbpInsn(imm) => Running(SubImmEbp(m, imm))
    case TestEax => Running(SetFlags(m, m.eax).(eip := Wrap(m.eip + 2)))
    case XchgEbpEsp => Running(m.(ebp := m.esp, esp := m.ebp, eip := Wrap(m.eip + 2)))
    case StoreClInsn => StoreCl(m)
    case MovEspEbp => Running(m.(ebp := m.esp, eip := Wrap(m.eip + 2)))
    case LoadEaxInsn => LoadEax(m)
    case PopToEaxAddressInsn => PopToEaxAddress(m)
    case MovImmEax(imm) => Running(m.(eax := imm, eip := Wrap(m.eip + 5)))
    case RetInsn => Ret(m)
    case Int80 => Syscall(m.(eip := Wrap(m.eip + 2)))
    case CallInsn(_) => Call(m)
    case DecAlInsn => Running(DecAl(m))
  }

  /** `single_step`: fetch the six-byte window at `eip` through `translate`, decode, execute. */
  function Step(m: Machine): (o: Outcome)
    requires Valid(m)
    ensures Preserves(m, o)
  {
    match ReadBytes(m, m.eip, 6)
    case Err(e) => Faulted(e, m)
    case Ok(p) =>
      match Decode(p, m.eip)
      case Err(e) => Faulted(e, m)
      case Ok(insn) => Execute(m, insn)
  }

  /** Every valid state can step, and stepping keeps it valid. */
  ghost predicate StepsPreserve(step: Machine --> Outcome) {
    forall x :: Valid(x) ==> step.requires(x) && Preserves(x, step(x))
  }

  /** `step` applied to a running outcome at most `fuel` times; any other outcome is final. */
  function Iterate(step: Machine --> Outcome, o: Outcome, fuel: nat): (r: Outcome)
    requires StepsPreserve(step)
    requires o.Running? ==> Valid(o.m)
    ensures o.Running? ==> Preserves(o.m, r)
    ensures !o.Running? ==> r == o
    decreases fuel
  {
    if fuel == 0 || !o.Running? then o else Iterate(step, step(o.m), fuel - 1)
  }

  /** The loop of `main`: at most `fuel` calls of `single_step`, ending at the first outcome
   *  that is not `Running`. */
  function Run(m: Machine, fuel: nat): (o: Outcome)
    requires Valid(m)
    ensures Preserves(m, o)
  {
    Iterate(Step, Running(m), fuel)
  }
}
