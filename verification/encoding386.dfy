/**
 * The instruction table of the emulator read the other way round: the bytes of each
 * instruction form. The decoder accepts a window exactly when it starts with the
 * encoding of some instruction, and then returns that instruction.
 */
module Encoding386 {
  import opened Wrappers
  import opened Words386
  import opened Cpu386

  /** The byte pattern of each form, with its operand bytes. */
  function Encode(insn: Insn): (p: seq<u8>)
    ensures 1 <= |p| <= 6
  {
    match insn
    case SetGeAl => [15, 157, 192]
    case MovzblEaxInsn => [15, 182, 0]
    case MovsblAlInsn => [15, 190, 192]
    case SubEaxFromTopInsn => [41, 4, 36]
    case PushEaxInsn => [80]
    case PopInsn(r) => [match r case Eax => 88 case Ecx => 89 case Edx => 90 case Ebx => 91]
    case Jz(d) => [116, d]
    case Jnz(d) => [117, d]
    case SubImmEbpInsn(imm) => [129, 237] + U32Out(imm)
    case TestEax => [133, 192]
    case XchgEbpEsp => [135, 236]
    case StoreClInsn => [136, 8]
    case MovEspEbp => [137, 229]
    case LoadEaxInsn => [139, 0]
    case PopToEaxAddressInsn => [143, 0]
    case MovImmEax(imm) => [184] + U32Out(imm)
    case RetInsn => [195]
    case Int80 => [205, 128]
    case CallInsn(rel) => [232] + U32Out(rel)
    case DecAlInsn => [254, 200]
  }

  /** Whatever follows the encoding in the window, the decoder recovers the instruction. */
  lemma DecodeEncode(insn: Insn, rest: seq<u8>, address: u32)
    requires |Encode(insn)| + |rest| == 6
    ensures Decode(Encode(insn) + rest, address) == Ok(insn)
  {
    if insn.SubImmEbpInsn? || insn.MovImmEax? || insn.CallInsn? {
      DecodeEncodeOperand(insn, rest, address);
    }
  }

  /** `DecodeEncode` for the three forms with a 32-bit operand. */
  lemma DecodeEncodeOperand(insn: Insn, rest: seq<u8>, address: u32)
    requires insn.SubImmEbpInsn? || insn.MovImmEax? || insn.CallInsn?
    requires |Encode(insn)| + |rest| == 6
    ensures Decode(Encode(insn) + rest, address) == Ok(insn)
  {
    match insn
    case SubImmEbpInsn(imm) =>
      OperandDecodes([129, 237], imm, rest);
    case MovImmEax(imm) =>
      OperandDecodes([184], imm, rest);
    case CallInsn(rel) =>
      OperandDecodes([232], rel, rest);
  }

  /** The four operand bytes after an opcode prefix read back as the operand. */
  lemma OperandDecodes(prefix: seq<u8>, v: u32, rest: seq<u8>)
    ensures (prefix + U32Out(v) + rest)[|prefix|..][..4] == U32Out(v)
  {
    assert (prefix + U32Out(v) + rest)[|prefix|..] == U32Out(v) + rest;
  }

  /** An accepted window starts with the encoding of the instruction it decodes to. */
  lemma EncodeDecode(p: seq<u8>, address: u32)
    requires |p| == 6 && Decode(p, address).Ok?
    ensures Encode(Decode(p, address).value) <= p
  {
    var insn := Decode(p, address).value;
    match insn
    case SubImmEbpInsn(imm) =>
      U32OutOfU32In(p[2..]);
    case MovImmEax(imm) =>
      U32OutOfU32In(p[1..]);
    case CallInsn(rel) =>
      U32OutOfU32In(p[1..]);
    case _ =>
  }

  /** The decoder is an exact-match table: nothing outside it is accepted. */
  lemma DecodeAcceptsExactlyTheTable(p: seq<u8>, address: u32)
    requires |p| == 6
    ensures Decode(p, address).Ok? <==> exists insn :: Encode(insn) <= p
  {
    if Decode(p, address).Ok? {
      EncodeDecode(p, address);
    }
    if insn :| Encode(insn) <= p {
      DecodeEncode(insn, p[|Encode(insn)|..], address);
      assert Encode(insn) + p[|Encode(insn)|..] == p;
    }
  }
}
