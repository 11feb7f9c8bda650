/** The emulator state (`terp_t` in 386.c) and its one gateway into guest RAM, `translate`. */
module Memory386 {
  import opened Wrappers
  import opened Words386

  /** Addresses below this are the forbidden zero page. */
  const ZeroPageLimit: int := 4096

  /**
   * The interpreter state. `brk` is the end of guest memory, `ram` its contents;
   * `zf`/`sf` are the only flags kept; the two tracing toggles only select diagnostics.
   */
  datatype Machine = Machine(
    brk: u32,
    zf: bool, sf: bool,
    tracingStacks: bool, tracingEip: bool,
    ram: seq<u8>,
    eax: u32, ebx: u32, ecx: u32, edx: u32,
    esp: u32, ebp: u32, eip: u32)

  /** The RAM buffer is exactly `brk` bytes long (it is allocated with `p_memsz` bytes). */
  predicate Valid(m: Machine) {
    |m.ram| == m.brk
  }

  /** Why the emulator calls `die`. */
  datatype Error =
    | OutOfBounds(address: u32, length: u32)
    | ZeroPageAccess(address: u32, length: u32)
    | BadMagic(magic: seq<u8>)
    | NotI386Executable(typeMachine: u32)
    | ReqFailed(opcode: u8, address: u32)
    | UnimplementedTwoByte(second: u8)
    | UnimplementedInstruction(opcode: u8, address: u32)
    | UnimplementedSyscall(eax: u32, ebx: u32, ecx: u32, edx: u32)

  /**
   * `translate`: the offset into `ram` of an access of `length` bytes at `address`.
   * The end of the access is compared without 32-bit wrap-around (see the finding about
   * `TranslateAsWritten`); the limit check comes first, the zero-page check second.
   */
  function Translate(m: Machine, address: u32, length: u32): (r: Result<nat, Error>)
    requires Valid(m)
    ensures r.Ok? <==> ZeroPageLimit <= address && address + length <= |m.ram|
    ensures r.Ok? ==> r.value == address
    ensures r.Err? ==> r.error == if address + length > |m.ram|
                                  then OutOfBounds(address, length)
                                  else ZeroPageAccess(address, length)
  {
    if address > m.brk || address + length > m.brk then
      Err(OutOfBounds(address, length))
    else if address < ZeroPageLimit then
      Err(ZeroPageAccess(address, length))
    else
      Ok(address)
  }

  /** The `length` bytes at `address`, through `Translate`. */
  function ReadBytes(m: Machine, address: u32, length: u32): (r: Result<seq<u8>, Error>)
    requires Valid(m)
    ensures r.Ok? <==> Translate(m, address, length).Ok?
    ensures r.Ok? ==> r.value == m.ram[address .. address + length]
    ensures r.Err? ==> r.error == Translate(m, address, length).error
  {
    var i :- Translate(m, address, length);
    Ok(m.ram[i .. i + length])
  }

  /** `u32_in(translate(terp, address, 4))`. */
  function ReadWord(m: Machine, address: u32): (r: Result<u32, Error>)
    requires Valid(m)
    ensures r.Ok? <==> Translate(m, address, 4).Ok?
    ensures r.Ok? ==> U32Out(r.value) == m.ram[address .. address + 4]
    ensures r.Err? ==> r.error == Translate(m, address, 4).error
  {
    var p :- ReadBytes(m, address, 4);
    U32OutOfU32In(p);
    Ok(U32In(p))
  }

  /** `bytes` written over `ram` from offset `i`; nothing else changes. */
  function Splice(ram: seq<u8>, i: nat, bytes: seq<u8>): (r: seq<u8>)
    requires i + |bytes| <= |ram|
    ensures |r| == |ram|
    ensures r[i .. i + |bytes|] == bytes
    ensures forall k :: 0 <= k < |ram| && !(i <= k < i + |bytes|) ==> r[k] == ram[k]
  {
    ram[..i] + bytes + ram[i + |bytes|..]
  }

  /** `u32_out(translate(terp, address, 4), v)`: only those four bytes of RAM change. */
  function WriteWord(m: Machine, address: u32, v: u32): (r: Result<Machine, Error>)
    requires Valid(m)
    ensures r.Ok? <==> Translate(m, address, 4).Ok?
    ensures r.Ok? ==> Valid(r.value) && r.value == m.(ram := Splice(m.ram, address, U32Out(v)))
    ensures r.Err? ==> r.error == Translate(m, address, 4).error
  {
    var i :- Translate(m, address, 4);
    Ok(m.(ram := Splice(m.ram, i, U32Out(v))))
  }

  /** `*(u8*)translate(terp, address, 1) = b`: only that byte of RAM changes. */
  function WriteByte(m: Machine, address: u32, b: u8): (r: Result<Machine, Error>)
    requires Valid(m)
    ensures r.Ok? <==> Translate(m, address, 1).Ok?
    ensures r.Ok? ==> Valid(r.value) && r.value == m.(ram := m.ram[address := b])
    ensures r.Err? ==> r.error == Translate(m, address, 1).error
  {
    var i :- Translate(m, address, 1);
    Ok(m.(ram := m.ram[i := b]))
  }

  /** A word written through `translate` reads back unchanged at the same address. */
  lemma ReadWordOfWriteWord(m: Machine, address: u32, v: u32)
    requires Valid(m)
    requires WriteWord(m, address, v).Ok?
    ensures ReadWord(WriteWord(m, address, v).value, address) == Ok(v)
  {
    var m' := WriteWord(m, address, v).value;
    assert m'.ram[address .. address + 4] == U32Out(v);
    U32OutOfU32In(m'.ram[address .. address + 4]);
  }
}
