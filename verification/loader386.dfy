/** `load` in 386.c: the initial machine state built from a 32-bit ELF executable image. */
module Loader386 {
  import opened Wrappers
  import opened Words386
  import opened Memory386

  /** "\177ELF". */
  const ElfMagic: seq<u8> := [0x7F, 0x45, 0x4C, 0x46]

  /** `e_type` 2 (executable) and `e_machine` 3 (i386), read as one little-endian word. */
  const I386Executable: u32 := 0x30002

  /** The header word at byte offset `offset` (unchecked in C, hence the callers' requires). */
  function WordAt(elf: seq<u8>, offset: nat): u32
    requires offset + 4 <= |elf|
  {
    U32In(elf[offset..])
  }

  function EntryPoint(elf: seq<u8>): u32 requires |elf| >= 32 { WordAt(elf, 24) }
  function PhOff(elf: seq<u8>): u32 requires |elf| >= 32 { WordAt(elf, 28) }

  /** `e_phoff + k`, computed in `u32` as in C. */
  function PhdrField(elf: seq<u8>, k: nat): u32 requires |elf| >= 32 { Wrap(PhOff(elf) + k) }

  predicate HasMagic(elf: seq<u8>) requires |elf| >= 4 { elf[..4] == ElfMagic }

  predicate IsI386Executable(elf: seq<u8>) requires |elf| >= 20 { WordAt(elf, 16) == I386Executable }

  /**
   * Every header byte `load` reads lies inside the image: the magic; the type/machine
   * word once the magic matched; the entry point, `e_phoff`, `p_vaddr` and `p_memsz`
   * once the type matched. C reads them without checking.
   */
  predicate HeaderInBounds(elf: seq<u8>) {
    && |elf| >= 4
    && (HasMagic(elf) ==> |elf| >= 20)
    && (HasMagic(elf) && IsI386Executable(elf) ==>
          && |elf| >= 32
          && PhdrField(elf, 8) + 4 <= |elf|
          && PhdrField(elf, 20) + 4 <= |elf|)
  }

  /** `p_vaddr` of the first program header. */
  function VAddr(elf: seq<u8>): u32
    requires |elf| >= 32 && PhdrField(elf, 8) + 4 <= |elf|
  {
    WordAt(elf, PhdrField(elf, 8))
  }

  /** `p_memsz` of the first program header. */
  function MemSz(elf: seq<u8>): u32
    requires |elf| >= 32 && PhdrField(elf, 20) + 4 <= |elf|
  {
    WordAt(elf, PhdrField(elf, 20))
  }

  /**
   * How many image bytes are copied to `p_vaddr`: the image length clamped to the room
   * left above `p_vaddr` (none when `p_vaddr` is past the end; see `CopyLengthAsWritten`).
   */
  function CopyLength(length: nat, memsz: u32, vaddr: u32): (n: nat)
    ensures vaddr + n <= memsz || n == 0
    ensures n <= length
    ensures vaddr <= memsz ==> (n == length || vaddr + n == memsz)
  {
    if vaddr > memsz then 0
    else if length > memsz - vaddr then memsz - vaddr
    else length
  }

  /** A zeroed buffer of `memsz` bytes with `elf[..n]` copied to offset `vaddr`. */
  function LoadImage(elf: seq<u8>, memsz: u32, vaddr: u32): (ram: seq<u8>)
    ensures |ram| == memsz
    ensures forall i :: 0 <= i < memsz ==>
              ram[i] == if vaddr <= i < vaddr + CopyLength(|elf|, memsz, vaddr) then elf[i - vaddr] else 0
  {
    var n := CopyLength(|elf|, memsz, vaddr);
    seq(memsz, i requires 0 <= i < memsz => if vaddr <= i < vaddr + n then elf[i - vaddr] else 0)
  }

  /**
   * `load`: dies unless the image starts with the ELF magic and is an i386 executable;
   * otherwise RAM is `p_memsz` bytes holding the image at `p_vaddr`, the stack and frame
   * pointers start at the top of RAM, `eip` at the entry point, and everything else is zero.
   */
  function Load(elf: seq<u8>): (r: Result<Machine, Error>)
    requires HeaderInBounds(elf)
    ensures r.Ok? <==> HasMagic(elf) && IsI386Executable(elf)
    ensures !HasMagic(elf) ==> r == Err(BadMagic(elf[..4]))
    ensures HasMagic(elf) && !IsI386Executable(elf) ==> r == Err(NotI386Executable(WordAt(elf, 16)))
    ensures r.Ok? ==>
      var m := r.value;
      && Valid(m)
      && m.eip == EntryPoint(elf)
      && m.brk == MemSz(elf) && m.esp == m.brk && m.ebp == m.brk
      && m.eax == 0 && m.ebx == 0 && m.ecx == 0 && m.edx == 0
      && !m.zf && !m.sf && !m.tracingStacks && !m.tracingEip
      && m.ram == LoadImage(elf, MemSz(elf), VAddr(elf))
  {
    if !HasMagic(elf) then
      Err(BadMagic(elf[..4]))
    else if !IsI386Executable(elf) then
      Err(NotI386Executable(WordAt(elf, 16)))
    else
      var memsz := MemSz(elf);
      Ok(Machine(
        brk := memsz,
        zf := false, sf := false, tracingStacks := false, tracingEip := false,
        ram := LoadImage(elf, memsz, VAddr(elf)),
        eax := 0, ebx := 0, ecx := 0, edx := 0,
        esp := memsz, ebp := memsz, eip := EntryPoint(elf)))
  }

  /** `ram` holds `image` at `vaddr` and zero everywhere else. */
  predicate ImageAt(ram: seq<u8>, vaddr: nat, image: seq<u8>) {
    && vaddr + |image| <= |ram|
    && ram[vaddr .. vaddr + |image|] == image
    && forall i :: 0 <= i < |ram| && !(vaddr <= i < vaddr + |image|) ==> ram[i] == 0
  }

  /** An image that fits in the buffer above `vaddr` is copied whole; the rest stays zero. */
  lemma ImagePlaced(elf: seq<u8>, memsz: u32, vaddr: u32)
    requires vaddr + |elf| <= memsz
    ensures ImageAt(LoadImage(elf, memsz, vaddr), vaddr, elf)
  {
    var ram := LoadImage(elf, memsz, vaddr);
    assert CopyLength(|elf|, memsz, vaddr) == |elf|;
    forall i | 0 <= i < |elf| ensures ram[vaddr .. vaddr + |elf|][i] == elf[i] {
      assert ram[vaddr + i] == elf[i];
    }
  }

  /** An image that fits above `p_vaddr` is copied whole there; the rest of RAM is zero. */
  lemma LoadPlacesWholeImage(elf: seq<u8>)
    requires HeaderInBounds(elf) && Load(elf).Ok?
    requires VAddr(elf) + |elf| <= MemSz(elf)
    ensures ImageAt(Load(elf).value.ram, VAddr(elf), elf)
  {
    ImagePlaced(elf, MemSz(elf), VAddr(elf));
  }
}
