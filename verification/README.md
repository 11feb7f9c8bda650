# A model of the 386 emulator, the tinyboot interpreter and the comment stripper

This project models three small programs from the StoneKnifeForth bootstrap in Dafny and
proves properties of them.

- **386.c** is an emulator for the 23 i386 instruction forms that StoneKnifeForth's
  compiler emits. It loads a static ELF executable into a RAM buffer that ends at `brk`.
  Each step fetches 6 bytes at `eip` through `translate`, dispatches on the opcode, and
  `die`s on anything it does not handle. It does the same for an operand outside
  `[4096, brk)`. Three Linux system calls reach the host: 1 (exit), 3 (read) and 4 (write).
  - `Words386`: the `u32` type, `u32_in` and `u32_out`.
  - `Alu386`: `sex`, `sex_dword` and `set_flags`.
  - `Memory386`: `translate` and memory access.
  - `Cpu386`: `pop`, `implement_syscall`, the decoder with its `req` checks, every
    instruction form, `single_step` and the main loop.
  - `Loader386`: `load`.
  - `Cpu386Forms` and `Cpu386Props`: what each form does, and how pairs of forms combine.
  - `Encoding386`: the byte encodings the decoder accepts.
  - `Findings386`: the two places where the C code differs from what it evidently
    intends.
- **tinyboot.py** is the interpreter for the first-stage Forth-like language (tbf1). It has
  two passes.
  - The compile pass (`TinybootCompile`) scans the program once. It lays out the data
    space and defines labels and functions. It matches comments and brackets into
    `jump_targets` and notes the start address.
  - The run pass (`TinybootRun`) dispatches one byte at a time, starting at the start
    address.
  - `PyLists` gives Python's list operations (`pop`, slices, subscripts, with negative
    indices).
  - `TinybootWords` gives the integer behaviour of `as_bytes` (shifts and masks),
    `decode` (`|` of shifted bytes with a sign correction), the 32-bit add and `~`.
  - `TinybootProps` proves round trips and the soundness of the compiled jump table.
- **trim.py** strips comments and extra blanks from a tbf1 program. It is modelled in
  `CommentStripper`, together with its properties.

The emulator's machine state is an immutable `Machine` record. A step yields an
`Outcome`, which is one of:

- `Running` with the next machine;
- `Exited` with the exit code;
- `Faulted` with the `die` reason and the machine as it was when `die` was called;
- `HostIo`, for a read or write that the host performs.

Integers are unbounded. The C code's `u32` wrap-around is written out as `Wrap`. Python
exceptions are values of `PyError`.

Where the emulator's design description and its code disagree, the model follows the code:

- `set_flags` sets `zf` when the value is *non-zero* (`!!v`), not when it is zero.
- `set_flags` sets `sf` when any of bits 28-31 is set, not only bit 31.
- `sex` maps a byte `b >= 0x80` to `0xFFFFFFFF - b`, not to its sign extension.
- `dec %al` with `al == 0` sets all of `eax` to `0xFFFFFFFF`, because the subtraction is
  done in 32 bits. The upper three bytes therefore change.
- The result of system calls 3 and 4 is discarded, not stored in `eax`.
- A taken `jz`/`jnz` with a displacement byte `d >= 0x80` moves back by `d + 1` bytes,
  where i386 moves back by `0x100 - d`, because of `sex`.
- `call` reads its displacement through the fetch pointer *after* storing the return
  address. When the pushed word overlaps the displacement bytes, the call goes where the
  stored return address sends it, not where the fetched instruction said.

## Model

| member | source | states |
|---|---|---|
| Words386.Wrap | 386.c:162 | the `u32` wrap-around of an integer: identity on [0, 2^32), minus 2^32 on [2^32, 2^33), plus 2^32 on [-2^32, 0) |
| Words386.WrapIsModulo | 386.c:162 | wrap-around is reduction modulo 2^32 for every integer |
| Words386.WrapOfSum | 386.c:218 | wrapping an intermediate sum does not change the wrapped total, so repeated `u32` updates such as `esp += 4` compose |
| Words386.Signed | 386.c:228-232 | reading a `u32` as `s32` gives a value in [-2^31, 2^31) that wraps back to the same word |
| Words386.U32In | 386.c:86-90 | `u32_in`; its meaning is stated by `U32InDigits` (little-endian digits) and `U32Out` (it inverts `u32_out`) |
| Words386.U32Out | 386.c:92-99 | `u32_out` writes exactly four bytes, and `u32_in` reads back the same word |
| Words386.U32InDigits | 386.c:86-90 | `u32_in` is little-endian: byte k of the input is digit k of the word in base 256 |
| Words386.U32OutOfU32In | 386.c:86-99 | writing back the word read from four bytes reproduces those bytes |
| Alu386.Sex | 386.c:222-226 | `sex` leaves bytes below 0x80 unchanged and maps the others to a word whose signed value is -(b + 1) |
| Alu386.SexDword | 386.c:228-232 | `sex_dword` is the two's-complement reading of the word, and wraps back to it |
| Alu386.SetFlags | 386.c:234-239 | `set_flags` sets `zf` exactly when the value is non-zero, and `sf` exactly when it is at least 0x10000000; nothing else changes |
| Alu386.SexIsSignExtensionIff | 386.c:222-226 | `sex` agrees with i386 sign extension exactly for bytes below 0x80 |
| Alu386.SetFlagsZeroFlagInverted | 386.c:237 | `zf` is the negation of "the value is zero" |
| Alu386.SetFlagsSignFlagIff | 386.c:238 | `sf` is bit 31 of the value exactly when the value is not in [0x10000000, 0x80000000) |
| Memory386.Translate | 386.c:159-179 | corrected bound, see ## Findings: an access is allowed exactly when it starts at or above 4096 and its end, computed without wrap-around, lies within `brk`; it then maps to the same offset; otherwise the limit fault takes precedence over the zero-page fault |
| Memory386.ReadBytes | 386.c:159-179 | reading bytes succeeds exactly when `translate` does, yields the RAM slice, and otherwise reports `translate`'s fault |
| Memory386.ReadWord | 386.c:86-90 | a word read succeeds exactly when `translate(address, 4)` does, and its bytes are the four RAM bytes at the address |
| Memory386.Splice | 386.c:92-99 | storing bytes at an offset keeps the length, places the bytes there and leaves every other byte unchanged |
| Memory386.WriteWord | 386.c:92-99 | a word write succeeds exactly when `translate(address, 4)` does, and then changes only those four bytes to the little-endian word |
| Memory386.WriteByte | 386.c:358-361 | a byte write succeeds exactly when `translate(address, 1)` does, and then changes only that byte |
| Memory386.ReadWordOfWriteWord | 386.c:86-99 | a word that was written reads back unchanged |
| Cpu386.Pop | 386.c:213-219 | `pop` succeeds exactly when the word at `esp` is in bounds; it yields that word and moves `esp` up 4 with wrap-around, or reports `translate`'s fault |
| Cpu386.Syscall | 386.c:181-194 | call 1 is the only way to exit, and exits with `ebx`; calls 3 and 4 with an in-bounds buffer hand `(ebx, ecx, edx)` to the host; all other cases die without changing the machine |
| Cpu386.CompleteRead | 386.c:188 | the host's data lands in the buffer at `ecx` and no other byte or register changes |
| Cpu386.MovzblEax | 386.c:297-300 | `movzbl (%eax), %eax` keeps RAM size, `brk` and the tracing switches |
| Cpu386.SubEaxFromTop | 386.c:308-315 | `sub %eax, (%esp)` keeps RAM size, `brk` and the tracing switches |
| Cpu386.PushEax | 386.c:316-320 | `push %eax` keeps RAM size, `brk` and the tracing switches |
| Cpu386.PopReg | 386.c:321-332 | `pop` into a register keeps RAM size, `brk` and the tracing switches |
| Cpu386.StoreCl | 386.c:358-361 | `mov %cl, (%eax)` keeps RAM size, `brk` and the tracing switches |
| Cpu386.LoadEax | 386.c:366-369 | `mov (%eax), %eax` keeps RAM size, `brk` and the tracing switches |
| Cpu386.PopToEaxAddress | 386.c:370-375 | `popl (%eax)` keeps RAM size, `brk` and the tracing switches |
| Cpu386.Ret | 386.c:379-380 | `ret` keeps RAM size, `brk` and the tracing switches |
| Cpu386.Call | 386.c:385-396 | `call` keeps RAM size, `brk` and the tracing switches |
| Cpu386.Displacement | 386.c:391 | `u32_in(p + 1)`, the word after the opcode byte, read from the RAM given |
| Cpu386.SetGe | 386.c:292-296 | `setge %al` as written; its effect is stated by `Cpu386Forms.SetGeEffect` |
| Cpu386.MovsblAl | 386.c:301-304 | `movsbl %al, %eax` as written; its effect is stated by `Cpu386Forms.MovsblAlEffect` |
| Cpu386.JumpShort | 386.c:333-338 | only `eip` changes: past the 2 bytes when not taken; when taken, forward by `d` for `d < 0x80` and back by `d + 1` otherwise |
| Cpu386.SubImmEbp | 386.c:339-347 | `sub $imm, %ebp`; its effect is stated by `Cpu386Forms.SubImmEbpEffect` |
| Cpu386.DecAl | 386.c:397-401 | `dec %al` as written; its agreement with i386 is stated by `Cpu386Props.DecAlAgreesWithI386Iff` |
| Cpu386.Decode | 386.c:289-403 | an unknown first byte is rejected as an unimplemented instruction; an unknown byte after 0x0f is rejected as an unimplemented two-byte form; every other rejection is a failed `req` |
| Cpu386.Execute | 386.c:289-404 | every instruction form keeps RAM size, `brk` and the tracing switches |
| Cpu386.Step | 386.c:249-405 | `single_step` keeps RAM size, `brk` and the tracing switches |
| Cpu386.Iterate | 386.c:423-425 | repeated steps keep the invariants of each step, and a final outcome stays final |
| Cpu386.Run | 386.c:423-425 | the main loop keeps RAM size, `brk` and the tracing switches |
| Cpu386Forms.SetGeEffect | 386.c:292-296 | `setge %al` sets the low byte of `eax` to `sf`, keeps its upper bytes and advances `eip` by 3 |
| Cpu386Forms.MovsblAlEffect | 386.c:301-304 | `movsbl %al, %eax` stores `sex` of `al`, which is i386's sign extension exactly when `al < 0x80` |
| Cpu386Forms.MovzblEaxEffect | 386.c:297-300 | `movzbl (%eax), %eax` loads the byte at `eax`, or dies with `translate`'s fault and an unchanged machine |
| Cpu386Forms.LoadEaxEffect | 386.c:366-369 | `mov (%eax), %eax` loads the little-endian word at `eax`, or dies with `translate`'s fault |
| Cpu386Forms.StoreClEffect | 386.c:358-361 | `mov %cl, (%eax)` stores the low byte of `ecx` at `eax` and nothing else, or dies with `translate`'s fault |
| Cpu386Forms.StoreClThenMovzbl | 386.c:297-300 | a byte stored with `mov %cl, (%eax)` is loaded back by `movzbl (%eax), %eax` |
| Cpu386Forms.SubEaxFromTopEffect | 386.c:308-315 | `sub %eax, (%esp)` replaces the top word with the difference modulo 2^32 and sets the flags from it, so `zf` is set exactly when the two words differed; or it dies with `translate`'s fault |
| Cpu386Forms.SubEaxFromTopResult | 386.c:308-315 | the same outcome, stated for the instruction function |
| Cpu386Forms.SubEaxFromTopStored | 386.c:310-314 | once the top word has been read, the difference is stored there and the flags are set from it |
| Cpu386Forms.SubEaxFromTopWrites | 386.c:310-314 | the difference's bytes replace the top word, and `set_flags` sees the difference |
| Cpu386Forms.DifferenceZeroIff | 386.c:312-313 | two words differ exactly when their difference modulo 2^32 is non-zero |
| Cpu386Forms.SubImmEbpEffect | 386.c:339-347 | `sub $imm, %ebp` decreases `ebp` by `imm` modulo 2^32 and sets the flags from it, so `zf` is set exactly when `ebp` was not `imm` |
| Cpu386Forms.XchgTwice | 386.c:352-357 | two `xchg %ebp, %esp` in a row restore both registers and only advance `eip` |
| Cpu386Forms.PopToEaxAddressEffect | 386.c:370-375 | `popl (%eax)` copies the top four stack bytes to `eax` and pops; a bad stack address dies unchanged; a bad destination dies with `esp` already moved |
| Cpu386Forms.PopToEaxAddressResult | 386.c:370-375 | the same three outcomes, stated for the instruction function |
| Cpu386Forms.PopToEaxAddressThenLoad | 386.c:366-375 | after `popl (%eax)`, `mov (%eax), %eax` loads the popped word |
| Cpu386Props.StepDecoded | 386.c:286-289 | when the 6 bytes at `eip` are in bounds and decode, a step executes the decoded instruction |
| Cpu386Props.FetchFault | 386.c:286 | a fetch outside RAM or in the zero page dies with that fault before any decoding |
| Cpu386Props.DecodeFault | 386.c:289-307 | a decoder rejection dies with an unchanged machine |
| Cpu386Props.UnknownOpcodeFault | 386.c:402-403 | a first byte outside the 23-form table dies as an unimplemented instruction at `eip` |
| Cpu386Props.MovImmExecuted | 386.c:376-378 | opcode 184 decodes with its little-endian operand and loads it into `eax`, advancing `eip` by 5 |
| Cpu386Props.MovImmEffect | 386.c:376-378 | one step at opcode 184 loads the operand into `eax` and changes nothing else |
| Cpu386Props.PushEaxResult | 386.c:316-320 | `push %eax` stores `eax` just below `esp` and lowers `esp` by 4 |
| Cpu386Props.PushEaxExecuted | 386.c:316-320 | opcode 80 decodes as `push %eax` and has that effect |
| Cpu386Props.PushEaxEffect | 386.c:316-320 | one step at opcode 80 pushes `eax` |
| Cpu386Props.PopResult | 386.c:213-219 | an in-bounds `pop` yields the little-endian word at `esp` and moves `esp` up 4 |
| Cpu386Props.PopRegResult | 386.c:321-332 | `pop` into a register sets that register to the top word and moves `esp` up 4 |
| Cpu386Props.PopEaxExecuted | 386.c:321-332 | opcode 88 decodes as `pop %eax` and has that effect |
| Cpu386Props.PopEaxEffect | 386.c:321-332 | one step at opcode 88 pops into `eax` |
| Cpu386Props.PushedThenPopped | 386.c:316-332 | after `push %eax`, the next instruction `pop %eax` is fetchable and restores `esp` and `eax` |
| Cpu386Props.PushThenPopFirst | 386.c:316-332 | the first step of `push %eax; pop %eax` leads to a machine whose pop restores `esp` and `eax` |
| Cpu386Props.PushPopRoundTrip | 386.c:316-332 | `push %eax; pop %eax` leaves every register as it was, except `eip` (+2) and the pushed stack word |
| Cpu386Props.WrapOfSignedSum | 386.c:391 | adding `sex_dword(rel)` to `eip` modulo 2^32 is the same as adding `rel` |
| Cpu386Props.CallPushes | 386.c:387-390 | `call` stores the return address `eip + 5` just below `esp` |
| Cpu386Props.CallResult | 386.c:385-396 | `call` pushes the return address and jumps to `eip + 5` plus the displacement read after the push, modulo 2^32 |
| Cpu386Props.CallDecoded | 386.c:385-391 | opcode 232 decodes as `call` with the little-endian operand fetched at `eip + 1` |
| Cpu386Props.CallExecuted | 386.c:385-396 | the decoded `call` is executed as `Call`, which reads its displacement again |
| Cpu386Props.CallEffect | 386.c:385-396 | one step at opcode 232 pushes the return address and jumps by the displacement found at `eip + 1` after the push |
| Cpu386Props.CallStores | 386.c:387-391 | `call` stores the return address and adds `sex_dword` of the displacement read after the store to `eip + 5` |
| Cpu386Props.CallPushedRam | 386.c:390 | after the push, RAM has its length and holds the return address in the word below `esp` |
| Cpu386Props.CallTargetAsFetched | 386.c:385-396 | when the pushed word misses the displacement bytes, `call` jumps by the displacement as fetched, as on i386 |
| Cpu386Props.DisplacementKept | 386.c:390-391 | a push that misses the displacement bytes leaves the displacement as it was |
| Cpu386Props.CallOverwritesDisplacement | 386.c:385-396 | `e8 00 00 00 00` with `esp` just past it jumps to twice the return address modulo 2^32, not to the next instruction |
| Cpu386Props.PushOverDisplacement | 386.c:390-391 | when the return address is stored over the displacement, the displacement read back is the return address |
| Cpu386Props.RetResult | 386.c:379-380 | `ret` pops the return address into `eip` |
| Cpu386Props.RetExecuted | 386.c:379-380 | opcode 195 decodes as `ret` and has that effect |
| Cpu386Props.RetEffect | 386.c:379-380 | one step at opcode 195 returns |
| Cpu386Props.CalledThenReturned | 386.c:379-396 | after a call to a `ret`, that `ret` restores `esp` and resumes just after the call |
| Cpu386Props.CallThenRetFirst | 386.c:379-396 | the first step of a call to a `ret` leads to a machine whose return resumes after the call |
| Cpu386Props.CallThenRet | 386.c:379-396 | a call to a `ret` comes back after two steps, with `esp` restored and only the stack word below it changed |
| Cpu386Props.TestEaxExecuted | 386.c:348-351 | `85 c0` decodes as `test %eax, %eax` and sets the flags from `eax` |
| Cpu386Props.TestEaxEffect | 386.c:348-351 | one step of `test %eax, %eax` sets `zf` exactly when `eax` is non-zero |
| Cpu386Props.JumpExecuted | 386.c:333-338 | `jz` jumps when `zf` is set and `jnz` when it is clear, by `sex` of the displacement after the 2-byte instruction |
| Cpu386Props.JumpEffect | 386.c:333-338 | one step of `jz`/`jnz` takes or skips the short jump |
| Cpu386Props.JumpAfterTest | 386.c:333-351 | after `test %eax, %eax`, `jz` is taken exactly when `eax` is non-zero and `jnz` exactly when it is zero |
| Cpu386Props.TestThenJumpFirst | 386.c:333-351 | the first step of a test followed by a jump leads to that branch decision |
| Cpu386Props.TestThenJz | 386.c:333-351 | `test %eax, %eax; jz` branches exactly when `eax` is non-zero, because `zf` is inverted |
| Cpu386Props.TestThenJnz | 386.c:333-351 | `test %eax, %eax; jnz` branches exactly when `eax` is zero |
| Cpu386Props.Int80Executed | 386.c:381-384 | `cd 80` advances `eip` by 2 and then performs the system call |
| Cpu386Props.ExitSyscall | 386.c:186 | `int $0x80` with `eax == 1` exits with `ebx`, and the main loop stops there |
| Cpu386Props.WriteSyscall | 386.c:189 | `int $0x80` with `eax == 4` and an in-bounds buffer asks the host to write `edx` bytes at `ecx` to `ebx` |
| Cpu386Props.DecAlAgreesWithI386Iff | 386.c:397-401 | `dec %al` agrees with the i386 byte decrement exactly when `al` is non-zero or the upper bytes of `eax` are all ones |
| Cpu386Props.IterateAdditive | 386.c:423-425 | running a steps and then b steps is the same as running a + b steps |
| Cpu386Props.RunAdditive | 386.c:423-425 | the main loop can be split at any step count |
| Encoding386.Encode | 386.c:252-277 | every instruction form is encoded in 1 to 6 bytes |
| Encoding386.DecodeEncode | 386.c:289-403 | the decoder recovers any instruction from its encoding, whatever bytes follow |
| Encoding386.DecodeEncodeOperand | 386.c:339-391 | the forms with a 4-byte operand decode to themselves |
| Encoding386.EncodeDecode | 386.c:289-403 | a decoded instruction's encoding is a prefix of the fetched bytes |
| Encoding386.DecodeAcceptsExactlyTheTable | 386.c:252-277 | the decoder accepts 6 bytes exactly when they start with the encoding of one of the 23 forms |
| Loader386.CopyLength | 386.c:144 | corrected clamp, see ## Findings: the number of image bytes copied never exceeds the image or runs past `p_memsz`; below the limit it is the whole image |
| Loader386.EntryPoint | 386.c:135 | `e_entry`, the word at offset 24 |
| Loader386.PhdrField | 386.c:137-138 | `e_phoff + k` with `u32` wrap-around, the offset of a program-header field |
| Loader386.VAddr | 386.c:137 | `p_vaddr`, the word at `e_phoff + 8` |
| Loader386.MemSz | 386.c:138 | `p_memsz`, the word at `e_phoff + 20` |
| Loader386.LoadImage | 386.c:141-145 | RAM is `p_memsz` bytes; it holds the image at `p_vaddr` for the copied length and zero everywhere else |
| Loader386.Load | 386.c:106-154 | loading succeeds exactly when the magic and the i386-executable word match; the fault reports the offending value; a loaded machine starts at the entry point, with `esp = ebp = brk = p_memsz`, other registers and flags zero, and RAM from `LoadImage` |
| Loader386.ImagePlaced | 386.c:141-145 | an image that fits above `p_vaddr` is copied whole, and the rest of RAM is zero |
| Loader386.LoadPlacesWholeImage | 386.c:106-154 | a successfully loaded image that fits lies intact at `p_vaddr` in RAM |
| Findings386.TranslateAsWrittenAgreesWithoutWrap | 386.c:162 | when `address + length` does not overflow 32 bits, the C bounds check accepts exactly what the corrected check accepts |
| Findings386.TranslateWrapCounterexample | 386.c:162 | address 0x1000 with length 0xFFFFF000 passes the C check against `brk` 0x2000 although it ends far beyond it |
| Findings386.CopyLengthAsWritten | 386.c:144 | the clamp as written never copies more than the image |
| Findings386.CopyLengthAsWrittenAgrees | 386.c:144 | when `p_vaddr <= p_memsz`, the clamp as written equals the corrected clamp |
| Findings386.CopyLengthWrapCounterexample | 386.c:144 | with `p_vaddr` above `p_memsz`, the clamp as written copies the whole image past the end of RAM, where the corrected clamp copies nothing |
| PyLists.Pop | tinyboot.py:108 | `list.pop()` succeeds exactly on a non-empty list, removing its last element; an empty list raises IndexError |
| PyLists.SliceBound | tinyboot.py:171 | a slice bound is clamped to [0, n], with a negative bound counted from the end |
| PyLists.Slice | tinyboot.py:171 | `s[lo:hi]` is the elements between the clamped bounds, or empty when they cross |
| PyLists.SliceAssign | tinyboot.py:175 | `s[lo:hi] = vals` keeps the prefix and the suffix and puts `vals` between them, so the length can change |
| PyLists.Subscript | tinyboot.py:179 | an index is valid exactly in [-n, n), and a negative index counts from the end |
| PyLists.SliceOfSliceAssign | tinyboot.py:171-175 | a slice assigned within the list reads back as the assigned values |
| PyLists.SliceAssignInside | tinyboot.py:175 | an assignment of the same width inside the list keeps the length and every other element |
| TinybootWords.Pow2 | tinyboot.py:78-80 | a power of two is positive |
| TinybootWords.BitOrOfDisjoint | tinyboot.py:163-164 | `|` of a number below 2^k and a multiple of 2^k is their sum |
| TinybootWords.AsBytes | tinyboot.py:78-80 | `as_bytes` shifts and masks the number into four values, each below 256 |
| TinybootWords.AsBytesValue | tinyboot.py:78-80 | the four bytes are the number modulo 2^32, little-endian |
| TinybootWords.DecodeOfBytes | tinyboot.py:163-167 | `decode` ORs four bytes into a little-endian word (the OR of disjoint bits being a sum) and subtracts 2^32 from values above 2^31 - 1 |
| TinybootWords.Decode | tinyboot.py:163-167 | `decode`; its meaning is stated by `DecodeOfBytes` and `DecodeAsBytes` |
| TinybootWords.DecodeAsBytes | tinyboot.py:78-80 | `decode` of `as_bytes` gives back any number in the `int32` range |
| TinybootWords.Add | tinyboot.py:155-156 | `add` yields a value in [0, 2^32) that is congruent to the sum modulo 2^32 |
| TinybootWords.BitwiseNot | tinyboot.py:181-182 | `~x` complements the low 32 bits and keeps the higher part |
| TinybootWords.BitwiseNotInvolution | tinyboot.py:181-182 | complementing twice gives back the number |
| TinybootWords.BitwiseNotOfWord | tinyboot.py:181-182 | on a 32-bit word, `~x` is 2^32 - 1 - x |
| TinybootCompile.DigitValue | tinyboot.py:69-72 | a digit's value is below 10 |
| TinybootCompile.DigitsEnd | tinyboot.py:69-72 | the end of a run of digits: everything before it is a digit and the byte at it is not |
| TinybootCompile.ReadNumber | tinyboot.py:69-72 | `read_number` succeeds exactly when a non-empty run of digits ends in Python whitespace; it yields their decimal value and the position after the terminator; otherwise it raises IndexError at the end of the program and ValueError elsewhere |
| TinybootCompile.SkipSpaces | tinyboot.py:45-46 | `advance_past_whitespace` stops at the first byte that is neither a space nor a newline, or raises IndexError when only blanks remain |
| TinybootCompile.Find | tinyboot.py:40-43 | the `eat_byte` loop of `eat_comment` stops at the first `c` at or after `p`; `Find` gives that position, or none when the loop would run off the program |
| TinybootCompile.EatComment | tinyboot.py:40-43 | a comment succeeds exactly when a `)` follows; it maps the position after `(` to the position after `)` in `jump_targets` and resumes there |
| TinybootCompile.DataspaceLabel | tinyboot.py:48-55 | `v` binds the next non-blank byte to pushing the current data-space size |
| TinybootCompile.DefineFunction | tinyboot.py:57-67 | `:` binds the next non-blank byte to calling the code that follows it |
| TinybootCompile.NumberOperand | tinyboot.py:69-72 | a number operand, when read, lies strictly after the current position |
| TinybootCompile.LiteralByte | tinyboot.py:74-76 | `b` appends the number, unreduced, to the data space |
| TinybootCompile.LiteralWord | tinyboot.py:82-85 | `#` appends the four packed bytes of the number to the data space |
| TinybootCompile.AllocateSpace | tinyboot.py:87-89 | `*` appends that many zero bytes and keeps everything already in the data space |
| TinybootCompile.EndConditional | tinyboot.py:107-108 | `]` pops the innermost open bracket and maps it to here; with none open it raises IndexError |
| TinybootCompile.EndLoop | tinyboot.py:112-113 | `}` pops the innermost open bracket and maps here to it; with none open it raises IndexError |
| TinybootCompile.CompileTimeAction | tinyboot.py:115-126 | the compile-time actions only move forward; data space only grows at its end and names are only added or rebound; only brackets and comments touch the stack and `jump_targets`, each in its own way; failures are IndexError or ValueError |
| TinybootCompile.CompileFrom | tinyboot.py:128-138 | the compile loop only grows data space at its end and never drops a name; it never raises KeyError, and it fails its assertion only when some byte ahead has neither a compile-time nor a run-time action |
| TinybootCompile.Compile | tinyboot.py:128-138 | every run-time action of `run_time_dispatch` survives compilation; compilation never raises KeyError, and fails its assertion only on a byte with no action of either kind |
| TinybootRun.PopValue | tinyboot.py:158-161 | popping the data stack yields its top, or raises IndexError |
| TinybootRun.MemoryBytes | tinyboot.py:144-150 | `write_out` can print exactly when every address in the range subscripts memory and holds a byte value; it then yields those bytes; otherwise it raises IndexError or ValueError |
| TinybootRun.WriteOut | tinyboot.py:144-150 | `W` pops a count and an address and appends those memory bytes to the output |
| TinybootRun.ReadByte | tinyboot.py:196-201 | `G` pushes the next input byte and consumes it, or pushes -1 at end of input |
| TinybootRun.AddTop | tinyboot.py:155-156 | `+` replaces the top two values by their 32-bit sum, or raises IndexError |
| TinybootRun.Fetch | tinyboot.py:169-171 | `@` replaces an address by the signed word at it; it raises IndexError when fewer than four bytes lie there |
| TinybootRun.Store | tinyboot.py:173-175 | `!` pops an address and a value and slice-assigns the value's four packed bytes at that address |
| TinybootRun.StoreByte | tinyboot.py:177-179 | `s` pops an address and a value and stores the value modulo 256 there; a bad index raises IndexError |
| TinybootRun.BitwiseNotTop | tinyboot.py:181-182 | `~` complements the top value |
| TinybootRun.LessThan | tinyboot.py:184-190 | `<` replaces the top two values by 1 when the lower is less than the upper, and by 0 otherwise |
| TinybootRun.ReturnFromFunction | tinyboot.py:192-194 | `;` resumes at the top of the return stack and pops it, or raises IndexError |
| TinybootRun.CallFunction | tinyboot.py:57-62 | calling a function saves the return position and jumps to the body |
| TinybootRun.Jump | tinyboot.py:203-205 | `jump` succeeds exactly when the position has a jump target and moves there; otherwise it raises KeyError |
| TinybootRun.Conditional | tinyboot.py:207-209 | `[` pops a flag and falls through when it is non-zero, or jumps when it is zero |
| TinybootRun.Loop | tinyboot.py:211-213 | `}` pops a flag and falls through when it is zero, or jumps back when it is non-zero |
| TinybootRun.PushLiteral | tinyboot.py:158-161 | a digit pushes the number that starts there and resumes after its terminator |
| TinybootRun.Act | tinyboot.py:216-234 | only `W` changes the output, and only `G` consumes input |
| TinybootRun.Perform | tinyboot.py:216-234 | only `Q` ends the run with an exit; the output only grows |
| TinybootRun.Step | tinyboot.py:241-242 | a step past the end of the program raises IndexError; a byte without a run-time action raises KeyError; the output only grows |
| TinybootRun.Iterate | tinyboot.py:241-242 | a final outcome stays final |
| TinybootRun.Run | tinyboot.py:237-242 | a final outcome stays final |
| TinybootRun.Start | tinyboot.py:237-240 | the run starts at the start address with the compiled memory and stack and empty output; without a start address it fails the assertion |
| TinybootRun.CompileAndRun | tinyboot.py:244-249 | a compile error or a missing start address is reported before any output; otherwise the program runs from the compiled image |
| TinybootProps.StoreThenFetch | tinyboot.py:169-175 | a word stored with `!` is fetched back with `@` |
| TinybootProps.StoreInsideMemory | tinyboot.py:173-175 | a store inside memory keeps the length, places the packed bytes and leaves other bytes alone |
| TinybootProps.StoreByteThenWriteOut | tinyboot.py:144-150 | a byte stored with `s` is printed by `W` with a count of 1 |
| TinybootProps.BitwiseNotTwice | tinyboot.py:181-182 | `~ ~` leaves the machine unchanged |
| TinybootProps.AddIsWordSum | tinyboot.py:155-156 | `+` yields a 32-bit word, equal to the sum when that fits |
| TinybootProps.CallThenReturn | tinyboot.py:57-62 | calling a function whose body is `;` comes back just after the call |
| TinybootProps.EatCommentSound | tinyboot.py:40-43 | a comment keeps every jump target inside the program and consistent with the bracket bytes |
| TinybootProps.EndConditionalSound | tinyboot.py:107-108 | closing a conditional keeps the jump table sound |
| TinybootProps.EndLoopSound | tinyboot.py:112-113 | closing a loop keeps the jump table sound |
| TinybootProps.CompileTimeActionSound | tinyboot.py:115-126 | every compile-time action keeps the jump table sound |
| TinybootProps.CompileFromSound | tinyboot.py:128-138 | the compile loop keeps the jump table sound to the end of the program |
| TinybootProps.CompileSound | tinyboot.py:128-138 | after compilation, every jump target is a position inside the program that its bracket or comment byte allows |
| TinybootProps.OpenNested | tinyboot.py:104-105 | opening a bracket keeps the brackets nested |
| TinybootProps.OtherTargetNested | tinyboot.py:40-43 | a comment's entry keeps the brackets nested |
| TinybootProps.CloseNested | tinyboot.py:107-113 | closing a bracket keeps the brackets nested |
| TinybootProps.CompileTimeActionNested | tinyboot.py:115-126 | every compile-time action keeps the brackets nested |
| TinybootProps.CompileFromNested | tinyboot.py:128-138 | the compile loop keeps the brackets nested |
| TinybootProps.CompileNested | tinyboot.py:128-138 | after compilation the bracket pairs in `jump_targets` do not cross |
| TinybootProps.CommentJump | tinyboot.py:203-205 | at run time a comment is skipped to just past its `)`, or raises KeyError when compilation did not record it |
| TinybootProps.ConditionalJump | tinyboot.py:207-209 | a false `[` jumps forward to just past a `]`; a true one falls through |
| TinybootProps.LoopJump | tinyboot.py:211-213 | a true `}` jumps back to just past a `[` or `{`; a false one falls through |
| TinybootProps.DecimalDigits | tinyboot.py:69-72 | a number's decimal form is a non-empty run of digits |
| TinybootProps.DecimalValueOfDigits | tinyboot.py:69-72 | the value of a number's decimal form is the number |
| TinybootProps.ReadNumberOfDecimal | tinyboot.py:69-72 | `read_number` reads back any number written in decimal and terminated by whitespace |
| TinybootProps.PushLiteralOfDecimal | tinyboot.py:158-161 | a decimal literal in the program pushes its value |
| TinybootProps.IterateOutputGrows | tinyboot.py:241-242 | any number of steps only appends to the output |
| TinybootProps.RunOutputGrows | tinyboot.py:237-242 | a run only appends to the output |
| TinybootProps.IterateAdditive | tinyboot.py:241-242 | a steps and then b steps are a + b steps |
| TinybootProps.RunAdditive | tinyboot.py:237-242 | a run can be split at any step count |
| CommentStripper.Pending | trim.py:21-23 | the separator before a written byte is a newline exactly when a newline is pending after the first line, a space exactly when only a blank is pending, and empty exactly when a newline is pending before anything was written or nothing is pending |
| CommentStripper.Scan | trim.py:8-26 | every input byte writes at most two output bytes |
| CommentStripper.Trim | trim.py:5-27 | the output is the scan of the whole input followed by exactly one newline; every parenthesis in it follows a quote, so no comment survives; it starts with a newline only when it is a lone newline; with `-i`, two blanks are adjacent only right after a quote |
| CommentStripper.NewlineAppended | trim.py:27 | the final newline keeps quoted parentheses and single blanks, and cannot start a non-empty output |
| CommentStripper.ScanSingleBlanksWhen | trim.py:14-26 | with `-i`, the scan of the whole input has single blanks |
| CommentStripper.CommentBody | trim.py:11-13 | inside a comment nothing is written up to the closing `)` |
| CommentStripper.CommentToEnd | trim.py:11-13 | an unclosed comment swallows the rest of the input |
| CommentStripper.CommentSkipped | trim.py:11-12 | a `(` drops everything up to and including the next `)`, or everything when there is none |
| CommentStripper.ScanParensQuoted | trim.py:11-25 | the scan writes a parenthesis only right after a quote |
| CommentStripper.ScanWrites | trim.py:19-26 | a byte that is written comes after the pending separator, together with the byte after a quote |
| CommentStripper.WrittenParensQuoted | trim.py:19-26 | writing one byte keeps parentheses quoted |
| CommentStripper.ScanFirstNotNewline | trim.py:21-22 | nothing is written as a newline before the first line's first byte |
| CommentStripper.SingleBlanksJoin | trim.py:19-26 | joining two outputs without adjacent blanks, where the first does not end in an unquoted blank, keeps blanks single |
| CommentStripper.ScanSingleBlanks | trim.py:14-26 | with `-i`, runs of spaces and newlines are written as a single separator |
| CommentStripper.WrittenSingleBlanks | trim.py:19-26 | with `-i`, writing one byte keeps blanks single |
| CommentStripper.EmittedSingleBlanks | trim.py:21-25 | the separator, a byte and its quoted companion contain no two blanks in a row |
| CommentStripper.TrailingBlanksDropped | trim.py:14-18 | with `-i`, blanks at the end of the input write nothing |
| CommentStripper.LeadingSpacesKept | trim.py:17-20 | without `-i`, spaces at the start of a line are written as they are |
| CommentStripper.ScanLooksAhead | trim.py:8-26 | the scan never looks back at a byte before its position |
| CommentStripper.QuoteCopiesNext | trim.py:25 | the byte after a quote is copied whatever it is |

## Left out

- The `main` functions are left out: opening and reading the ELF file, `malloc` failure,
  the `stdin`/`stdout` plumbing of tinyboot.py and trim.py, and the usage message. The
  loader takes the file's bytes, and the run passes take their input as a byte sequence.
  Output is collected as a sequence.
- `trace`, `regdump` and the tracing output are left out. The tracing switches are fields
  that the model carries and never changes. `main` turns `tracing_eip` on after loading.
- trace.py is not part of this model.
- The host side of system calls 3 and 4 is left out. A step that reaches one yields
  `HostIo`; `Cpu386.CompleteRead` places the bytes of a completed read. Short reads,
  `-errno` results and write failures are the host's business, and the C code discards
  the result.
- Memory386.Translate: `Step`, `Syscall` and every memory access use this corrected bound
  (see ## Findings). An access whose end wraps past 2^32, such as system call 3 with
  `ecx` = 0x1000 and `edx` = 0xFFFFF000 against `brk` = 0x2000, faults here, while
  386.c:162 and 386.c:188-189 would let it through.
- Loader386.CopyLength: `Load` uses this corrected clamp (see ## Findings). When `p_vaddr`
  exceeds `p_memsz` it copies nothing, while 386.c:144-145 would copy past the end of RAM.
- Loader386.Load: requires `HeaderInBounds`. C reads the ELF header and the program header
  without checking the file size, so a truncated file is undefined behaviour there.
- Cpu386.Run, Cpu386.Iterate, TinybootRun.Run, TinybootRun.Iterate and
  TinybootRun.CompileAndRun take a `fuel` step bound. The source loops until the program
  exits or dies, so a run that outlasts the fuel is reported as still `Running`.
- Cpu386.MovzblEax, SubEaxFromTop, PushEax, PopReg, StoreCl, LoadEax, PopToEaxAddress, Ret
  and Call: each function only states the machine invariant. Their full effect is stated
  by the `Cpu386Forms` and `Cpu386Props` lemmas.
- Cpu386Props.PushEaxResult, CallResult and the lemmas built on them: these require
  `esp >= 4` and an in-bounds stack word, so they cover the non-faulting push only. The
  faulting case is the `Translate` error, shown for other forms in `Cpu386Forms`.
- TinybootProps.ConditionalJump and LoopJump: these show that the jump lands just after a
  bracket of the right kind. They do not show that it is the matching bracket;
  `CompileNested` states the nesting separately.
- CommentStripper.TrailingBlanksDropped: stated for `-i` only. Without `-i`, blanks
  at the start of a line are written.
- CommentStripper.Trim: the single-blanks clause carries the exception for a blank copied
  after a quote, because trim.py copies that byte unexamined.
- Trim idempotence (a second pass changing nothing) is not stated or proved.
- tinyboot.py's Python 2 integers are unbounded `int`s. `chr` of a value outside [0, 255]
  raises ValueError, as in Python 2.

## Findings

| source | as written | input that shows it | evidently intended | confidence | as-written member | corrected member |
|---|---|---|---|---|---|---|
| 386.c:162 | `address + length > brk` is computed in `u32` and wraps around | `brk` = 0x2000, `address` = 0x1000, `length` = 0xFFFFF000: the sum wraps to 0, so the access passes | reject any access whose end `address + length` lies beyond `brk` | not executed | Findings386.TranslateWrapCounterexample | Memory386.Translate |
| 386.c:144 | `p_memsz - p_vaddr` is computed in `u32` and wraps when `p_vaddr > p_memsz` | `p_memsz` = 0x1000, `p_vaddr` = 0x2000, 16-byte file: the clamp allows all 16 bytes, to be copied to offset 0x2000 of a 0x1000-byte buffer | copy nothing beyond the end of RAM | not executed | Findings386.CopyLengthWrapCounterexample | Loader386.CopyLength |
