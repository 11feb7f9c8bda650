/**
 * The run pass of tinyboot.py (`tbfrun` and the run-time actions): the program text is
 * interpreted byte by byte from the start address, each byte dispatching to the action the
 * compile pass left for it. Standard input and output are byte sequences carried in the
 * state; the endless `while True` loop is bounded by fuel.
 */
module TinybootRun {
  import opened Wrappers
  import opened PyLists
  import opened TinybootCompile
  import W = TinybootWords

  type byte = x: int | 0 <= x < 256

  /**
   * The interpreter's globals while running: `program_counter`, `memory`, `stack`,
   * `rstack`, the unread part of standard input and what has been written so far.
   */
  datatype Vm = Vm(
    pc: nat,
    memory: seq<nat>,
    stack: seq<int>,
    rstack: seq<nat>,
    input: seq<byte>,
    output: seq<byte>)

  /** After a step: still running, stopped by `quit`, or stopped by an exception. */
  datatype Outcome =
    | Running(vm: Vm)
    | Exited(output: seq<byte>)
    | Raised(error: PyError, output: seq<byte>)

  /** The stack with its top `k` entries removed, when it has that many. */
  function Below(vm: Vm, k: nat): seq<int>
    requires |vm.stack| >= k
  {
    vm.stack[..|vm.stack| - k]
  }

  /** The entry `k` places below the top (0 is the top). */
  function Top(vm: Vm, k: nat): int
    requires |vm.stack| > k
  {
    vm.stack[|vm.stack| - 1 - k]
  }

  function PopValue(vm: Vm): (r: Result<(int, Vm), PyError>)
    ensures r.Ok? <==> |vm.stack| > 0
    ensures r.Ok? ==> r.value == (Top(vm, 0), vm.(stack := Below(vm, 1)))
    ensures r.Err? ==> r.error == IndexError
  {
    var (v, rest) :- Pop(vm.stack);
    Ok((v, vm.(stack := rest)))
  }

  function Push(vm: Vm, v: int): Vm {
    vm.(stack := vm.stack + [v])
  }

  /** `chr(memory[a])` succeeds: `a` subscripts memory and the value there is a byte. */
  predicate Printable(memory: seq<nat>, a: int) {
    var i := Subscript(a, |memory|); i.Some? && memory[i.value] < 256
  }

  function At(memory: seq<nat>, a: int): nat
    requires Subscript(a, |memory|).Some?
  {
    memory[Subscript(a, |memory|).value]
  }

  /**
   * The list `[chr(memory[ii]) for ii in range(address, address + count)]`: every
   * subscript must be in range and every value at most 255.
   */
  function MemoryBytes(memory: seq<nat>, address: int, count: int): (r: Result<seq<byte>, PyError>)
    ensures r.Ok? <==> forall a :: address <= a < address + count ==> Printable(memory, a)
    ensures r.Ok? ==> |r.value| == (if count <= 0 then 0 else count)
    ensures r.Ok? ==> forall k :: 0 <= k < |r.value| ==>
      Printable(memory, address + k) && r.value[k] == At(memory, address + k)
    ensures r.Err? ==> r.error in {IndexError, ValueError}
    decreases if count <= 0 then 0 else count
  {
    if count <= 0 then Ok([])
    else if !Printable(memory, address) then
      if Subscript(address, |memory|).None? then Err(IndexError) else Err(ValueError)
    else
      var rest :- MemoryBytes(memory, address + 1, count - 1);
      Ok([At(memory, address) as byte] + rest)
  }

  /** `write_out`: pops the count, then the address, and writes those bytes of memory. */
  function WriteOut(vm: Vm): (r: Result<Vm, PyError>)
    ensures r.Ok? ==> |vm.stack| >= 2
    ensures r.Ok? <==> |vm.stack| >= 2 && MemoryBytes(vm.memory, Top(vm, 1), Top(vm, 0)).Ok?
    ensures r.Ok? ==> r.value == vm.(stack := Below(vm, 2),
                                     output := vm.output + MemoryBytes(vm.memory, Top(vm, 1), Top(vm, 0)).value)
  {
    var (count, vm1) :- PopValue(vm);
    var (address, vm2) :- PopValue(vm1);
    var bytes :- MemoryBytes(vm2.memory, address, count);
    Ok(vm2.(output := vm2.output + bytes))
  }

  /** `read_byte`: pushes the next input byte, or -1 at end of input. */
  function ReadByte(vm: Vm): (r: Vm)
    ensures |vm.input| == 0 ==> r == Push(vm, -1)
    ensures |vm.input| > 0 ==> r == Push(vm, vm.input[0]).(input := vm.input[1..])
  {
    if |vm.input| == 0 then Push(vm, -1)
    else Push(vm, vm.input[0]).(input := vm.input[1..])
  }

  /** `add`: replaces the top two entries with their sum modulo 2^32. */
  function AddTop(vm: Vm): (r: Result<Vm, PyError>)
    ensures r.Ok? <==> |vm.stack| >= 2
    ensures r.Ok? ==> r.value == vm.(stack := Below(vm, 2) + [W.Add(Top(vm, 1), Top(vm, 0))])
    ensures r.Err? ==> r.error == IndexError
  {
    var (b, vm1) :- PopValue(vm);
    var (a, vm2) :- PopValue(vm1);
    Ok(Push(vm2, W.Add(b, a)))
  }

  /** `fetch`: replaces an address with the signed word stored there. */
  function Fetch(vm: Vm): (r: Result<Vm, PyError>)
    ensures r.Ok? <==> |vm.stack| >= 1 && |Slice(vm.memory, Top(vm, 0), Top(vm, 0) + 4)| >= 4
    ensures r.Ok? ==> r.value == vm.(stack := Below(vm, 1) + [W.Decode(Slice(vm.memory, Top(vm, 0), Top(vm, 0) + 4))])
    ensures r.Err? ==> r.error == IndexError
  {
    var (addr, vm1) :- PopValue(vm);
    var window := Slice(vm1.memory, addr, addr + 4);
    if |window| < 4 then Err(IndexError) else Ok(Push(vm1, W.Decode(window)))
  }

  /** `store`: pops the address, then the value, and puts the value's four bytes there. */
  function Store(vm: Vm): (r: Result<Vm, PyError>)
    ensures r.Ok? <==> |vm.stack| >= 2
    ensures r.Ok? ==> r.value == vm.(stack := Below(vm, 2),
      memory := SliceAssign(vm.memory, Top(vm, 0), Top(vm, 0) + 4, W.AsBytes(Top(vm, 1))))
    ensures r.Err? ==> r.error == IndexError
  {
    var (addr, vm1) :- PopValue(vm);
    var (v, vm2) :- PopValue(vm1);
    Ok(vm2.(memory := SliceAssign(vm2.memory, addr, addr + 4, W.AsBytes(v))))
  }

  /** `store_byte`: pops the address, then the value, and stores the value's low byte. */
  function StoreByte(vm: Vm): (r: Result<Vm, PyError>)
    ensures r.Ok? <==> |vm.stack| >= 2 && Subscript(Top(vm, 0), |vm.memory|).Some?
    ensures r.Ok? ==> var i := Subscript(Top(vm, 0), |vm.memory|).value;
      r.value == vm.(stack := Below(vm, 2), memory := vm.memory[i := Top(vm, 1) % 256])
    ensures r.Err? ==> r.error == IndexError
  {
    var (addr, vm1) :- PopValue(vm);
    var (v, vm2) :- PopValue(vm1);
    match Subscript(addr, |vm2.memory|)
    case None => Err(IndexError)
    case Some(i) => Ok(vm2.(memory := vm2.memory[i := v % 256]))
  }

  /** `bitwise_not`: complements the low 32 bits of the top entry. */
  function BitwiseNotTop(vm: Vm): (r: Result<Vm, PyError>)
    ensures r.Ok? <==> |vm.stack| >= 1
    ensures r.Ok? ==> r.value == vm.(stack := Below(vm, 1) + [W.BitwiseNot(Top(vm, 0))])
    ensures r.Err? ==> r.error == IndexError
  {
    var (v, vm1) :- PopValue(vm);
    Ok(Push(vm1, W.BitwiseNot(v)))
  }

  /** `less_than`: pops `b`, then `a`, and pushes 1 if `a < b`, else 0. */
  function LessThan(vm: Vm): (r: Result<Vm, PyError>)
    ensures r.Ok? <==> |vm.stack| >= 2
    ensures r.Ok? ==> r.value == vm.(stack := Below(vm, 2) + [if Top(vm, 1) < Top(vm, 0) then 1 else 0])
    ensures r.Err? ==> r.error == IndexError
  {
    var (b, vm1) :- PopValue(vm);
    var (a, vm2) :- PopValue(vm1);
    Ok(Push(vm2, if a < b then 1 else 0))
  }

  /** `return_from_function`: continues at the most recent return address. */
  function ReturnFromFunction(vm: Vm): (r: Result<Vm, PyError>)
    ensures r.Ok? <==> |vm.rstack| > 0
    ensures r.Ok? ==> r.value == vm.(pc := vm.rstack[|vm.rstack| - 1], rstack := vm.rstack[..|vm.rstack| - 1])
    ensures r.Err? ==> r.error == IndexError
  {
    var (pc, rest) :- Pop(vm.rstack);
    Ok(vm.(pc := pc, rstack := rest))
  }

  /** A function named by `:` pushes the return address and continues at its body. */
  function CallFunction(vm: Vm, body: nat): (r: Vm)
    ensures r == vm.(pc := body, rstack := vm.rstack + [vm.pc])
  {
    vm.(rstack := vm.rstack + [vm.pc], pc := body)
  }

  /** `jump`: continues at the target recorded for the current position. */
  function Jump(jumpTargets: map<nat, nat>, vm: Vm): (r: Result<Vm, PyError>)
    ensures r.Ok? <==> vm.pc in jumpTargets
    ensures r.Ok? ==> r.value == vm.(pc := jumpTargets[vm.pc])
    ensures r.Err? ==> r.error == KeyError
  {
    if vm.pc in jumpTargets then Ok(vm.(pc := jumpTargets[vm.pc])) else Err(KeyError)
  }

  /** `conditional` (`[`): pops a flag and jumps past the matching `]` when it is zero. */
  function Conditional(jumpTargets: map<nat, nat>, vm: Vm): (r: Result<Vm, PyError>)
    ensures |vm.stack| == 0 ==> r == Err(IndexError)
    ensures |vm.stack| > 0 && Top(vm, 0) != 0 ==> r == Ok(vm.(stack := Below(vm, 1)))
    ensures |vm.stack| > 0 && Top(vm, 0) == 0 ==> r == Jump(jumpTargets, vm.(stack := Below(vm, 1)))
  {
    var (flag, vm1) :- PopValue(vm);
    if flag != 0 then Ok(vm1) else Jump(jumpTargets, vm1)
  }

  /** `loop` (`}`): pops a flag and jumps back to the matching `{` unless it is zero. */
  function Loop(jumpTargets: map<nat, nat>, vm: Vm): (r: Result<Vm, PyError>)
    ensures |vm.stack| == 0 ==> r == Err(IndexError)
    ensures |vm.stack| > 0 && Top(vm, 0) == 0 ==> r == Ok(vm.(stack := Below(vm, 1)))
    ensures |vm.stack| > 0 && Top(vm, 0) != 0 ==> r == Jump(jumpTargets, vm.(stack := Below(vm, 1)))
  {
    var (flag, vm1) :- PopValue(vm);
    if flag == 0 then Ok(vm1) else Jump(jumpTargets, vm1)
  }

  /** `push_literal`: rereads the number from the digit at `at` and pushes it. */
  function PushLiteral(program: seq<char>, at: nat, vm: Vm): (r: Result<Vm, PyError>)
    requires at <= |program|
    ensures r.Ok? <==> ReadNumber(program, at).Ok?
    ensures r.Ok? ==> var (n, next) := ReadNumber(program, at).value;
      r.value == Push(vm, n).(pc := next)
  {
    var (n, next) :- ReadNumber(program, at);
    Ok(Push(vm, n).(pc := next))
  }

  /** Every action but `quit`, for the byte at `at`, with `vm.pc` already past it. */
  function Act(program: seq<char>, img: Image, action: Action, at: nat, vm: Vm): (r: Result<Vm, PyError>)
    requires at <= |program| && !action.Quit?
    ensures r.Ok? && !action.WriteOut? ==> r.value.output == vm.output
    ensures r.Ok? && !action.ReadByte? ==> r.value.input == vm.input
  {
    match action
    case Jump => Jump(img.jumpTargets, vm)
    case WriteOut => WriteOut(vm)
    case ReadByte => Ok(ReadByte(vm))
    case Add => AddTop(vm)
    case BitwiseNot => BitwiseNotTop(vm)
    case LessThan => LessThan(vm)
    case Fetch => Fetch(vm)
    case Store => Store(vm)
    case StoreByte => StoreByte(vm)
    case ReturnFromFunction => ReturnFromFunction(vm)
    case Conditional => Conditional(img.jumpTargets, vm)
    case Loop => Loop(img.jumpTargets, vm)
    case Nop => Ok(vm)
    case PushLiteral => PushLiteral(program, at, vm)
    case PushDataspaceLabel(n) => Ok(Push(vm, n))
    case CallFunction(body) => Ok(CallFunction(vm, body))
  }

  /** The action for the byte at `at`, with `vm.pc` already past it. */
  function Perform(program: seq<char>, img: Image, action: Action, at: nat, vm: Vm): (o: Outcome)
    requires at <= |program|
    ensures o.Exited? <==> action == Quit
    ensures !o.Running? ==> o.output == vm.output
    ensures o.Running? ==> vm.output <= o.vm.output
    ensures o.Running? && !action.WriteOut? ==> o.vm.output == vm.output
    ensures o.Running? && !action.ReadByte? ==> o.vm.input == vm.input
  {
    if action == Quit then Exited(vm.output)
    else
      match Act(program, img, action, at, vm)
      case Ok(vm') => Running(vm')
      case Err(e) => Raised(e, vm.output)
  }

  /** One turn of `tbfrun`'s loop: eat a byte and run its action. */
  function Step(program: seq<char>, img: Image, vm: Vm): (o: Outcome)
    ensures vm.pc >= |program| ==> o == Raised(IndexError, vm.output)
    ensures vm.pc < |program| && program[vm.pc] !in img.dispatch ==> o == Raised(KeyError, vm.output)
    ensures !o.Running? ==> o.output == vm.output
    ensures o.Running? ==> vm.output <= o.vm.output
  {
    if vm.pc >= |program| then Raised(IndexError, vm.output)
    else
      var c := program[vm.pc];
      if c !in img.dispatch then Raised(KeyError, vm.output)
      else Perform(program, img, img.dispatch[c], vm.pc, vm.(pc := vm.pc + 1))
  }

  /** At most `fuel` applications of `step` from `o`; a stopped outcome stays as it is. */
  function Iterate(step: Vm -> Outcome, o: Outcome, fuel: nat): (r: Outcome)
    ensures !o.Running? ==> r == o
    decreases fuel
  {
    if fuel == 0 || !o.Running? then o else Iterate(step, step(o.vm), fuel - 1)
  }

  /** `tbfrun`'s loop for at most `fuel` turns. */
  function Run(program: seq<char>, img: Image, o: Outcome, fuel: nat): (r: Outcome)
    ensures !o.Running? ==> r == o
  {
    Iterate(vm => Step(program, img, vm), o, fuel)
  }

  /** The state `tbfrun` starts from: the compiled image at the start address. */
  function Start(img: Image, input: seq<byte>): (r: Result<Vm, PyError>)
    ensures r.Ok? <==> img.start.Some?
    ensures r.Ok? ==> r.value == Vm(img.start.value, img.memory, img.stack, [], input, [])
    ensures r.Err? ==> r.error == AssertionError
  {
    match img.start
    case None => Err(AssertionError)
    case Some(pc) => Ok(Vm(pc, img.memory, img.stack, [], input, []))
  }

  /** `main`: compile, then run for at most `fuel` steps. */
  function CompileAndRun(program: seq<char>, input: seq<byte>, fuel: nat): (o: Outcome)
    ensures Compile(program).Err? ==> o == Raised(Compile(program).error, [])
    ensures Compile(program).Ok? && Compile(program).value.start.None? ==> o == Raised(AssertionError, [])
    ensures Compile(program).Ok? && Compile(program).value.start.Some? ==>
      var img := Compile(program).value;
      o == Run(program, img, Running(Vm(img.start.value, img.memory, img.stack, [], input, [])), fuel)
  {
    match Compile(program)
    case Err(e) => Raised(e, [])
    case Ok(img) =>
      match Start(img, input)
      case Err(e) => Raised(e, [])
      case Ok(vm) => Run(program, img, Running(vm), fuel)
  }
}
