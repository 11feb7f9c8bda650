/**
 * The compile pass of tinyboot.py (`tbfcompile` and the compile-time actions): one scan of
 * the program text that lays out the data space, records where named functions and
 * data-space labels are, matches brackets and comments into `jump_targets`, and notes the
 * start address. The interpreter's globals are the fields of an `Image`.
 */
module TinybootCompile {
  import opened Wrappers
  import opened PyLists
  import TinybootWords

  /** The run-time actions, including the two kinds the compile pass creates. */
  datatype Action =
    | Jump                          // '('
    | WriteOut                      // 'W'
    | ReadByte                      // 'G'
    | Quit                          // 'Q'
    | Add                           // '+'
    | BitwiseNot                    // '~'
    | LessThan                      // '<'
    | Fetch                         // '@'
    | Store                         // '!'
    | StoreByte                     // 's'
    | ReturnFromFunction            // ';'
    | Conditional                   // '['
    | Loop                          // '}'
    | Nop                           // ']' '{' ' ' '\n'
    | PushLiteral                   // '0' .. '9'
    | PushDataspaceLabel(n: nat)    // defined by 'v'
    | CallFunction(n: nat)          // defined by ':'

  predicate IsDigit(c: char) {
    '0' <= c <= '9'
  }

  /** `run_time_dispatch` before compilation adds to it. */
  const RunTimeDispatch: map<char, Action> :=
    map['(' := Jump, 'W' := WriteOut, 'G' := ReadByte, 'Q' := Quit, '+' := Add,
        '~' := BitwiseNot, '<' := LessThan, '@' := Fetch, '!' := Store, 's' := StoreByte,
        ';' := ReturnFromFunction, '[' := Conditional, ']' := Nop, '{' := Nop, '}' := Loop,
        ' ' := Nop, '\n' := Nop,
        '0' := PushLiteral, '1' := PushLiteral, '2' := PushLiteral, '3' := PushLiteral,
        '4' := PushLiteral, '5' := PushLiteral, '6' := PushLiteral, '7' := PushLiteral,
        '8' := PushLiteral, '9' := PushLiteral]

  /** The keys of `compile_time_dispatch`. */
  const CompileTimeBytes: set<char> := {'(', 'v', ':', 'b', '#', '*', '^', '[', ']', '{', '}', ' ', '\n'}

  /** The characters Python 2's `int()` strips around a number. */
  const PyWhitespace: set<char> := {' ', '\t', '\n', '\r', 11 as char, 12 as char}

  /**
   * The interpreter's globals after compilation: `memory`, the `stack` (shared with the
   * run pass, so unmatched `[` positions are still on it), `jump_targets`,
   * `run_time_dispatch` and `start_address`.
   */
  datatype Image = Image(
    memory: seq<nat>,
    stack: seq<nat>,
    jumpTargets: map<nat, nat>,
    dispatch: map<char, Action>,
    start: Option<nat>)

  const InitialImage: Image := Image([], [], map[], RunTimeDispatch, None)

  /** The value of a run of decimal digits. */
  function DecimalValue(digits: seq<char>): nat
    requires forall i :: 0 <= i < |digits| ==> IsDigit(digits[i])
  {
    if |digits| == 0 then 0
    else 10 * DecimalValue(digits[..|digits| - 1]) + DigitValue(digits[|digits| - 1])
  }

  function DigitValue(c: char): (d: nat)
    requires IsDigit(c)
    ensures d < 10
  {
    (c as int) - ('0' as int)
  }

  /** The first position at or after `p` that does not hold a digit, or the end. */
  function DigitsEnd(program: seq<char>, p: nat): (j: nat)
    requires p <= |program|
    ensures p <= j <= |program|
    ensures forall k :: p <= k < j ==> IsDigit(program[k])
    ensures j < |program| ==> !IsDigit(program[j])
    decreases |program| - p
  {
    if p < |program| && IsDigit(program[p]) then DigitsEnd(program, p + 1) else p
  }

  /**
   * `read_number` from position `p`: eats the digits and the byte after them, then applies
   * `int()` to all of it. That byte must exist and be whitespace, and there must be a digit.
   */
  function ReadNumber(program: seq<char>, p: nat): (r: Result<(nat, nat), PyError>)
    requires p <= |program|
    ensures r.Ok? <==> (var j := DigitsEnd(program, p); j < |program| && j > p && program[j] in PyWhitespace)
    ensures r.Ok? ==> var j := DigitsEnd(program, p);
      r.value == (DecimalValue(program[p..j]), j + 1)
    ensures r.Err? ==> r.error == if DigitsEnd(program, p) == |program| then IndexError else ValueError
  {
    var j := DigitsEnd(program, p);
    if j >= |program| then Err(IndexError)
    else if j == p || program[j] !in PyWhitespace then Err(ValueError)
    else Ok((DecimalValue(program[p..j]), j + 1))
  }

  /**
   * `advance_past_whitespace` from position `p`: the first byte that is neither a space
   * nor a newline. Running off the end raises `IndexError`.
   */
  function SkipSpaces(program: seq<char>, p: nat): (r: Result<nat, PyError>)
    requires p <= |program|
    ensures r.Ok? ==> p <= r.value < |program| && program[r.value] !in {' ', '\n'}
    ensures r.Ok? ==> forall k :: p <= k < r.value ==> program[k] in {' ', '\n'}
    ensures r.Err? <==> forall k :: p <= k < |program| ==> program[k] in {' ', '\n'}
    ensures r.Err? ==> r.error == IndexError
    decreases |program| - p
  {
    if p == |program| then Err(IndexError)
    else if program[p] == ' ' || program[p] == '\n' then SkipSpaces(program, p + 1)
    else Ok(p)
  }

  /** The position of the first `c` at or after `p`. */
  function Find(program: seq<char>, c: char, p: nat): (r: Option<nat>)
    requires p <= |program|
    ensures r.Some? ==> p <= r.value < |program| && program[r.value] == c
    ensures forall k :: p <= k < (if r.Some? then r.value else |program|) ==> program[k] != c
    decreases |program| - p
  {
    if p == |program| then None
    else if program[p] == c then Some(p)
    else Find(program, c, p + 1)
  }

  // Each compile-time action starts at `pc`, the position after its byte, and returns
  // the position after the last byte it consumed.

  /** `eat_comment`: the position after `(` maps to the position after the next `)`. */
  function EatComment(program: seq<char>, pc: nat, img: Image): (r: Result<(nat, Image), PyError>)
    requires pc <= |program|
    ensures r.Ok? <==> Find(program, ')', pc).Some?
    ensures r.Ok? ==> var close := Find(program, ')', pc).value;
      r.value == (close + 1, img.(jumpTargets := img.jumpTargets[pc := close + 1]))
    ensures r.Err? ==> r.error == IndexError
  {
    match Find(program, ')', pc)
    case None => Err(IndexError)
    case Some(close) => Ok((close + 1, img.(jumpTargets := img.jumpTargets[pc := close + 1])))
  }

  /** `dataspace_label`: the next non-blank byte names the current end of data space. */
  function DataspaceLabel(program: seq<char>, pc: nat, img: Image): (r: Result<(nat, Image), PyError>)
    requires pc <= |program|
    ensures r.Ok? <==> SkipSpaces(program, pc).Ok?
    ensures r.Ok? ==> var p := SkipSpaces(program, pc).value;
      && r.value.0 == p + 1
      && r.value.1 == img.(dispatch := img.dispatch[program[p] := PushDataspaceLabel(|img.memory|)])
  {
    var p :- SkipSpaces(program, pc);
    Ok((p + 1, img.(dispatch := img.dispatch[program[p] := PushDataspaceLabel(|img.memory|)])))
  }

  /** `define_function`: the next non-blank byte names a call to the position after it. */
  function DefineFunction(program: seq<char>, pc: nat, img: Image): (r: Result<(nat, Image), PyError>)
    requires pc <= |program|
    ensures r.Ok? <==> SkipSpaces(program, pc).Ok?
    ensures r.Ok? ==> var p := SkipSpaces(program, pc).value;
      && r.value.0 == p + 1
      && r.value.1 == img.(dispatch := img.dispatch[program[p] := CallFunction(p + 1)])
  {
    var p :- SkipSpaces(program, pc);
    Ok((p + 1, img.(dispatch := img.dispatch[program[p] := CallFunction(p + 1)])))
  }

  /** The number after the blanks following `pc`, and the position after its terminator. */
  function NumberOperand(program: seq<char>, pc: nat): (r: Result<(nat, nat), PyError>)
    requires pc <= |program|
    ensures r.Ok? ==> pc < r.value.1 <= |program|
  {
    var p :- SkipSpaces(program, pc);
    ReadNumber(program, p)
  }

  /** `literal_byte`: data space grows by the number, unreduced. */
  function LiteralByte(program: seq<char>, pc: nat, img: Image): (r: Result<(nat, Image), PyError>)
    requires pc <= |program|
    ensures r.Ok? <==> NumberOperand(program, pc).Ok?
    ensures r.Ok? ==> var (n, next) := NumberOperand(program, pc).value;
      r.value == (next, img.(memory := img.memory + [n]))
  {
    var (n, next) :- NumberOperand(program, pc);
    Ok((next, img.(memory := img.memory + [n])))
  }

  /** `literal_word`: data space grows by the four bytes of the number. */
  function LiteralWord(program: seq<char>, pc: nat, img: Image): (r: Result<(nat, Image), PyError>)
    requires pc <= |program|
    ensures r.Ok? <==> NumberOperand(program, pc).Ok?
    ensures r.Ok? ==> var (n, next) := NumberOperand(program, pc).value;
      r.value == (next, img.(memory := img.memory + TinybootWords.AsBytes(n)))
  {
    var (n, next) :- NumberOperand(program, pc);
    Ok((next, img.(memory := img.memory + TinybootWords.AsBytes(n))))
  }

  /** `allocate_space`: data space grows by that many zero bytes. */
  function AllocateSpace(program: seq<char>, pc: nat, img: Image): (r: Result<(nat, Image), PyError>)
    requires pc <= |program|
    ensures r.Ok? <==> NumberOperand(program, pc).Ok?
    ensures r.Ok? ==> var (n, next) := NumberOperand(program, pc).value;
      && r.value.0 == next
      && r.value.1 == img.(memory := r.value.1.memory)
      && |r.value.1.memory| == |img.memory| + n
      && r.value.1.memory[..|img.memory|] == img.memory
      && forall i :: |img.memory| <= i < |r.value.1.memory| ==> r.value.1.memory[i] == 0
  {
    var (n, next) :- NumberOperand(program, pc);
    Ok((next, img.(memory := img.memory + seq(n, _ => 0))))
  }

  /** `end_conditional`: the innermost open bracket's position maps to here. */
  function EndConditional(pc: nat, img: Image): (r: Result<(nat, Image), PyError>)
    ensures r.Ok? <==> |img.stack| > 0
    ensures r.Ok? ==> var top := img.stack[|img.stack| - 1];
      r.value == (pc, img.(stack := img.stack[..|img.stack| - 1], jumpTargets := img.jumpTargets[top := pc]))
    ensures r.Err? ==> r.error == IndexError
  {
    var (top, rest) :- Pop(img.stack);
    Ok((pc, img.(stack := rest, jumpTargets := img.jumpTargets[top := pc])))
  }

  /** `end_loop`: here maps to the innermost open bracket's position. */
  function EndLoop(pc: nat, img: Image): (r: Result<(nat, Image), PyError>)
    ensures r.Ok? <==> |img.stack| > 0
    ensures r.Ok? ==> var top := img.stack[|img.stack| - 1];
      r.value == (pc, img.(stack := img.stack[..|img.stack| - 1], jumpTargets := img.jumpTargets[pc := top]))
    ensures r.Err? ==> r.error == IndexError
  {
    var (top, rest) :- Pop(img.stack);
    Ok((pc, img.(stack := rest, jumpTargets := img.jumpTargets[pc := top])))
  }

  /** `compile_time_dispatch[c]()` with `pc` just past `c`. */
  function CompileTimeAction(program: seq<char>, c: char, pc: nat, img: Image): (r: Result<(nat, Image), PyError>)
    requires pc <= |program| && c in CompileTimeBytes
    ensures r.Ok? ==> pc <= r.value.0 <= |program|
    ensures r.Ok? ==> img.memory <= r.value.1.memory && img.dispatch.Keys <= r.value.1.dispatch.Keys
    ensures r.Err? ==> r.error == IndexError || r.error == ValueError
    ensures r.Ok? && c !in {'(', '[', ']', '{', '}'} ==>
      r.value.1.stack == img.stack && r.value.1.jumpTargets == img.jumpTargets
    ensures r.Ok? && c == '(' ==>
      && Find(program, ')', pc).Some? && r.value.0 == Find(program, ')', pc).value + 1
      && r.value.1.stack == img.stack && r.value.1.jumpTargets == img.jumpTargets[pc := r.value.0]
    ensures r.Ok? && (c == '[' || c == '{') ==>
      r.value.1.stack == img.stack + [pc] && r.value.1.jumpTargets == img.jumpTargets
    ensures r.Ok? && (c == ']' || c == '}') ==>
      && |img.stack| > 0 && r.value.0 == pc
      && var top := img.stack[|img.stack| - 1];
      && r.value.1.stack == img.stack[..|img.stack| - 1]
      && r.value.1.jumpTargets == if c == ']' then img.jumpTargets[top := pc] else img.jumpTargets[pc := top]
  {
    if c == '(' then EatComment(program, pc, img)
    else if c == 'v' then DataspaceLabel(program, pc, img)
    else if c == ':' then DefineFunction(program, pc, img)
    else if c == 'b' then LiteralByte(program, pc, img)
    else if c == '#' then LiteralWord(program, pc, img)
    else if c == '*' then AllocateSpace(program, pc, img)
    else if c == '^' then Ok((pc, img.(start := Some(pc))))
    else if c == '[' || c == '{' then Ok((pc, img.(stack := img.stack + [pc])))
    else if c == ']' then EndConditional(pc, img)
    else if c == '}' then EndLoop(pc, img)
    else Ok((pc, img))
  }

  /**
   * The loop of `tbfcompile` from position `pc`: a compile-time byte runs its action, a
   * byte with a run-time action is passed over, and any other byte fails the assertion.
   * Data space only grows at its end, names are only added or rebound, and a missing name
   * is an assertion failure rather than a `KeyError`.
   */
  function CompileFrom(program: seq<char>, pc: nat, img: Image): (r: Result<Image, PyError>)
    requires pc <= |program|
    ensures r.Ok? ==> img.memory <= r.value.memory && img.dispatch.Keys <= r.value.dispatch.Keys
    ensures r.Err? ==> r.error != KeyError
    ensures r.Err? && r.error == AssertionError ==>
      exists k :: pc <= k < |program| && program[k] !in CompileTimeBytes && program[k] !in img.dispatch
    decreases |program| - pc
  {
    if pc == |program| then Ok(img)
    else
      var c := program[pc];
      if c in CompileTimeBytes then
        match CompileTimeAction(program, c, pc + 1, img)
        case Err(e) => Err(e)
        case Ok((next, img')) => CompileFrom(program, next, img')
      else if c in img.dispatch then CompileFrom(program, pc + 1, img)
      else Err(AssertionError)
  }

  /**
   * `tbfcompile` over the whole program: the compiled data space and names extend the
   * initial ones, and the assertion fails only on a byte with no action of either kind.
   */
  function Compile(program: seq<char>): (r: Result<Image, PyError>)
    ensures r.Ok? ==> RunTimeDispatch.Keys <= r.value.dispatch.Keys
    ensures r.Err? ==> r.error != KeyError
    ensures r.Err? && r.error == AssertionError ==>
      exists k :: 0 <= k < |program| && program[k] !in CompileTimeBytes && program[k] !in RunTimeDispatch
  {
    CompileFrom(program, 0, InitialImage)
  }
}
