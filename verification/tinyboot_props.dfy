/** Properties of tinyboot's run-time actions and of the two passes together. */
module TinybootProps {
  import opened Wrappers
  import opened PyLists
  import C = TinybootCompile
  import opened TinybootRun
  import W = TinybootWords

  /**
   * `store` then `fetch` at the same address gives back any signed 32-bit value, for
   * every address from 0 up to the end of memory (a store that runs past the end grows
   * memory first).
   */
  lemma StoreThenFetch(vm: Vm)
    requires |vm.stack| >= 2
    requires 0 <= Top(vm, 0) <= |vm.memory|
    requires -0x8000_0000 <= Top(vm, 1) < 0x8000_0000
    ensures var stored := Store(vm).value;
      Fetch(Push(stored, Top(vm, 0))) == Ok(stored.(stack := Below(vm, 2) + [Top(vm, 1)]))
  {
    var addr, v := Top(vm, 0), Top(vm, 1);
    var stored := Store(vm).value;
    SliceOfSliceAssign(vm.memory, addr, W.AsBytes(v));
    assert Slice(stored.memory, addr, addr + 4) == W.AsBytes(v);
    W.DecodeAsBytes(v);
  }

  /** A `store` inside memory changes exactly the four bytes at the address. */
  lemma StoreInsideMemory(vm: Vm)
    requires |vm.stack| >= 2
    requires 0 <= Top(vm, 0) && Top(vm, 0) + 4 <= |vm.memory|
    ensures var m := Store(vm).value.memory;
      && |m| == |vm.memory|
      && m[Top(vm, 0) .. Top(vm, 0) + 4] == W.AsBytes(Top(vm, 1))
      && forall i :: 0 <= i < |m| && !(Top(vm, 0) <= i < Top(vm, 0) + 4) ==> m[i] == vm.memory[i]
  {
    var addr := Top(vm, 0);
    SliceAssignInside(vm.memory, addr, W.AsBytes(Top(vm, 1)));
    SliceOfSliceAssign(vm.memory, addr, W.AsBytes(Top(vm, 1)));
  }

  /** After `store_byte`, writing out that one byte prints the value's low byte. */
  lemma StoreByteThenWriteOut(vm: Vm)
    requires |vm.stack| >= 2 && Subscript(Top(vm, 0), |vm.memory|).Some?
    ensures var stored := StoreByte(vm).value;
      WriteOut(Push(Push(stored, Top(vm, 0)), 1))
        == Ok(stored.(output := vm.output + [Top(vm, 1) % 256]))
  {
    var addr := Top(vm, 0);
    var stored := StoreByte(vm).value;
    var pushed := Push(Push(stored, addr), 1);
    assert Top(pushed, 0) == 1 && Top(pushed, 1) == addr && Below(pushed, 2) == stored.stack;
    assert Printable(stored.memory, addr);
    var bytes := MemoryBytes(stored.memory, addr, 1);
    assert bytes.Ok?;
    assert bytes.value == [Top(vm, 1) % 256];
  }

  /** `~ ~` leaves the stack as it was. */
  lemma BitwiseNotTwice(vm: Vm)
    requires |vm.stack| >= 1
    ensures BitwiseNotTop(BitwiseNotTop(vm).value) == Ok(vm)
  {
    var once := BitwiseNotTop(vm).value;
    W.BitwiseNotInvolution(Top(vm, 0));
    assert Below(once, 1) + [Top(vm, 0)] == vm.stack;
  }

  /** `add` wraps: the sum is the mathematical one reduced into [0, 2^32). */
  lemma AddIsWordSum(vm: Vm)
    requires |vm.stack| >= 2
    ensures var s := AddTop(vm).value.stack;
      && |s| == |vm.stack| - 1
      && 0 <= s[|s| - 1] < W.WordModulus
      && (Top(vm, 0) + Top(vm, 1) >= 0 && Top(vm, 0) + Top(vm, 1) < W.WordModulus ==>
            s[|s| - 1] == Top(vm, 0) + Top(vm, 1))
  {
    var a, b := Top(vm, 1), Top(vm, 0);
    var r := W.Add(a, b);
    if 0 <= a + b < W.WordModulus {
      W.DivModUnique(r - (a + b), W.WordModulus, (r - (a + b)) / W.WordModulus, 0);
      assert r == a + b;
    }
  }

  /** A call followed, at the function body, by `;` comes back just after the call. */
  lemma CallThenReturn(program: seq<char>, img: C.Image, vm: Vm, name: char, body: nat)
    requires vm.pc < |program| && program[vm.pc] == name
    requires name in img.dispatch && img.dispatch[name] == C.CallFunction(body)
    requires body < |program| && program[body] == ';'
    requires ';' in img.dispatch && img.dispatch[';'] == C.ReturnFromFunction
    ensures Step(program, img, vm) == Running(vm.(pc := body, rstack := vm.rstack + [vm.pc + 1]))
    ensures Step(program, img, Step(program, img, vm).vm) == Running(vm.(pc := vm.pc + 1))
  {
    var called := vm.(pc := body, rstack := vm.rstack + [vm.pc + 1]);
    assert Step(program, img, vm) == Running(called);
    assert ReturnFromFunction(called.(pc := body + 1)) == Ok(vm.(pc := vm.pc + 1));
  }

  /**
   * What a recorded jump target says about the program text: after a `(` it is the
   * position after the next `)`; after a `[` or `{` it is a later position just after a
   * `]`; after a `}` it is an earlier position just after a `[` or `{`.
   */
  predicate TargetFits(program: seq<char>, k: nat, t: nat)
    requires 1 <= k <= |program| && 1 <= t <= |program|
  {
    var c := program[k - 1];
    if c == '(' then C.Find(program, ')', k) == Some(t - 1)
    else if c == '[' || c == '{' then k < t && program[t - 1] == ']'
    else if c == '}' then t <= k && program[t - 1] in {'[', '{'}
    else false
  }

  /**
   * The compile pass's bookkeeping up to position `pc`: every open bracket on the stack is
   * a position just after a `[` or `{` already scanned, and every jump target fits.
   */
  predicate Sound(program: seq<char>, pc: nat, img: C.Image) {
    && pc <= |program|
    && (forall k :: k in img.stack ==> 1 <= k <= pc && program[k - 1] in {'[', '{'})
    && (forall k :: k in img.jumpTargets ==>
          1 <= k <= pc && 1 <= img.jumpTargets[k] <= pc && TargetFits(program, k, img.jumpTargets[k]))
  }

  lemma EatCommentSound(program: seq<char>, pc: nat, img: C.Image)
    requires pc < |program| && program[pc] == '(' && Sound(program, pc, img)
    ensures var r := C.EatComment(program, pc + 1, img); r.Ok? ==> Sound(program, r.value.0, r.value.1)
  {
    var r := C.EatComment(program, pc + 1, img);
    if r.Ok? {
      var close := C.Find(program, ')', pc + 1).value;
      assert TargetFits(program, pc + 1, close + 1);
    }
  }

  lemma EndConditionalSound(program: seq<char>, pc: nat, img: C.Image)
    requires pc < |program| && program[pc] == ']' && Sound(program, pc, img)
    ensures var r := C.EndConditional(pc + 1, img); r.Ok? ==> Sound(program, r.value.0, r.value.1)
  {
    var r := C.EndConditional(pc + 1, img);
    if r.Ok? {
      var top := img.stack[|img.stack| - 1];
      assert top in img.stack;
      forall k | k in r.value.1.stack ensures 1 <= k <= pc + 1 && program[k - 1] in {'[', '{'} {
        assert k in img.stack;
      }
      assert TargetFits(program, top, pc + 1);
    }
  }

  lemma EndLoopSound(program: seq<char>, pc: nat, img: C.Image)
    requires pc < |program| && program[pc] == '}' && Sound(program, pc, img)
    ensures var r := C.EndLoop(pc + 1, img); r.Ok? ==> Sound(program, r.value.0, r.value.1)
  {
    var r := C.EndLoop(pc + 1, img);
    if r.Ok? {
      var top := img.stack[|img.stack| - 1];
      assert top in img.stack;
      forall k | k in r.value.1.stack ensures 1 <= k <= pc + 1 && program[k - 1] in {'[', '{'} {
        assert k in img.stack;
      }
      assert TargetFits(program, pc + 1, top);
    }
  }

  /** Scanning a position with a compile-time byte keeps the bookkeeping sound. */
  lemma CompileTimeActionSound(program: seq<char>, pc: nat, img: C.Image)
    requires pc < |program| && program[pc] in C.CompileTimeBytes
    requires Sound(program, pc, img)
    ensures var r := C.CompileTimeAction(program, program[pc], pc + 1, img);
      r.Ok? ==> Sound(program, r.value.0, r.value.1)
  {
    var c := program[pc];
    if c == '(' {
      EatCommentSound(program, pc, img);
    } else if c == ']' {
      EndConditionalSound(program, pc, img);
    } else if c == '}' {
      EndLoopSound(program, pc, img);
    } else if c == '[' || c == '{' {
      assert forall k :: k in img.stack + [pc + 1] ==> k in img.stack || k == pc + 1;
    } else {
      var r := C.CompileTimeAction(program, c, pc + 1, img);
      if r.Ok? {
        SoundLater(program, pc, r.value.0, img, r.value.1);
      }
    }
  }

  /** Scanning on without touching the stack or the jump targets keeps them sound. */
  lemma SoundLater(program: seq<char>, pc: nat, next: nat, img: C.Image, img': C.Image)
    requires Sound(program, pc, img) && pc <= next <= |program|
    requires img'.stack == img.stack && img'.jumpTargets == img.jumpTargets
    ensures Sound(program, next, img')
  {
  }

  /** The rest of the compile pass keeps the bookkeeping sound. */
  lemma {:induction false} CompileFromSound(program: seq<char>, pc: nat, img: C.Image)
    requires Sound(program, pc, img)
    ensures C.CompileFrom(program, pc, img).Ok? ==> Sound(program, |program|, C.CompileFrom(program, pc, img).value)
    decreases |program| - pc
  {
    if pc < |program| {
      var c := program[pc];
      if c in C.CompileTimeBytes {
        CompileTimeActionSound(program, pc, img);
        var r := C.CompileTimeAction(program, c, pc + 1, img);
        if r.Ok? {
          CompileFromSound(program, r.value.0, r.value.1);
        }
      } else if c in img.dispatch {
        CompileFromSound(program, pc + 1, img);
      }
    }
  }

  /** Every jump target a successful compilation records fits the program text. */
  lemma CompileSound(program: seq<char>)
    requires C.Compile(program).Ok?
    ensures Sound(program, |program|, C.Compile(program).value)
  {
    CompileFromSound(program, 0, C.InitialImage);
  }

  /**
   * `o` (just after a `[` or `{`) and `c` (just after a `]` or `}`) are a pair the compile
   * pass matched: recorded forward from the opener, or backward from a `}`.
   */
  predicate Pair(program: seq<char>, jumpTargets: map<nat, nat>, o: nat, c: nat) {
    && 1 <= o <= |program| && 1 <= c <= |program|
    && ((o in jumpTargets && program[o - 1] in {'[', '{'} && jumpTargets[o] == c)
        || (c in jumpTargets && program[c - 1] == '}' && jumpTargets[c] == o))
  }

  /**
   * Brackets nest: the open ones on the stack are in scanning order and none is a jump
   * target key, no two pairs cross, and no open bracket lies inside a pair.
   */
  ghost predicate Nested(program: seq<char>, img: C.Image) {
    && (forall i, j :: 0 <= i < j < |img.stack| ==> img.stack[i] < img.stack[j])
    && (forall s :: s in img.stack ==> s !in img.jumpTargets)
    && (forall o1: nat, c1: nat, o2: nat, c2: nat ::
          Pair(program, img.jumpTargets, o1, c1) && Pair(program, img.jumpTargets, o2, c2) ==>
          !(o1 < o2 < c1 < c2))
    && (forall o: nat, c: nat, s :: Pair(program, img.jumpTargets, o, c) && s in img.stack ==> !(o <= s < c))
  }

  /** A `[` or `{` opens a bracket after every other: it nests. */
  lemma OpenNested(program: seq<char>, pc: nat, img: C.Image)
    requires pc < |program| && program[pc] in {'[', '{'}
    requires Sound(program, pc, img) && Nested(program, img)
    ensures Nested(program, img.(stack := img.stack + [pc + 1]))
  {
    var img' := img.(stack := img.stack + [pc + 1]);
    forall i, j | 0 <= i < j < |img'.stack| ensures img'.stack[i] < img'.stack[j] {
      if j == |img.stack| {
        assert img.stack[i] in img.stack;
      }
    }
    forall o: nat, c: nat, s | Pair(program, img.jumpTargets, o, c) && s in img'.stack ensures !(o <= s < c) {
      if s !in img.stack {
        assert s == pc + 1;
        assert c <= pc by {
          if o in img.jumpTargets && program[o - 1] in {'[', '{'} && img.jumpTargets[o] == c {
          } else {
            assert c in img.jumpTargets;
          }
        }
      }
    }
  }

  /** A scan that adds a jump target after some other byte leaves the pairs as they were. */
  lemma OtherTargetNested(program: seq<char>, pc: nat, t: nat, img: C.Image)
    requires pc < |program| && program[pc] !in {'[', '{', '}'}
    requires Sound(program, pc, img) && Nested(program, img)
    ensures Nested(program, img.(jumpTargets := img.jumpTargets[pc + 1 := t]))
  {
    var jt := img.jumpTargets[pc + 1 := t];
    assert forall o: nat, c: nat :: Pair(program, jt, o, c) ==> Pair(program, img.jumpTargets, o, c);
    assert forall k :: k in img.stack ==> k != pc + 1;
  }

  /** Closing the innermost open bracket (`]` or `}`) keeps brackets nested. */
  lemma CloseNested(program: seq<char>, pc: nat, img: C.Image, img': C.Image)
    requires pc < |program| && program[pc] in {']', '}'} && |img.stack| > 0
    requires Sound(program, pc, img) && Nested(program, img)
    requires var top := img.stack[|img.stack| - 1];
      && img'.stack == img.stack[..|img.stack| - 1]
      && img'.jumpTargets == (if program[pc] == ']' then img.jumpTargets[top := pc + 1]
                              else img.jumpTargets[pc + 1 := top])
    ensures Nested(program, img')
  {
    var top := img.stack[|img.stack| - 1];
    assert top in img.stack;
    var jt, jt' := img.jumpTargets, img'.jumpTargets;
    assert top <= pc && program[top - 1] in {'[', '{'};
    assert pc + 1 !in jt;
    forall k | k in img'.stack ensures k < top && k !in jt' && k in img.stack {
      var i :| 0 <= i < |img'.stack| && img'.stack[i] == k;
      assert img.stack[i] == k;
    }
    assert Pair(program, jt', top, pc + 1);
    // A pair after the step is the new one or one from before.
    forall o: nat, c: nat | Pair(program, jt', o, c) ensures (o == top && c == pc + 1) || Pair(program, jt, o, c) {
    }
    // Every old pair closed at or before `pc` and does not enclose `top`.
    forall o: nat, c: nat | Pair(program, jt, o, c) ensures c <= pc && !(o <= top < c) {
      if !(o in jt && program[o - 1] in {'[', '{'} && jt[o] == c) {
        assert c in jt;
      }
    }
    forall o: nat, c: nat, k | Pair(program, jt', o, c) && k in img'.stack ensures !(o <= k < c) {
    }
  }

  /** Scanning a position with a compile-time byte keeps brackets nested. */
  lemma CompileTimeActionNested(program: seq<char>, pc: nat, img: C.Image)
    requires pc < |program| && program[pc] in C.CompileTimeBytes
    requires Sound(program, pc, img) && Nested(program, img)
    ensures var r := C.CompileTimeAction(program, program[pc], pc + 1, img);
      r.Ok? ==> Nested(program, r.value.1)
  {
    var c := program[pc];
    var r := C.CompileTimeAction(program, c, pc + 1, img);
    if r.Ok? {
      if c == '(' {
        var close := C.Find(program, ')', pc + 1).value;
        assert r.value.1 == img.(jumpTargets := img.jumpTargets[pc + 1 := close + 1]);
        OtherTargetNested(program, pc, close + 1, img);
      } else if c == '[' || c == '{' {
        OpenNested(program, pc, img);
      } else if c == ']' || c == '}' {
        CloseNested(program, pc, img, r.value.1);
      }
    }
  }

  /** The rest of the compile pass keeps brackets nested. */
  lemma {:induction false} CompileFromNested(program: seq<char>, pc: nat, img: C.Image)
    requires Sound(program, pc, img) && Nested(program, img)
    ensures C.CompileFrom(program, pc, img).Ok? ==> Nested(program, C.CompileFrom(program, pc, img).value)
    decreases |program| - pc
  {
    if pc < |program| {
      var c := program[pc];
      if c in C.CompileTimeBytes {
        CompileTimeActionSound(program, pc, img);
        CompileTimeActionNested(program, pc, img);
        var r := C.CompileTimeAction(program, c, pc + 1, img);
        if r.Ok? {
          CompileFromNested(program, r.value.0, r.value.1);
        }
      } else if c in img.dispatch {
        CompileFromNested(program, pc + 1, img);
      }
    }
  }

  /**
   * Brackets are matched innermost first: in a compiled program no two matched pairs
   * cross and no bracket left open lies inside a matched pair.
   */
  lemma CompileNested(program: seq<char>)
    requires C.Compile(program).Ok?
    ensures Nested(program, C.Compile(program).value)
  {
    CompileFromNested(program, 0, C.InitialImage);
  }

  /** At run time `(` skips the comment: it continues just after the next `)`. */
  lemma CommentJump(program: seq<char>, vm: Vm)
    requires C.Compile(program).Ok?
    requires var img := C.Compile(program).value;
      vm.pc < |program| && program[vm.pc] == '(' && '(' in img.dispatch && img.dispatch['('] == C.Jump
    ensures var img := C.Compile(program).value;
      var close := C.Find(program, ')', vm.pc + 1);
      && (vm.pc + 1 in img.jumpTargets ==>
            close.Some? && Step(program, img, vm) == Running(vm.(pc := close.value + 1)))
      && (vm.pc + 1 !in img.jumpTargets ==> Step(program, img, vm) == Raised(KeyError, vm.output))
  {
    CompileSound(program);
    SoundCommentJump(program, C.Compile(program).value, vm);
  }

  lemma SoundCommentJump(program: seq<char>, img: C.Image, vm: Vm)
    requires Sound(program, |program|, img)
    requires vm.pc < |program| && program[vm.pc] == '(' && '(' in img.dispatch && img.dispatch['('] == C.Jump
    ensures var close := C.Find(program, ')', vm.pc + 1);
      && (vm.pc + 1 in img.jumpTargets ==>
            close.Some? && Step(program, img, vm) == Running(vm.(pc := close.value + 1)))
      && (vm.pc + 1 !in img.jumpTargets ==> Step(program, img, vm) == Raised(KeyError, vm.output))
  {
    var vm1 := vm.(pc := vm.pc + 1);
    assert Step(program, img, vm) == Perform(program, img, C.Jump, vm.pc, vm1);
    assert Act(program, img, C.Jump, vm.pc, vm1) == Jump(img.jumpTargets, vm1);
  }

  /** At run time `[` falls through on a true flag and otherwise continues after a `]`. */
  lemma ConditionalJump(program: seq<char>, vm: Vm)
    requires C.Compile(program).Ok?
    requires var img := C.Compile(program).value;
      vm.pc < |program| && program[vm.pc] == '[' && '[' in img.dispatch && img.dispatch['['] == C.Conditional
    requires |vm.stack| > 0
    ensures var img := C.Compile(program).value;
      var o := Step(program, img, vm);
      && (Top(vm, 0) != 0 ==> o == Running(vm.(pc := vm.pc + 1, stack := Below(vm, 1))))
      && (Top(vm, 0) == 0 && vm.pc + 1 in img.jumpTargets ==>
            && o.Running? && o.vm == vm.(pc := o.vm.pc, stack := Below(vm, 1))
            && vm.pc + 1 < o.vm.pc <= |program| && program[o.vm.pc - 1] == ']')
  {
    CompileSound(program);
  }

  /** At run time `}` falls through on zero and otherwise continues after a `[` or `{`. */
  lemma LoopJump(program: seq<char>, vm: Vm)
    requires C.Compile(program).Ok?
    requires var img := C.Compile(program).value;
      vm.pc < |program| && program[vm.pc] == '}' && '}' in img.dispatch && img.dispatch['}'] == C.Loop
    requires |vm.stack| > 0
    ensures var img := C.Compile(program).value;
      var o := Step(program, img, vm);
      && (Top(vm, 0) == 0 ==> o == Running(vm.(pc := vm.pc + 1, stack := Below(vm, 1))))
      && (Top(vm, 0) != 0 && vm.pc + 1 in img.jumpTargets ==>
            && o.Running? && o.vm == vm.(pc := o.vm.pc, stack := Below(vm, 1))
            && 1 <= o.vm.pc <= vm.pc + 1 && program[o.vm.pc - 1] in {'[', '{'})
  {
    CompileSound(program);
  }

  /** The decimal text of `n`, with no leading zeros. */
  function DecimalDigits(n: nat): (d: seq<char>)
    ensures |d| >= 1 && forall i :: 0 <= i < |d| ==> C.IsDigit(d[i])
  {
    var last := ('0' as int + n % 10) as char;
    if n < 10 then [last] else DecimalDigits(n / 10) + [last]
  }

  lemma {:induction false} DecimalValueOfDigits(n: nat)
    ensures C.DecimalValue(DecimalDigits(n)) == n
  {
    var d := DecimalDigits(n);
    if n >= 10 {
      DecimalValueOfDigits(n / 10);
      assert d[..|d| - 1] == DecimalDigits(n / 10);
    }
  }

  /**
   * `read_number` reads back a number written in decimal and followed by whitespace,
   * and leaves the position after that whitespace byte.
   */
  lemma ReadNumberOfDecimal(prefix: seq<char>, n: nat, terminator: char, rest: seq<char>)
    requires terminator in C.PyWhitespace
    ensures var program := prefix + DecimalDigits(n) + [terminator] + rest;
      C.ReadNumber(program, |prefix|) == Ok((n, |prefix| + |DecimalDigits(n)| + 1))
  {
    var d := DecimalDigits(n);
    var program := prefix + d + [terminator] + rest;
    var end := |prefix| + |d|;
    var j := C.DigitsEnd(program, |prefix|);
    forall k | |prefix| <= k < end ensures C.IsDigit(program[k]) {
      assert program[k] == d[k - |prefix|];
    }
    assert program[end] == terminator;
    assert !C.IsDigit(program[end]);
    assert j == end;
    assert program[|prefix| .. j] == d;
    DecimalValueOfDigits(n);
  }

  /** A literal in the code pushes its value and continues after the whitespace ending it. */
  lemma PushLiteralOfDecimal(prefix: seq<char>, n: nat, terminator: char, rest: seq<char>, img: C.Image, vm: Vm)
    requires terminator in C.PyWhitespace
    requires var program := prefix + DecimalDigits(n) + [terminator] + rest;
      var first := program[|prefix|];
      vm.pc == |prefix| && first in img.dispatch && img.dispatch[first] == C.PushLiteral
    ensures var program := prefix + DecimalDigits(n) + [terminator] + rest;
      Step(program, img, vm) == Running(Push(vm, n).(pc := |prefix| + |DecimalDigits(n)| + 1))
  {
    ReadNumberOfDecimal(prefix, n, terminator, rest);
  }

  /** The output so far: nothing a step does takes back what was written. */
  function OutputOf(o: Outcome): seq<byte> {
    if o.Running? then o.vm.output else o.output
  }

  /** Any number of steps only ever appends to the output. */
  lemma {:induction false} IterateOutputGrows(step: Vm -> Outcome, o: Outcome, fuel: nat)
    requires forall vm: Vm :: vm.output <= OutputOf(step(vm))
    ensures OutputOf(o) <= OutputOf(Iterate(step, o, fuel))
    decreases fuel
  {
    if fuel > 0 && o.Running? {
      IterateOutputGrows(step, step(o.vm), fuel - 1);
    }
  }

  /** Whatever a run writes stays written: the output only ever grows. */
  lemma RunOutputGrows(program: seq<char>, img: C.Image, o: Outcome, fuel: nat)
    ensures OutputOf(o) <= OutputOf(Run(program, img, o, fuel))
  {
    IterateOutputGrows(vm => Step(program, img, vm), o, fuel);
  }

  lemma {:induction false} IterateAdditive(step: Vm -> Outcome, o: Outcome, a: nat, b: nat)
    ensures Iterate(step, Iterate(step, o, a), b) == Iterate(step, o, a + b)
    decreases a
  {
    if a > 0 && o.Running? {
      IterateAdditive(step, step(o.vm), a - 1, b);
    }
  }

  /** Running `a` turns and then `b` more is running `a + b` turns. */
  lemma RunAdditive(program: seq<char>, img: C.Image, o: Outcome, a: nat, b: nat)
    ensures Run(program, img, Run(program, img, o, a), b) == Run(program, img, o, a + b)
  {
    IterateAdditive(vm => Step(program, img, vm), o, a, b);
  }
}
