/** The transition function opcode by opcode, for a step function given as a value: each law says
    what one instruction does without unfolding the whole machine. */
module Transitions {
  import opened Text
  import opened Bytecode
  import opened Avm
  import Words

  ghost predicate Fetches(vm: Vm, c: Core, ins: Instruction) {
    Genuine(vm) && 0 <= c.ic < |vm.p| && vm.p[c.ic] == ins && Valid(ins)
  }

  /** The stack without its `k` topmost operands. */
  function Below(c: Core, k: nat): seq<int>
    requires k <= |c.stack|
  {
    c.stack[..|c.stack| - k]
  }

  lemma TooFew(vm: Vm, c: Core, ins: Instruction)
    requires Fetches(vm, c, ins) && |c.stack| < Arity(ins.op)
    ensures vm.step(c) == Halt(EmptyStack)
  {
    assert vm.step(c) == CoreStep(vm.p, vm.cx, c, vm.limit);
  }

  lemma OnNone(vm: Vm, c: Core, ins: Instruction)
    requires Fetches(vm, c, ins)
    ensures ins.op == NOOP ==> vm.step(c) == Next(c.(ic := c.ic + 1))
    ensures ins.op == PUSH ==> vm.step(c) == PushOn(c, c.stack, OperandValue(ins).value, vm.limit)
    ensures ins.op == TSXDATA ==> vm.step(c) == PushString(c, c.stack, vm.cx.data, vm.limit)
    ensures ins.op == RETURN ==> vm.step(c) == Leave(c, vm.limit)
    ensures ins.op == STOP ==> vm.step(c) == Halt(ProgramStopped)
    ensures ins.op == PC ==> vm.step(c) == Halt(InvalidOpcode)
    ensures IsContext(ins.op) ==> vm.step(c) == PushOn(c, c.stack, ContextValue(ins.op, vm.cx), vm.limit)
  {
    assert vm.step(c) == CoreStep(vm.p, vm.cx, c, vm.limit);
    NothingTaken(c);
    if IsContext(ins.op) { OnContext(vm, c, ins); }
  }

  lemma NothingTaken(c: Core)
    ensures c.stack[..|c.stack| - 0] == c.stack
  {
  }

  lemma OnContext(vm: Vm, c: Core, ins: Instruction)
    requires Fetches(vm, c, ins) && IsContext(ins.op)
    ensures vm.step(c) == PushOn(c, c.stack, ContextValue(ins.op, vm.cx), vm.limit)
  {
    assert vm.step(c) == CoreStep(vm.p, vm.cx, c, vm.limit);
    NothingTaken(c);
  }

  lemma OnOne(vm: Vm, c: Core, ins: Instruction)
    requires Fetches(vm, c, ins) && Arity(ins.op) == 1 && |c.stack| >= 1
    ensures var st, x := Below(c, 1), Nth(c.stack, 0);
      && (ins.op == POP ==> vm.step(c) == Next(c.(stack := st, ic := c.ic + 1)))
      && (ins.op == ISZERO ==> vm.step(c) == PushOn(c, st, Words.Bit(x == 0), vm.limit))
      && (ins.op == BALANCE ==> vm.step(c) == PushOn(c, st, 0, vm.limit))
  {
    assert vm.step(c) == CoreStep(vm.p, vm.cx, c, vm.limit);
  }

  lemma OnAddress(vm: Vm, c: Core, ins: Instruction)
    requires Fetches(vm, c, ins) && Arity(ins.op) == 1 && |c.stack| >= 1
    ensures var st, x := Below(c, 1), Nth(c.stack, 0);
      && (ins.op == SWAP ==> vm.step(c) == Swap(c, st, x))
      && (ins.op == JUMP ==> vm.step(c) == JumpTo(|vm.p|, c, st, x, true))
      && (ins.op == CALL ==> vm.step(c) == Enter(c, st, x))
      && (ins.op == LOAD_LOCAL ==> vm.step(c) == LoadLocal(c, st, x, vm.limit))
  {
    assert vm.step(c) == CoreStep(vm.p, vm.cx, c, vm.limit);
  }

  lemma OnDuplicate(vm: Vm, c: Core, ins: Instruction)
    requires Fetches(vm, c, ins) && ins.op == DUP && |c.stack| >= 1
    ensures vm.step(c) == PushOn(c, c.stack, Nth(c.stack, 0), vm.limit)
  {
    assert vm.step(c) == CoreStep(vm.p, vm.cx, c, vm.limit);
    TopKept(c);
  }

  lemma OnEmit(vm: Vm, c: Core, ins: Instruction)
    requires Fetches(vm, c, ins) && ins.op == EMIT && |c.stack| >= 1
    ensures var x := Nth(c.stack, 0);
      vm.step(c) == if Oversize(x) then Halt(Crash) else Next(c.(ic := c.ic + 1, out := c.out + [Number(Abs(x))]))
  {
    assert vm.step(c) == CoreStep(vm.p, vm.cx, c, vm.limit);
    TopKept(c);
  }

  lemma TopKept(c: Core)
    requires |c.stack| >= 1
    ensures c.stack[..|c.stack| - 1] + [Nth(c.stack, 0)] == c.stack
  {
  }

  lemma OnCell(vm: Vm, c: Core, ins: Instruction)
    requires Fetches(vm, c, ins) && (ins.op == MLOAD || ins.op == STRLEN) && |c.stack| >= 1
    ensures var st, x := Below(c, 1), Nth(c.stack, 0);
      vm.step(c) == if Low64(x) >= MAX_MEMORY then Halt(if ins.op == MLOAD then MemoryOutOfBounds else InvalidString)
                    else PushOn(c, st, Cell(c.mem, Low64(x)), vm.limit)
  {
    assert vm.step(c) == CoreStep(vm.p, vm.cx, c, vm.limit);
  }

  lemma OnToInteger(vm: Vm, c: Core, ins: Instruction)
    requires Fetches(vm, c, ins) && ins.op == STRTOINT && |c.stack| >= 1
    ensures vm.step(c) == ToInteger(c, Below(c, 1), Nth(c.stack, 0), vm.limit)
  {
    assert vm.step(c) == CoreStep(vm.p, vm.cx, c, vm.limit);
  }

  lemma OnToText(vm: Vm, c: Core, ins: Instruction)
    requires Fetches(vm, c, ins) && ins.op == INTTOSTR && |c.stack| >= 1
    ensures vm.step(c) == PushString(c, Below(c, 1), Decimal(Int64(Nth(c.stack, 0))), vm.limit)
  {
    assert vm.step(c) == CoreStep(vm.p, vm.cx, c, vm.limit);
  }

  lemma OnEmitText(vm: Vm, c: Core, ins: Instruction)
    requires Fetches(vm, c, ins) && ins.op == EMITSTR && |c.stack| >= 1
    ensures vm.step(c) == EmitString(c, Below(c, 1), Nth(c.stack, 0))
  {
    assert vm.step(c) == CoreStep(vm.p, vm.cx, c, vm.limit);
  }

  lemma OnLoad(vm: Vm, c: Core, ins: Instruction)
    requires Fetches(vm, c, ins) && ins.op == PLOAD && |c.stack| >= 1
    ensures vm.step(c) == LoadKey(c, Below(c, 1), Nth(c.stack, 0), vm.limit)
  {
    assert vm.step(c) == CoreStep(vm.p, vm.cx, c, vm.limit);
  }

  function LoadKey(c: Core, st: seq<int>, x: int, limit: nat): Outcome {
    var k := KeyOf(c.mem, x);
    if !k.Str? then Halt(Crash) else PushString(c, st, if k.text in c.store then c.store[k.text] else [], limit)
  }

  function StoreKey(c: Core, st: seq<int>, x: int, y: int): Outcome {
    var k, v := KeyOf(c.mem, x), ValueOf(c.mem, y);
    if !k.Str? || !v.Str? then Halt(Crash) else Next(c.(stack := st, store := c.store[k.text := v.text], ic := c.ic + 1))
  }

  lemma OnTwo(vm: Vm, c: Core, ins: Instruction)
    requires Fetches(vm, c, ins) && Arity(ins.op) == 2 && |c.stack| >= 2
    ensures var st, x, y := Below(c, 2), Nth(c.stack, 0), Nth(c.stack, 1);
      && (IsArithmetic(ins.op) ==> vm.step(c) == PushOn(c, st, Arithmetic(ins.op, y, x), vm.limit))
      && (ins.op == JUMPC ==> vm.step(c) == JumpTo(|vm.p|, c, st, x, y == 1))
      && (ins.op == MSTORE ==> vm.step(c) == if Low64(x) >= MAX_MEMORY then Halt(MemoryOutOfBounds) else Next(c.(stack := st, ic := c.ic + 1, mem := c.mem[Low64(x) := y])))
      && (ins.op == STORE_LOCAL ==> vm.step(c) == StoreLocal(c, st, x, y))
  {
    assert vm.step(c) == CoreStep(vm.p, vm.cx, c, vm.limit);
  }

  lemma OnEquals(vm: Vm, c: Core, ins: Instruction)
    requires Fetches(vm, c, ins) && ins.op == EQ && |c.stack| >= 2
    ensures vm.step(c) == Equals(c, Below(c, 2), Nth(c.stack, 1), Nth(c.stack, 0), vm.limit)
  {
    assert vm.step(c) == CoreStep(vm.p, vm.cx, c, vm.limit);
  }

  lemma OnStore(vm: Vm, c: Core, ins: Instruction)
    requires Fetches(vm, c, ins) && ins.op == PSTORE && |c.stack| >= 2
    ensures vm.step(c) == StoreKey(c, Below(c, 2), Nth(c.stack, 0), Nth(c.stack, 1))
  {
    assert vm.step(c) == CoreStep(vm.p, vm.cx, c, vm.limit);
  }

  lemma OnConcat(vm: Vm, c: Core, ins: Instruction)
    requires Fetches(vm, c, ins) && ins.op == STRCONCAT && |c.stack| >= 2
    ensures vm.step(c) == Concat(c, Below(c, 2), Nth(c.stack, 1), Nth(c.stack, 0), vm.limit)
  {
    assert vm.step(c) == CoreStep(vm.p, vm.cx, c, vm.limit);
  }

  lemma OnIndex(vm: Vm, c: Core, ins: Instruction)
    requires Fetches(vm, c, ins) && ins.op == STRINDEX && |c.stack| >= 2
    ensures vm.step(c) == IndexString(c, Below(c, 2), Nth(c.stack, 1), Nth(c.stack, 0), vm.limit)
  {
    assert vm.step(c) == CoreStep(vm.p, vm.cx, c, vm.limit);
  }

  lemma OnThree(vm: Vm, c: Core, ins: Instruction)
    requires Fetches(vm, c, ins) && Arity(ins.op) == 3 && |c.stack| >= 3
    ensures vm.step(c) == SliceString(c, Below(c, 3), Nth(c.stack, 2), Nth(c.stack, 1), Nth(c.stack, 0), vm.limit)
  {
    assert vm.step(c) == CoreStep(vm.p, vm.cx, c, vm.limit);
  }

  // ---------------------------------------------------------------- the calling convention

  /** CALL makes the frame begin at the first argument if and only if there are two. */
  lemma CallFramesExactly(vm: Vm, c: Core, base: seq<int>, args: seq<int>, target: int)
    requires Fetches(vm, c, Op(CALL)) && c.stack == base + args + [target]
    ensures var r := vm.step(c); r.Next? && r.core.stack == base + args && (r.core.fp == |base| <==> |args| == 2)
  {
    OnAddress(vm, c, Op(CALL));
    assert Below(c, 1) == base + args;
  }

  /** RETURN gives the caller its own stack back, with the result on top, if and only if the frame has two cells (or fewer, with
      nothing below it). */
  lemma ReturnRestoresExactly(vm: Vm, c: Core, base: seq<int>, frame: seq<int>, v: int)
    requires Fetches(vm, c, Op(RETURN)) && vm.limit == 0 && c.rets != [] && c.stack == base + frame + [v]
    ensures var r := vm.step(c); r.Next? && (r.core.stack == base + [v] <==> |frame| == 2 || (base == [] && |frame| < 2))
  {
    OnNone(vm, c, Op(RETURN));
    var st := base + frame;
    assert c.stack[..|c.stack| - 1] == st;
    var kept := if |st| >= 2 then st[..|st| - 2] else [];
    assert vm.step(c).core.stack == kept + [v];
    assert (kept + [v])[..|kept|] == kept && (base + [v])[..|base|] == base;
    if |frame| == 2 { assert kept == base; }
  }
}
