/** What each instruction the compiler emits does on a machine without limits: a small reference
    machine (`Expect`), the proof that the virtual machine agrees with it, and one law per instruction. */
module Instructions {
  import opened Text
  import opened Bytecode
  import opened Avm
  import opened Runs
  import Words

  type Code = seq<Instruction>

  function Drop(st: seq<int>, k: nat): seq<int> { if k <= |st| then st[..|st| - k] else [] }

  function Top(st: seq<int>, k: nat): int { if k < |st| then st[|st| - 1 - k] else 0 }

  /** Small numbers survive the conversions to uint64 and int. */
  predicate Small(n: int) { 0 <= n < TWO63 }

  /** The next state for the instructions compiled code consists of, where it is easy to tell; None
      anywhere else. Numbers are compared as numbers. */
  function Expect(p: Code, c: Core): Option<Core> {
    if c.ic < 0 || c.ic >= |p| || !Valid(p[c.ic]) then None
    else
      var ins, st, x, y := p[c.ic], c.stack, Top(c.stack, 0), Top(c.stack, 1);
      var d := c.(ic := c.ic + 1);
      match ins.op
      case PUSH => Some(d.(stack := st + [OperandValue(ins).value]))
      case ADD | SUB | MUL | DIV | MOD | LT | GT =>
        if |st| < 2 then None else Some(d.(stack := Drop(st, 2) + [Arithmetic(ins.op, y, x)]))
      case EQ => if |st| < 2 then None else Some(d.(stack := Drop(st, 2) + [Words.Bit(y == x)]))
      case ISZERO => if |st| < 1 then None else Some(d.(stack := Drop(st, 1) + [Words.Bit(x == 0)]))
      case POP => if |st| < 1 then None else Some(d.(stack := Drop(st, 1)))
      case SWAP => if |st| < 3 || x != 1 then None else Some(d.(stack := Drop(st, 3) + [Top(st, 1), Top(st, 2)]))
      case EMIT => if |st| < 1 || Oversize(x) then None else Some(d.(out := c.out + [Number(Abs(x))]))
      case JUMP => if |st| < 1 || !Small(x) || x >= |p| then None else Some(c.(stack := Drop(st, 1), ic := x))
      case JUMPC =>
        if |st| < 2 || !Small(x) || x >= |p| then None
        else Some(c.(stack := Drop(st, 2), ic := if y == 1 then x else c.ic + 1))
      case LOAD_LOCAL =>
        if |st| < 1 || !Small(x) || c.fp < 0 || c.fp + x >= |st| - 1 then None
        else Some(d.(stack := Drop(st, 1) + [st[c.fp + x]]))
      case STORE_LOCAL =>
        if |st| < 2 || !Small(x) || c.fp < 0 then None
        else Some(d.(stack := Padded(Drop(st, 2), c.fp + x + 1)[c.fp + x := y]))
      case CALL =>
        if |st| < 1 || !Small(x) then None
        else Some(c.(stack := Drop(st, 1), frames := c.frames + [c.fp], fp := |st| - 3, rets := c.rets + [c.ic + 1], ic := x))
      case RETURN =>
        if |st| < 3 || c.rets == [] || c.frames == [] then None
        else Some(c.(stack := Drop(st, 3) + [x], ic := c.rets[|c.rets| - 1], rets := c.rets[..|c.rets| - 1],
                     fp := c.frames[|c.frames| - 1], frames := c.frames[..|c.frames| - 1]))
      case _ => None
  }

  /** No address holds a string, so EQ compares numbers. */
  ghost predicate NoStrings(m: Memory) {
    forall a: nat {:trigger ReadString(m, a)} :: ReadString(m, a) == Str([])
  }

  lemma EmptyMemoryHasNoStrings()
    ensures NoStrings(map[])
  {
  }

  /** The virtual machine does what the reference machine expects. */
  lemma MachineAgrees(p: Code, cx: Context, c: Core)
    requires Expect(p, c).Some? && NoStrings(c.mem)
    ensures CoreStep(p, cx, c, 0) == Next(Expect(p, c).value)
  {
    var op := p[c.ic].op;
    if op == JUMP || op == JUMPC || op == CALL || op == RETURN {
      ControlAgrees(p, cx, c);
    } else if op == LOAD_LOCAL || op == STORE_LOCAL {
      LocalsAgree(p, cx, c);
    } else if op == SWAP || op == EMIT || op == EQ {
      ValuesAgree(p, cx, c);
    } else {
      ArithmeticAgrees(p, cx, c);
    }
  }

  lemma ControlAgrees(p: Code, cx: Context, c: Core)
    requires Expect(p, c).Some? && p[c.ic].op in {JUMP, JUMPC, CALL, RETURN}
    ensures CoreStep(p, cx, c, 0) == Next(Expect(p, c).value)
  {
    var x := Top(c.stack, 0);
    if p[c.ic].op == RETURN { ReturnAgrees(c); } else { SmallWrap(x); }
  }

  lemma LocalsAgree(p: Code, cx: Context, c: Core)
    requires Expect(p, c).Some? && p[c.ic].op in {LOAD_LOCAL, STORE_LOCAL}
    ensures CoreStep(p, cx, c, 0) == Next(Expect(p, c).value)
  {
    var x := Top(c.stack, 0);
    if p[c.ic].op == LOAD_LOCAL { LoadAgrees(c, x); } else { SmallWrap(x); }
  }

  lemma ValuesAgree(p: Code, cx: Context, c: Core)
    requires Expect(p, c).Some? && NoStrings(c.mem)
    requires p[c.ic].op in {EQ, SWAP, EMIT}
    ensures CoreStep(p, cx, c, 0) == Next(Expect(p, c).value)
  {
    if p[c.ic].op == SWAP { SwapAgrees(c); } else if p[c.ic].op == EMIT { assert Drop(c.stack, 1) + [Top(c.stack, 0)] == c.stack; }
  }

  lemma ArithmeticAgrees(p: Code, cx: Context, c: Core)
    requires Expect(p, c).Some? && p[c.ic].op in {PUSH, POP, ADD, SUB, MUL, DIV, MOD, LT, GT, ISZERO}
    ensures CoreStep(p, cx, c, 0) == Next(Expect(p, c).value)
  {
    assert c.stack[..|c.stack| - 0] == c.stack;
  }

  lemma LoadAgrees(c: Core, x: int)
    requires |c.stack| >= 1 && Small(x) && c.fp >= 0 && c.fp + x < |c.stack| - 1
    ensures LoadLocal(c, Drop(c.stack, 1), x, 0) == Next(c.(ic := c.ic + 1, stack := Drop(c.stack, 1) + [c.stack[c.fp + x]]))
  {
    SmallWrap(x);
  }

  lemma SwapAgrees(c: Core)
    requires |c.stack| >= 3
    ensures Swap(c, Drop(c.stack, 1), 1) == Next(c.(ic := c.ic + 1, stack := Drop(c.stack, 3) + [Top(c.stack, 1), Top(c.stack, 2)]))
  {
    var t := Drop(c.stack, 1);
    assert t[|t| - 1 := t[|t| - 2]][|t| - 2 := t[|t| - 1]] == Drop(c.stack, 3) + [Top(c.stack, 1), Top(c.stack, 2)];
  }

  lemma ReturnAgrees(c: Core)
    requires |c.stack| >= 3 && c.rets != [] && c.frames != []
    ensures Leave(c, 0) == Next(c.(stack := Drop(c.stack, 3) + [Top(c.stack, 0)], ic := c.rets[|c.rets| - 1],
                                   rets := c.rets[..|c.rets| - 1], fp := c.frames[|c.frames| - 1], frames := c.frames[..|c.frames| - 1]))
  {
    assert c.stack[..|c.stack| - 1][..|c.stack| - 3] == Drop(c.stack, 3);
  }

  // ---------------------------------------------------------------- laws

  /** `step` behaves like the reference machine on program `p` while the memory is `m`. */
  ghost predicate Drives(step: Stepper, p: Code, m: Memory) {
    forall c: Core {:trigger Expect(p, c)} :: c.mem == m && Expect(p, c).Some? ==> step(c) == Next(Expect(p, c).value)
  }

  ghost predicate Ready(step: Stepper, p: Code, m: Memory, c: Core, ins: Instruction) {
    Drives(step, p, m) && c.mem == m && 0 <= c.ic < |p| && p[c.ic] == ins
  }

  lemma DoPush(step: Stepper, p: Code, m: Memory, c: Core, ins: Instruction, k: nat)
    requires Ready(step, p, m, c, ins) && (ins == Push(k) || ins == PushLiteral(k))
    ensures Goes(step, c, 1, c.(stack := c.stack + [k], ic := c.ic + 1))
  {
    Once(step, c, Expect(p, c).value);
  }

  lemma DoArithmetic(step: Stepper, p: Code, m: Memory, c: Core, op: Opcode, st: seq<int>, a: int, b: int)
    requires op in {ADD, SUB, MUL, DIV, MOD, LT, GT} && Ready(step, p, m, c, Op(op)) && c.stack == st + [a, b]
    ensures Goes(step, c, 1, c.(stack := st + [Arithmetic(op, a, b)], ic := c.ic + 1))
  {
    assert Drop(c.stack, 2) == st;
    Once(step, c, Expect(p, c).value);
  }

  lemma DoEquals(step: Stepper, p: Code, m: Memory, c: Core, st: seq<int>, a: int, b: int)
    requires Ready(step, p, m, c, Op(EQ)) && c.stack == st + [a, b]
    ensures Goes(step, c, 1, c.(stack := st + [Words.Bit(a == b)], ic := c.ic + 1))
  {
    assert Drop(c.stack, 2) == st;
    Once(step, c, Expect(p, c).value);
  }

  lemma DoIsZero(step: Stepper, p: Code, m: Memory, c: Core, st: seq<int>, a: int)
    requires Ready(step, p, m, c, Op(ISZERO)) && c.stack == st + [a]
    ensures Goes(step, c, 1, c.(stack := st + [Words.Bit(a == 0)], ic := c.ic + 1))
  {
    assert Drop(c.stack, 1) == st;
    Once(step, c, Expect(p, c).value);
  }

  lemma DoSwap(step: Stepper, p: Code, m: Memory, c: Core, st: seq<int>, a: int, b: int)
    requires Ready(step, p, m, c, Op(SWAP)) && c.stack == st + [a, b, 1]
    ensures Goes(step, c, 1, c.(stack := st + [b, a], ic := c.ic + 1))
  {
    assert Drop(c.stack, 3) == st;
    Once(step, c, Expect(p, c).value);
  }

  lemma DoPop(step: Stepper, p: Code, m: Memory, c: Core, st: seq<int>, a: int)
    requires Ready(step, p, m, c, Op(POP)) && c.stack == st + [a]
    ensures Goes(step, c, 1, c.(stack := st, ic := c.ic + 1))
  {
    assert Drop(c.stack, 1) == st;
    Once(step, c, Expect(p, c).value);
  }

  lemma DoEmit(step: Stepper, p: Code, m: Memory, c: Core, st: seq<int>, a: int)
    requires Ready(step, p, m, c, Op(EMIT)) && c.stack == st + [a] && !Oversize(a)
    ensures Goes(step, c, 1, c.(ic := c.ic + 1, out := c.out + [Number(Abs(a))]))
  {
    Once(step, c, Expect(p, c).value);
  }

  lemma DoJump(step: Stepper, p: Code, m: Memory, c: Core, st: seq<int>, t: nat)
    requires Ready(step, p, m, c, Op(JUMP)) && c.stack == st + [t] && t < |p| <= TWO63
    ensures Goes(step, c, 1, c.(stack := st, ic := t))
  {
    assert Drop(c.stack, 1) == st;
    Once(step, c, Expect(p, c).value);
  }

  lemma DoJumpIf(step: Stepper, p: Code, m: Memory, c: Core, st: seq<int>, b: bool, t: nat)
    requires Ready(step, p, m, c, Op(JUMPC)) && c.stack == st + [Words.Bit(b), t] && t < |p| <= TWO63
    ensures Goes(step, c, 1, c.(stack := st, ic := if b then t else c.ic + 1))
  {
    assert Drop(c.stack, 2) == st;
    Once(step, c, Expect(p, c).value);
  }

  lemma DoLoad(step: Stepper, p: Code, m: Memory, c: Core, st: seq<int>, k: nat)
    requires Ready(step, p, m, c, Op(LOAD_LOCAL)) && c.stack == st + [k] && k < TWO63
    requires 0 <= c.fp && c.fp + k < |st|
    ensures Goes(step, c, 1, c.(stack := st + [st[c.fp + k]], ic := c.ic + 1))
  {
    assert Drop(c.stack, 1) == st;
    Once(step, c, Expect(p, c).value);
  }

  lemma DoStore(step: Stepper, p: Code, m: Memory, c: Core, st: seq<int>, v: int, k: nat)
    requires Ready(step, p, m, c, Op(STORE_LOCAL)) && c.stack == st + [v, k] && k < TWO63 && 0 <= c.fp
    ensures Goes(step, c, 1, c.(stack := Padded(st, c.fp + k + 1)[c.fp + k := v], ic := c.ic + 1))
  {
    assert Drop(c.stack, 2) == st;
    Once(step, c, Expect(p, c).value);
  }

  lemma DoCall(step: Stepper, p: Code, m: Memory, c: Core, st: seq<int>, t: nat)
    requires Ready(step, p, m, c, Op(CALL)) && c.stack == st + [t] && t < TWO63
    ensures Goes(step, c, 1, c.(stack := st, frames := c.frames + [c.fp], fp := |st| - 2,
                                rets := c.rets + [c.ic + 1], ic := t))
  {
    assert Drop(c.stack, 1) == st;
    Once(step, c, Expect(p, c).value);
  }

  /** RETURN below a call drops the two arguments and hands the value to the caller. */
  lemma DoReturn(step: Stepper, p: Code, m: Memory, c: Core, st: seq<int>, a: int, b: int, v: int,
                 frames: seq<int>, fp: int, rets: seq<int>, ret: int)
    requires Ready(step, p, m, c, Op(RETURN)) && c.stack == st + [a, b, v]
    requires c.frames == frames + [fp] && c.rets == rets + [ret]
    ensures Goes(step, c, 1, c.(stack := st + [v], ic := ret, fp := fp, frames := frames, rets := rets))
  {
    assert Drop(c.stack, 3) == st;
    assert c.frames[..|c.frames| - 1] == frames && c.rets[..|c.rets| - 1] == rets;
    Once(step, c, Expect(p, c).value);
  }
}
