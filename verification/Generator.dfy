/** The code generator as it works: one pass that appends instructions, leaves placeholders for jump
    targets and patches them in place (marigold/codegen.go). Each method is proved to produce the code
    that module Codegen describes with all targets known. */
module Generator {
  import opened Text
  import opened Bytecode
  import opened Ast
  import opened Names
  import opened Codegen
  import opened Avm

  /** Where `continue` goes, and the placeholders of the `break` statements seen so far. */
  datatype LoopContext = LoopContext(head: nat, breaks: seq<nat>)

  function Head(loops: seq<LoopContext>): nat { if loops == [] then 0 else loops[|loops| - 1].head }

  function WithBreaks(loops: seq<LoopContext>, sites: seq<nat>): seq<LoopContext> {
    if loops == [] then []
    else
      var top := loops[|loops| - 1];
      loops[|loops| - 1 := top.(breaks := top.breaks + sites)]
  }

  lemma WithBreaksTwice(loops: seq<LoopContext>, a: seq<nat>, b: seq<nat>)
    ensures WithBreaks(WithBreaks(loops, a), b) == WithBreaks(loops, a + b)
    ensures WithBreaks(loops, []) == loops
  {
    if loops != [] {
      var top := loops[|loops| - 1];
      assert top.breaks + a + b == top.breaks + (a + b);
      assert top.(breaks := top.breaks + []) == top;
    }
  }

  /** What module Codegen says about tests, statements and blocks, as functions. */
  datatype Spec = Spec(
    testOk: (Expr, Scope, Index) -> bool, test: (Expr, Scope, Index, nat) -> Code, testSize: Expr -> nat,
    stmtOk: (Stmt, Scope, Index, bool) -> bool, stmt: (Stmt, Scope, Index, nat, Loop) -> Code,
    after: (Stmt, Scope) -> Scope, sites: (Stmt, nat) -> seq<nat>,
    blockOk: (seq<Stmt>, Scope, Index, bool) -> bool, block: (seq<Stmt>, Scope, Index, nat, Loop) -> Code,
    afterBlock: (seq<Stmt>, Scope) -> Scope, blockSites: (seq<Stmt>, nat) -> seq<nat>)

  ghost predicate Faithful(g: Spec) {
    && (forall c, sc, fns {:trigger ExprOk(c, sc, fns)} :: g.testOk(c, sc, fns) == ExprOk(c, sc, fns))
    && (forall c, sc, fns, t: nat {:trigger TestCode(c, sc, fns, t)} :: g.test(c, sc, fns, t) == TestCode(c, sc, fns, t))
    && (forall c {:trigger ExprSize(c)} :: g.testSize(c) == ExprSize(c) + 3)
    && (forall s, sc, fns, b {:trigger StmtOk(s, sc, fns, b)} :: g.stmtOk(s, sc, fns, b) == StmtOk(s, sc, fns, b))
    && (forall s, sc, fns, at: nat, l {:trigger StmtCode(s, sc, fns, at, l)} :: g.stmt(s, sc, fns, at, l) == StmtCode(s, sc, fns, at, l))
    && (forall s, sc {:trigger After(s, sc)} :: g.after(s, sc) == After(s, sc))
    && (forall s, at: nat {:trigger BreakSites(s, at)} :: g.sites(s, at) == BreakSites(s, at))
    && (forall ss, sc, fns, b {:trigger BlockOk(ss, sc, fns, b)} :: g.blockOk(ss, sc, fns, b) == BlockOk(ss, sc, fns, b))
    && (forall ss, sc, fns, at: nat, l {:trigger BlockCode(ss, sc, fns, at, l)} :: g.block(ss, sc, fns, at, l) == BlockCode(ss, sc, fns, at, l))
    && (forall ss, sc {:trigger AfterBlock(ss, sc)} :: g.afterBlock(ss, sc) == AfterBlock(ss, sc))
    && (forall ss, at: nat {:trigger BlockSites(ss, at)} :: g.blockSites(ss, at) == BlockSites(ss, at))
  }

  ghost function TheSpec(): (g: Spec)
    ensures Faithful(g)
  {
    Spec((c, sc, fns) => ExprOk(c, sc, fns), (c: Expr, sc: Scope, fns: Index, t: nat) => TestCode(c, sc, fns, t), c => ExprSize(c) + 3,
         (s, sc, fns, b) => StmtOk(s, sc, fns, b), (s: Stmt, sc: Scope, fns: Index, at: nat, l: Loop) => StmtCode(s, sc, fns, at, l),
         (s, sc) => After(s, sc), (s: Stmt, at: nat) => BreakSites(s, at),
         (ss, sc, fns, b) => BlockOk(ss, sc, fns, b), (ss: seq<Stmt>, sc: Scope, fns: Index, at: nat, l: Loop) => BlockCode(ss, sc, fns, at, l),
         (ss, sc) => AfterBlock(ss, sc), (ss: seq<Stmt>, at: nat) => BlockSites(ss, at))
  }

  class CodegenContext {
    ghost const g: Spec
    var instructions: Code
    var functionIndex: Index
    var localOffsets: map<string, nat>
    var nextLocalOffset: nat
    var loopStack: seq<LoopContext>
    var stringTable: map<Bytes, nat>
    var stringLiterals: seq<Bytes>
    var nextMemoryAddr: nat

    constructor ()
      ensures instructions == [] && functionIndex == map[] && Locals() == Scope(map[], 0) && loopStack == []
      ensures Literals() == Table(map[], [], 0) && Faithful(g)
    {
      g := TheSpec();
      instructions, functionIndex, localOffsets, nextLocalOffset, loopStack := [], map[], map[], 0, [];
      stringTable, stringLiterals, nextMemoryAddr := map[], [], 0;
    }

    ghost function Locals(): Scope
      reads this
    {
      Scope(localOffsets, nextLocalOffset)
    }

    ghost function Literals(): Table
      reads this
    {
      Table(stringTable, stringLiterals, nextMemoryAddr)
    }

    method Emit(op: Opcode)
      modifies `instructions
      ensures instructions == old(instructions) + [Op(op)]
    {
      instructions := instructions + [Op(op)];
    }

    method EmitPush(n: nat)
      modifies `instructions
      ensures instructions == old(instructions) + [Push(n)]
    {
      instructions := instructions + [Push(n)];
    }

    /** Gives the PUSH at `i` a new target, in place. */
    method Patch(i: nat, target: nat)
      requires i < |instructions|
      modifies `instructions
      ensures instructions == old(instructions)[i := Instruction(old(instructions[i].op), Some(Hex(target)))]
    {
      instructions := instructions[i := instructions[i].(operand := Some(Hex(target)))];
    }

    // -------------------------------------------------------------- expressions

    method GenerateExpression(e: Expr) returns (ok: bool)
      modifies `instructions
      ensures ok == ExprOk(e, Locals(), functionIndex)
      ensures ok ==> instructions == old(instructions) + ExprCode(e, Locals(), functionIndex)
      decreases e, 1
    {
      match e {
        case Number(n) =>
          instructions := instructions + [PushLiteral(n)];
          ok := true;
        case Identifier(x) =>
          var op := ContextOpcode(x);
          ok := op.Some? || x in localOffsets;
          if op.Some? {
            Emit(op.value);
          } else if ok {
            EmitPush(localOffsets[x]);
            Emit(LOAD_LOCAL);
          }
        case Binary(op, l, r) => ok := GenerateBinary(op, l, r, e);
        case Unary(op, x) =>
          ghost var before := instructions;
          ok := GenerateExpression(x);
          if ok { GenerateUnaryOperator(op); }
          Regroup2(before, ExprCode(x, Locals(), functionIndex), UnaryCode(op));
        case Call(f, args) => ok := GenerateCall(e);
        case _ => ok := false;
      }
    }

    method GenerateBinary(op: BinaryOp, l: Expr, r: Expr, ghost e: Expr) returns (ok: bool)
      requires e == Binary(op, l, r)
      modifies `instructions
      ensures ok == (OperatorCode(op) != [] && ExprOk(l, Locals(), functionIndex) && ExprOk(r, Locals(), functionIndex))
      ensures ok ==> instructions == old(instructions) + (ExprCode(l, Locals(), functionIndex) + ExprCode(r, Locals(), functionIndex) + OperatorCode(op))
      decreases e, 0
    {
      ghost var before := instructions;
      ok := GenerateExpression(l);
      if !ok { return; }
      ok := GenerateExpression(r);
      if !ok { return; }
      ok := GenerateOperator(op);
      Regroup(before, ExprCode(l, Locals(), functionIndex), ExprCode(r, Locals(), functionIndex), OperatorCode(op));
    }

    method GenerateOperator(op: BinaryOp) returns (ok: bool)
      modifies `instructions
      ensures ok == (OperatorCode(op) != [])
      ensures ok ==> instructions == old(instructions) + OperatorCode(op)
    {
      ok := true;
      match op {
        case Plus => Emit(ADD);
        case Minus => Emit(SUB);
        case Multiply => Emit(MUL);
        case Divide => Emit(DIV);
        case Equal => Emit(EQ);
        case NotEqual =>
          Emit(EQ);
          Emit(ISZERO);
        case LessThan => Emit(LT);
        case GreaterThan => Emit(GT);
        case LessEqual =>
          Emit(GT);
          Emit(ISZERO);
        case GreaterEqual =>
          Emit(LT);
          Emit(ISZERO);
        case Modulo => Emit(MOD);
        case LogicalAnd | LogicalOr | Exponent => ok := false;
      }
    }

    method GenerateUnaryOperator(op: UnaryOp)
      modifies `instructions
      ensures instructions == old(instructions) + UnaryCode(op)
    {
      match op {
        case Negate =>
          EmitPush(0);
          EmitPush(1);
          Emit(SWAP);
          Emit(SUB);
        case Not => Emit(ISZERO);
      }
    }

    method GenerateCall(e: Expr) returns (ok: bool)
      requires e.Call?
      modifies `instructions
      ensures ok == ExprOk(e, Locals(), functionIndex)
      ensures ok ==> instructions == old(instructions) + ExprCode(e, Locals(), functionIndex)
      decreases e, 0
    {
      ghost var before := instructions;
      var f := e.callee;
      ok := CalleeOk(f, e.args, functionIndex);
      if !ok { return; }
      ok := GenerateArguments(e.args);
      if !ok { return; }
      ghost var args := ArgsCode(e.args, Locals(), functionIndex);
      if f.EmitFn? {
        Emit(EMIT);
      } else if BuiltinOf(f.name).Builtin? {
        instructions := instructions + BuiltinOf(f.name).ops;
      } else {
        EmitPush(functionIndex[f.name]);
        Emit(CALL);
      }
      assert instructions == before + (args + CallCode(f, functionIndex));
    }

    /** Arguments are generated in order, so they end up at frame offsets 0, 1, ... */
    method GenerateArguments(args: seq<Expr>) returns (ok: bool)
      modifies `instructions
      ensures ok == forall j :: 0 <= j < |args| ==> ExprOk(args[j], Locals(), functionIndex)
      ensures ok ==> instructions == old(instructions) + ArgsCode(args, Locals(), functionIndex)
      decreases args, 2
    {
      ghost var goal := instructions + ArgsCode(args, Locals(), functionIndex);
      ok := true;
      var i := 0;
      while i < |args|
        invariant 0 <= i <= |args| && ok
        invariant forall j :: 0 <= j < i ==> ExprOk(args[j], Locals(), functionIndex)
        invariant instructions + ArgsCode(args[i..], Locals(), functionIndex) == goal
      {
        ghost var here := instructions;
        ok := GenerateExpression(args[i]);
        if !ok { return; }
        ArgsSplit(args[i..], Locals(), functionIndex);
        assert args[i..][0] == args[i] && args[i..][1..] == args[i + 1..];
        Regroup2(here, ExprCode(args[i], Locals(), functionIndex), ArgsCode(args[i + 1..], Locals(), functionIndex));
        i := i + 1;
      }
      assert args[i..] == [];
    }

    // -------------------------------------------------------------- statements

    method GenerateStatement(s: Stmt) returns (ok: bool)
      requires Faithful(g)
      modifies `instructions, `localOffsets, `nextLocalOffset, `loopStack
      ensures ok == g.stmtOk(s, old(Locals()), functionIndex, |old(loopStack)| > 0)
      ensures ok ==> instructions == old(instructions + g.stmt(s, Locals(), functionIndex, |instructions|, Loop(0, Head(loopStack))))
      ensures ok ==> Locals() == g.after(s, old(Locals()))
      ensures ok ==> loopStack == WithBreaks(old(loopStack), g.sites(s, |old(instructions)|))
      decreases s, 2
    {
      if s.If? {
        ok := GenerateIf(s);
      } else if s.While? {
        ok := GenerateWhile(s);
      } else {
        ok := GenerateSimple(s);
      }
    }

    /** Statements without blocks. */
    method GenerateSimple(s: Stmt) returns (ok: bool)
      requires Faithful(g) && !s.If? && !s.While?
      modifies `instructions, `localOffsets, `nextLocalOffset, `loopStack
      ensures ok == g.stmtOk(s, old(Locals()), functionIndex, |old(loopStack)| > 0)
      ensures ok ==> instructions == old(instructions + g.stmt(s, Locals(), functionIndex, |instructions|, Loop(0, Head(loopStack))))
      ensures ok ==> Locals() == g.after(s, old(Locals()))
      ensures ok ==> loopStack == WithBreaks(old(loopStack), g.sites(s, |old(instructions)|))
    {
      SpecOf(g, s, Locals(), functionIndex, |instructions|, Loop(0, Head(loopStack)), |loopStack| > 0);
      WithBreaksTwice(loopStack, [], []);
      match s {
        case Assign(x, e) => ok := GenerateAssignment(x, e);
        case Return(e) => ok := GenerateReturn(e);
        case Break =>
          ok := |loopStack| > 0;
          if !ok { return; }
          var top, site := loopStack[|loopStack| - 1], |instructions|;
          EmitPush(0);
          Emit(JUMP);
          loopStack := loopStack[|loopStack| - 1 := top.(breaks := top.breaks + [site])];
        case Continue =>
          ok := |loopStack| > 0;
          if !ok { return; }
          EmitPush(loopStack[|loopStack| - 1].head);
          Emit(JUMP);
        case Evaluate(e) =>
          ok := GenerateExpression(e);
          if ok { Emit(POP); }
      }
    }

    /** A name seen for the first time takes the next offset of the function. */
    method GenerateAssignment(x: string, e: Expr) returns (ok: bool)
      modifies `instructions, `localOffsets, `nextLocalOffset
      ensures ok == ExprOk(e, old(Locals()), functionIndex)
      ensures ok ==> Locals() == Declare(old(Locals()), x)
      ensures ok ==> instructions == old(instructions) + (ExprCode(e, old(Locals()), functionIndex) + [Push(localOffsets[x]), Op(STORE_LOCAL)])
    {
      ghost var code := ExprCode(e, Locals(), functionIndex);
      ok := GenerateExpression(e);
      if !ok { return; }
      ghost var here := instructions;
      if x !in localOffsets {
        localOffsets := localOffsets[x := nextLocalOffset];
        nextLocalOffset := nextLocalOffset + 1;
      }
      EmitPush(localOffsets[x]);
      Emit(STORE_LOCAL);
      assert instructions == here + [Push(localOffsets[x]), Op(STORE_LOCAL)];
    }

    method GenerateReturn(e: Expr) returns (ok: bool)
      modifies `instructions
      ensures ok == (e.Nil? || ExprOk(e, Locals(), functionIndex))
      ensures ok ==> instructions == old(instructions) + ((if e.Nil? then [Push(0)] else ExprCode(e, Locals(), functionIndex)) + [Op(RETURN)])
    {
      if e.Nil? {
        EmitPush(0);
        ok := true;
      } else {
        ok := GenerateExpression(e);
      }
      if ok { Emit(RETURN); }
    }

    /** Condition and conditional jump, with the target left open; returns where it has to be patched. */
    method GenerateTest(c: Expr) returns (ok: bool, site: nat)
      requires Faithful(g)
      modifies `instructions
      ensures ok == g.testOk(c, Locals(), functionIndex)
      ensures ok ==> instructions == old(instructions) + g.test(c, Locals(), functionIndex, 0)
      ensures ok ==> site + 2 == |old(instructions)| + g.testSize(c)
    {
      assert g.testOk(c, Locals(), functionIndex) == ExprOk(c, Locals(), functionIndex) && g.testSize(c) == ExprSize(c) + 3;
      assert g.test(c, Locals(), functionIndex, 0) == TestCode(c, Locals(), functionIndex, 0);
      site := 0;
      ok := GenerateExpression(c);
      if !ok { return; }
      Emit(ISZERO);
      site := |instructions|;
      EmitPush(0);
      Emit(JUMPC);
    }

    method GenerateIf(s: Stmt) returns (ok: bool)
      requires s.If? && Faithful(g)
      modifies `instructions, `localOffsets, `nextLocalOffset, `loopStack
      ensures ok == g.stmtOk(s, old(Locals()), functionIndex, |old(loopStack)| > 0)
      ensures ok ==> instructions == old(instructions + g.stmt(s, Locals(), functionIndex, |instructions|, Loop(0, Head(loopStack))))
      ensures ok ==> Locals() == g.after(s, old(Locals()))
      ensures ok ==> loopStack == WithBreaks(old(loopStack), g.sites(s, |old(instructions)|))
      decreases s, 1
    {
      ghost var sc, pre, loops := Locals(), instructions, loopStack;
      ghost var loop := Loop(0, Head(loops));
      ghost var test, thn := g.test(s.cond, sc, functionIndex, 0), g.block(s.thenBlock, sc, functionIndex, |pre| + g.testSize(s.cond), loop);
      IfScope(g, s, sc, functionIndex, |loops| > 0);
      IfBreaks(g, s, sc, functionIndex, |pre|, loop, loops);
      var site;
      ok, site := GenerateThen(s.cond, s.thenBlock);
      if !ok { return; }
      IfFacts(g, s, sc, functionIndex, |pre|, loop);
      ok := FinishIf(s, site, pre, test, thn, g.stmt(s, sc, functionIndex, |pre|, loop));
    }

    /** What follows the then-block. */
    method FinishIf(s: Stmt, site: nat, ghost pre: Code, ghost test: Code, ghost thn: Code, ghost code: Code) returns (ok: bool)
      requires s.If? && Faithful(g) && instructions == pre + test + thn && |test| >= 2 && site + 2 == |pre| + |test| && test[|test| - 2].op == PUSH
      requires s.elseBlock.NoElse? ==> code == test[|test| - 2 := Push(|instructions|)] + thn
      requires s.elseBlock.Else? ==>
        var els := g.block(s.elseBlock.block, Locals(), functionIndex, |instructions| + 2, Loop(0, Head(loopStack)));
        code == test[|test| - 2 := Push(|instructions| + 2)] + thn + (JumpCode(|instructions| + 2 + |els|) + els)
      modifies `instructions, `localOffsets, `nextLocalOffset, `loopStack
      ensures ok == (s.elseBlock.Else? ==> g.blockOk(s.elseBlock.block, old(Locals()), functionIndex, |old(loopStack)| > 0))
      ensures ok ==> instructions == pre + code
      ensures ok ==> Locals() == if s.elseBlock.NoElse? then old(Locals()) else g.afterBlock(s.elseBlock.block, old(Locals()))
      ensures ok ==> loopStack == if s.elseBlock.NoElse? then old(loopStack) else WithBreaks(old(loopStack), g.blockSites(s.elseBlock.block, |old(instructions)| + 2))
      decreases s, 0
    {
      ok := true;
      if s.elseBlock.NoElse? {
        CloseIf(site, pre, test, thn, code);
      } else {
        ok := GenerateElse(s.elseBlock.block, site, pre, test, thn, code);
      }
    }

    method GenerateThen(c: Expr, t: seq<Stmt>) returns (ok: bool, site: nat)
      requires Faithful(g)
      modifies `instructions, `localOffsets, `nextLocalOffset, `loopStack
      ensures ok == (g.testOk(c, old(Locals()), functionIndex) && g.blockOk(t, old(Locals()), functionIndex, |old(loopStack)| > 0))
      ensures ok ==> instructions == old(instructions + g.test(c, Locals(), functionIndex, 0)
                                         + g.block(t, Locals(), functionIndex, |instructions| + g.testSize(c), Loop(0, Head(loopStack))))
      ensures ok ==> site + 2 == |old(instructions)| + g.testSize(c)
      ensures ok ==> Locals() == g.afterBlock(t, old(Locals()))
      ensures ok ==> loopStack == WithBreaks(old(loopStack), g.blockSites(t, |old(instructions)| + g.testSize(c)))
      decreases t, 4
    {
      TestSize(g, c, Locals(), functionIndex, 0);
      ok, site := GenerateTest(c);
      if ok { ok := GenerateBlock(t); }
    }

    /** The test gets the address behind the then-block. */
    method CloseIf(site: nat, ghost pre: Code, ghost test: Code, ghost thn: Code, ghost code: Code)
      requires instructions == pre + test + thn && |test| >= 2 && site + 2 == |pre| + |test| && test[|test| - 2].op == PUSH
      requires code == test[|test| - 2 := Push(|instructions|)] + thn
      modifies `instructions
      ensures instructions == pre + code
    {
      PatchInside(pre, test, |test| - 2, thn, Push(|instructions|));
      Patch(site, |instructions|);
      Regroup2(pre, test[|test| - 2 := Push(|old(instructions)|)], thn);
    }

    /** The jump over the else-block, both patches and the else-block itself. */
    method GenerateElse(b: seq<Stmt>, site: nat, ghost pre: Code, ghost test: Code, ghost thn: Code, ghost code: Code) returns (ok: bool)
      requires Faithful(g) && instructions == pre + test + thn && |test| >= 2 && site + 2 == |pre| + |test| && test[|test| - 2].op == PUSH
      requires var els := g.block(b, Locals(), functionIndex, |instructions| + 2, Loop(0, Head(loopStack)));
        code == test[|test| - 2 := Push(|instructions| + 2)] + thn + (JumpCode(|instructions| + 2 + |els|) + els)
      modifies `instructions, `localOffsets, `nextLocalOffset, `loopStack
      ensures ok == g.blockOk(b, old(Locals()), functionIndex, |old(loopStack)| > 0)
      ensures ok ==> instructions == pre + code
      ensures ok ==> Locals() == g.afterBlock(b, old(Locals()))
      ensures ok ==> loopStack == WithBreaks(old(loopStack), g.blockSites(b, |old(instructions)| + 2))
      decreases b, 4
    {
      var jump := |instructions|;
      ghost var k, els := |test| - 2, g.block(b, Locals(), functionIndex, jump + 2, Loop(0, Head(loopStack)));
      ghost var front := pre + test[k := Push(jump + 2)] + thn;
      OpenElse(site, jump, pre, test, k, thn);
      ok := GenerateBlock(b);
      if !ok { return; }
      CloseElse(jump, front, els);
      Assembled(pre, test[k := Push(jump + 2)], thn, JumpCode(jump + 2 + |els|), els, code);
    }

    method OpenElse(site: nat, jump: nat, ghost pre: Code, ghost test: Code, ghost k: nat, ghost thn: Code)
      requires instructions == pre + test + thn && k < |test| && site == |pre| + k && test[k].op == PUSH && jump == |instructions|
      modifies `instructions
      ensures instructions == pre + test[k := Push(jump + 2)] + thn + JumpCode(0)
    {
      ghost var x := instructions;
      EmitJump(0);
      OpenTest(pre, test, thn, JumpCode(0), k, Push(jump + 2), x, instructions);
      Patch(site, |instructions|);
    }

    method CloseElse(jump: nat, ghost front: Code, ghost els: Code)
      requires instructions == front + JumpCode(0) + els && jump == |front|
      modifies `instructions
      ensures instructions == front + JumpCode(|front| + 2 + |els|) + els
    {
      PatchInside(front, JumpCode(0), 0, els, Push(|instructions|));
      assert JumpCode(0)[0 := Push(|instructions|)] == JumpCode(|instructions|);
      Patch(jump, |instructions|);
    }

    /** The loop context collects the `break` placeholders of the body, which are patched with the loop's
        own exit once the end is known. */
    method GenerateWhile(s: Stmt) returns (ok: bool)
      requires s.While? && Faithful(g)
      modifies `instructions, `localOffsets, `nextLocalOffset, `loopStack
      ensures ok == g.stmtOk(s, old(Locals()), functionIndex, |old(loopStack)| > 0)
      ensures ok ==> instructions == old(instructions + g.stmt(s, Locals(), functionIndex, |instructions|, Loop(0, Head(loopStack))))
      ensures ok ==> Locals() == g.after(s, old(Locals()))
      ensures ok ==> loopStack == WithBreaks(old(loopStack), g.sites(s, |old(instructions)|))
      decreases s, 1
    {
      ghost var sc, pre := Locals(), instructions;
      ghost var loop := Loop(0, Head(loopStack));
      var loopStart := |instructions|;
      WhileScope(g, s, sc, functionIndex, |loopStack| > 0, loopStart);
      WithBreaksTwice(loopStack, [], []);
      TestSize(g, s.cond, sc, functionIndex, 0);
      var site, breaks;
      ok, site := GenerateTest(s.cond);
      if !ok { return; }
      ok, breaks := GenerateLoopBody(s.body, loopStart);
      if !ok { return; }
      CloseLoop(s, site, loopStart, breaks, pre, sc, loop);
    }

    /** Test and body are there, with open targets. */
    method CloseLoop(s: Stmt, site: nat, loopStart: nat, breaks: seq<nat>, ghost pre: Code, ghost sc: Scope, ghost loop: Loop)
      requires s.While? && Faithful(g) && loopStart == |pre| && site + 2 == |pre| + g.testSize(s.cond) && breaks == g.blockSites(s.body, |pre| + g.testSize(s.cond))
      requires instructions == pre + g.test(s.cond, sc, functionIndex, 0) + g.block(s.body, sc, functionIndex, |pre| + g.testSize(s.cond), Loop(0, |pre|))
      modifies `instructions
      ensures instructions == pre + g.stmt(s, sc, functionIndex, |pre|, loop)
    {
      ghost var body := loopStart + g.testSize(s.cond);
      ghost var test, raw := g.test(s.cond, sc, functionIndex, 0), g.block(s.body, sc, functionIndex, body, Loop(0, loopStart));
      var loopEnd := |instructions| + 2;
      TestSize(g, s.cond, sc, functionIndex, 0);
      WhileFacts(g, s, sc, functionIndex, loopStart, loop, loopEnd);
      ghost var closed, done := test[|test| - 2 := Push(loopEnd)], g.block(s.body, sc, functionIndex, body, Loop(loopEnd, loopStart));
      JumpBack(site, loopStart, pre, test, |test| - 2, raw);
      PatchBreaks(s, breaks, loopEnd, pre + closed, sc, loopStart);
      Regroup(pre, closed, done, JumpCode(loopStart));
    }

    /** The jump back, and the target of the test, which is behind it. */
    method JumpBack(site: nat, loopStart: nat, ghost pre: Code, ghost test: Code, ghost k: nat, ghost raw: Code)
      requires instructions == pre + test + raw && k < |test| && site == |pre| + k && test[k].op == PUSH
      modifies `instructions
      ensures instructions == pre + test[k := Push(|old(instructions)| + 2)] + raw + JumpCode(loopStart)
    {
      ghost var x := instructions;
      EmitJump(loopStart);
      OpenTest(pre, test, raw, JumpCode(loopStart), k, Push(|instructions|), x, instructions);
      Patch(site, |instructions|);
    }

    method PatchBreaks(s: Stmt, sites: seq<nat>, target: nat, ghost front: Code, ghost sc: Scope, ghost at: nat)
      requires s.While? && Faithful(g) && |front| == at + g.testSize(s.cond) && sites == g.blockSites(s.body, |front|) && target == |instructions|
      requires instructions == front + g.block(s.body, sc, functionIndex, |front|, Loop(0, at)) + JumpCode(at)
      modifies `instructions
      ensures instructions == front + g.block(s.body, sc, functionIndex, |front|, Loop(target, at)) + JumpCode(at)
    {
      ghost var raw, done := g.block(s.body, sc, functionIndex, |front|, Loop(0, at)), g.block(s.body, sc, functionIndex, |front|, Loop(target, at));
      BreaksPatched(g, s, sc, functionIndex, at);
      SitesInside(raw, done, |front|, sites, target);
      PatchAll(sites, target);
      ApplyPatch(front, raw, done, JumpCode(at), instructions, sites, target);
    }

    /** The body under a loop context of its own; returns the placeholders it collected. */
    method GenerateLoopBody(ss: seq<Stmt>, loopStart: nat) returns (ok: bool, breaks: seq<nat>)
      requires Faithful(g)
      modifies `instructions, `localOffsets, `nextLocalOffset, `loopStack
      ensures ok == g.blockOk(ss, old(Locals()), functionIndex, true)
      ensures ok ==> instructions == old(instructions + g.block(ss, Locals(), functionIndex, |instructions|, Loop(0, loopStart)))
      ensures ok ==> Locals() == g.afterBlock(ss, old(Locals())) && loopStack == old(loopStack)
      ensures ok ==> breaks == g.blockSites(ss, |old(instructions)|)
      decreases ss, 4
    {
      breaks := [];
      loopStack := loopStack + [LoopContext(loopStart, [])];
      ok := GenerateBlock(ss);
      if !ok { return; }
      breaks := loopStack[|loopStack| - 1].breaks;
      loopStack := loopStack[..|loopStack| - 1];
    }

    method EmitJump(target: nat)
      modifies `instructions
      ensures instructions == old(instructions) + JumpCode(target)
    {
      EmitPush(target);
      Emit(JUMP);
    }

    method PatchAll(sites: seq<nat>, target: nat)
      requires forall a :: a in sites ==> a < |instructions|
      modifies `instructions
      ensures |instructions| == |old(instructions)|
      ensures forall i :: 0 <= i < |instructions| ==>
        instructions[i] == if i in sites then Instruction(old(instructions)[i].op, Some(Hex(target))) else old(instructions)[i]
    {
      var j := 0;
      while j < |sites|
        invariant 0 <= j <= |sites| && |instructions| == |old(instructions)|
        invariant forall i :: 0 <= i < |instructions| ==>
          instructions[i] == if i in sites[..j] then Instruction(old(instructions)[i].op, Some(Hex(target))) else old(instructions)[i]
      {
        assert sites[j] in sites;
        assert sites[..j + 1] == sites[..j] + [sites[j]];
        Patch(sites[j], target);
        j := j + 1;
      }
      assert sites[..j] == sites;
    }

    method GenerateBlock(ss: seq<Stmt>) returns (ok: bool)
      requires Faithful(g)
      modifies `instructions, `localOffsets, `nextLocalOffset, `loopStack
      ensures ok == g.blockOk(ss, old(Locals()), functionIndex, |old(loopStack)| > 0)
      ensures ok ==> instructions == old(instructions + g.block(ss, Locals(), functionIndex, |instructions|, Loop(0, Head(loopStack))))
      ensures ok ==> Locals() == g.afterBlock(ss, old(Locals()))
      ensures ok ==> loopStack == WithBreaks(old(loopStack), g.blockSites(ss, |old(instructions)|))
      decreases ss, 3
    {
      ghost var loop, inLoop := Loop(0, Head(loopStack)), |loopStack| > 0;
      ghost var goal := Progress(g, ss, instructions, Locals(), functionIndex, loopStack, loop, inLoop);
      ok := true;
      var i := 0;
      while i < |ss|
        invariant 0 <= i <= |ss| && ok
        invariant Head(loopStack) == loop.head && (|loopStack| > 0) == inLoop
        invariant Progress(g, ss[i..], instructions, Locals(), functionIndex, loopStack, loop, inLoop) == goal
      {
        assert ss[i..][0] == ss[i] && ss[i..][1..] == ss[i + 1..];
        ProgressStep(g, ss[i..], instructions, Locals(), functionIndex, loopStack, loop, inLoop);
        ok := GenerateStatement(ss[i]);
        if !ok { return; }
        i := i + 1;
      }
      assert ss[i..] == [];
      ProgressEnd(g, instructions, Locals(), functionIndex, loopStack, loop, inLoop);
    }

    // -------------------------------------------------------------- functions

    /** A function starts with fresh locals; the caller's are put back afterwards. */
    method GenerateFunctionDefinition(f: Function) returns (ok: bool)
      requires loopStack == [] && Faithful(g)
      modifies `instructions, `functionIndex, `localOffsets, `nextLocalOffset, `loopStack
      ensures ok == DefineOk(old(Image(instructions, functionIndex)), f)
      ensures ok ==> Image(instructions, functionIndex) == Define(old(Image(instructions, functionIndex)), f)
      ensures ok ==> Locals() == old(Locals()) && loopStack == []
    {
      if f.name in functionIndex { return true; }
      ghost var im := Image(instructions, functionIndex);
      functionIndex := functionIndex[f.name := |instructions|];
      var backLocals, backNext := localOffsets, nextLocalOffset;
      BindParameters(f.params);
      DefineFacts(g, im, f);
      ok := GenerateBlock(f.body);
      if !ok { return; }
      GenerateDefaultReturn();
      localOffsets, nextLocalOffset := backLocals, backNext;
    }

    method GenerateDefaultReturn()
      modifies `instructions
      ensures instructions == old(instructions + DefaultCode(instructions))
    {
      if |instructions| == 0 || instructions[|instructions| - 1].op != RETURN {
        EmitPush(0);
        Emit(RETURN);
      }
    }

    method BindParameters(ps: seq<string>)
      modifies `localOffsets, `nextLocalOffset
      ensures Locals() == ParamScope(ps)
    {
      localOffsets := map[];
      var i := 0;
      while i < |ps|
        invariant 0 <= i <= |ps|
        invariant localOffsets == ParamOffsets(ps, i)
      {
        localOffsets := localOffsets[ps[i] := i];
        i := i + 1;
      }
      nextLocalOffset := |ps|;
    }

    method GenerateFunctions(fs: seq<Function>) returns (ok: bool)
      requires loopStack == [] && Faithful(g)
      modifies `instructions, `functionIndex, `localOffsets, `nextLocalOffset, `loopStack
      ensures ok == DefineAllOk(old(Image(instructions, functionIndex)), fs)
      ensures ok ==> Image(instructions, functionIndex) == DefineAll(old(Image(instructions, functionIndex)), fs) && loopStack == []
    {
      ghost var start := Image(instructions, functionIndex);
      ok := true;
      var i := 0;
      while i < |fs|
        invariant 0 <= i <= |fs| && ok && loopStack == []
        invariant DefineAllOk(Image(instructions, functionIndex), fs[i..]) == DefineAllOk(start, fs)
        invariant DefineAll(Image(instructions, functionIndex), fs[i..]) == DefineAll(start, fs)
      {
        assert fs[i..][0] == fs[i] && fs[i..][1..] == fs[i + 1..];
        ok := GenerateFunctionDefinition(fs[i]);
        if !ok { return; }
        i := i + 1;
      }
      assert fs[i..] == [];
    }

    // -------------------------------------------------------------- string literals

    method RegisterStringLiteral(s: Bytes) returns (a: nat)
      modifies `stringTable, `stringLiterals, `nextMemoryAddr
      ensures Literals() == Register(old(Literals()), s) && s in stringTable && a == stringTable[s]
    {
      if s in stringTable { return stringTable[s]; }
      a := nextMemoryAddr;
      nextMemoryAddr := nextMemoryAddr + 1 + Chunks(|s|);
      stringTable := stringTable[s := a];
      stringLiterals := stringLiterals + [s];
    }

    method GenerateStringInitialization()
      modifies `instructions
      ensures instructions == old(instructions) + InitCode(stringLiterals, stringTable)
    {
      ghost var goal := instructions + InitCode(stringLiterals, stringTable);
      var i := 0;
      while i < |stringLiterals|
        invariant 0 <= i <= |stringLiterals|
        invariant instructions + InitCode(stringLiterals[i..], stringTable) == goal
      {
        ghost var here, rest := instructions, stringLiterals[i..];
        var s := stringLiterals[i];
        var a := if s in stringTable then stringTable[s] else 0;
        GenerateLiteral(s, a);
        assert rest[0] == s && rest[1..] == stringLiterals[i + 1..];
        Regroup2(here, LiteralCode(s, a), InitCode(stringLiterals[i + 1..], stringTable));
        i := i + 1;
      }
      assert stringLiterals[i..] == [];
    }

    /** Length first, then the chunks. */
    method GenerateLiteral(s: Bytes, a: nat)
      modifies `instructions
      ensures instructions == old(instructions) + LiteralCode(s, a)
    {
      EmitPush(|s|);
      EmitPush(a);
      Emit(MSTORE);
      ghost var start := instructions;
      var i := 0;
      while i < Chunks(|s|)
        invariant 0 <= i <= Chunks(|s|)
        invariant instructions + ChunksCode(s, a, i) == start + ChunksCode(s, a, 0)
      {
        ghost var here := instructions;
        instructions := instructions + [Instruction(PUSH, Some(HexBytes(Chunk(s, i))))];
        EmitPush(a + 1 + i);
        Emit(MSTORE);
        assert instructions == here + ChunkCode(s, a, i);
        Regroup2(here, ChunkCode(s, a, i), ChunksCode(s, a, i + 1));
        i := i + 1;
      }
      assert instructions == start + ChunksCode(s, a, 0);
    }

    // -------------------------------------------------------------- the whole program

    /** Entry points and literal initialization, with open targets. */
    method GenerateHeader() returns (initPath: nat, initJump: nat, callPath: nat, callJump: nat)
      requires instructions == []
      modifies `instructions
      ensures instructions == RawHeader(InitCode(stringLiterals, stringTable))
      ensures var n := |InitCode(stringLiterals, stringTable)|; initPath == 4 && initJump == 4 + n && callPath == 6 + n && callJump == 6 + 2 * n
    {
      EmitJump(0);
      EmitJump(0);
      initPath := |instructions|;
      GenerateStringInitialization();
      initJump := |instructions|;
      EmitJump(0);
      ghost var half := instructions;
      callPath := |instructions|;
      GenerateStringInitialization();
      callJump := |instructions|;
      EmitJump(0);
      ghost var init := InitCode(stringLiterals, stringTable);
      assert half == JumpCode(0) + JumpCode(0) + (init + JumpCode(0));
      Regroup2(half, init, JumpCode(0));
    }

    method PatchHeader(initPath: nat, initJump: nat, callPath: nat, callJump: nat, initAddr: nat, callAddr: nat, ghost init: Code, ghost fs: Code)
      requires instructions == RawHeader(init) + fs
      requires initPath == 4 && initJump == 4 + |init| && callPath == 6 + |init| && callJump == 6 + 2 * |init|
      modifies `instructions
      ensures instructions == Header(init, initAddr, callAddr) + fs
    {
      ghost var n := |init|;
      assert instructions[0] == instructions[2] == instructions[4 + n] == instructions[6 + 2 * n] == Push(0);
      Patch(0, initPath);
      Patch(initJump, initAddr);
      Patch(2, callPath);
      Patch(callJump, callAddr);
    }

    /** The headers are patched once the functions have addresses. */
    method CodegenWithContext(ct: Contract) returns (ok: bool)
      requires instructions == [] && functionIndex == map[] && loopStack == [] && Faithful(g)
      modifies `instructions, `functionIndex, `localOffsets, `nextLocalOffset, `loopStack
      ensures ok == CompiledOk(Literals(), ct)
      ensures ok ==> Image(instructions, functionIndex) == Compiled(Literals(), ct)
    {
      ghost var raw := RawHeader(InitCode(stringLiterals, stringTable));
      var initPath, initJump, callPath, callJump := GenerateHeader();
      ok := GenerateFunctions(AllFunctions(ct));
      if !ok { return; }
      HaveAddresses(Image(raw, map[]), ct);
      PatchHeader(initPath, initJump, callPath, callJump, functionIndex[ct.init.name], functionIndex[ct.call.name],
                  InitCode(stringLiterals, stringTable), instructions[|raw|..]);
    }
  }

  lemma HaveAddresses(im: Image, ct: Contract)
    ensures var last := DefineAll(im, AllFunctions(ct));
      ct.init.name in last.index && ct.call.name in last.index && last.code == im.code + last.code[|im.code|..]
  {
    Members(ct);
    DefinesAll(im, AllFunctions(ct));
    PrefixSplit(im.code, DefineAll(im, AllFunctions(ct)).code);
  }

  lemma Members(ct: Contract)
    ensures ct.init in AllFunctions(ct) && ct.call in AllFunctions(ct)
  {
    assert AllFunctions(ct)[0] == ct.init && AllFunctions(ct)[|AllFunctions(ct)| - 1] == ct.call;
  }

  lemma PrefixSplit(x: Code, y: Code)
    requires x <= y
    ensures y == x + y[|x|..]
  {
  }

  lemma ArgsSplit(args: seq<Expr>, sc: Scope, fns: Index)
    requires args != []
    ensures ArgsCode(args, sc, fns) == ExprCode(args[0], sc, fns) + ArgsCode(args[1..], sc, fns)
  {
  }

  /** What generating the remaining statements `ss` will lead to. */
  datatype Outlook = Outlook(ok: bool, code: Code, scope: Scope, loops: seq<LoopContext>)

  function Progress(g: Spec, ss: seq<Stmt>, code: Code, sc: Scope, fns: Index, loops: seq<LoopContext>, loop: Loop, inLoop: bool): Outlook {
    Outlook(g.blockOk(ss, sc, fns, inLoop), code + g.block(ss, sc, fns, |code|, loop), g.afterBlock(ss, sc), WithBreaks(loops, g.blockSites(ss, |code|)))
  }

  lemma ProgressStep(g: Spec, ss: seq<Stmt>, code: Code, sc: Scope, fns: Index, loops: seq<LoopContext>, loop: Loop, inLoop: bool)
    requires Faithful(g) && ss != []
    ensures !g.stmtOk(ss[0], sc, fns, inLoop) ==> !Progress(g, ss, code, sc, fns, loops, loop, inLoop).ok
    ensures g.stmtOk(ss[0], sc, fns, inLoop) ==>
      Progress(g, ss, code, sc, fns, loops, loop, inLoop)
      == Progress(g, ss[1..], code + g.stmt(ss[0], sc, fns, |code|, loop), g.after(ss[0], sc), fns,
                  WithBreaks(loops, g.sites(ss[0], |code|)), loop, inLoop)
  {
    var one := g.stmt(ss[0], sc, fns, |code|, loop);
    var mid := |code| + |one|;
    BlockSplit(g, ss, sc, fns, |code|, loop, inLoop);
    Regroup2(code, one, g.block(ss[1..], g.after(ss[0], sc), fns, mid, loop));
    WithBreaksTwice(loops, g.sites(ss[0], |code|), g.blockSites(ss[1..], mid));
  }

  lemma ProgressEnd(g: Spec, code: Code, sc: Scope, fns: Index, loops: seq<LoopContext>, loop: Loop, inLoop: bool)
    requires Faithful(g)
    ensures Progress(g, [], code, sc, fns, loops, loop, inLoop) == Outlook(true, code, sc, loops)
  {
    BlockIs(g, [], sc, fns, |code|, loop, inLoop);
    WithBreaksTwice(loops, [], []);
    assert code + [] == code;
  }

  /** The record and module Codegen say the same of a block, ... */
  lemma BlockIs(g: Spec, ss: seq<Stmt>, sc: Scope, fns: Index, at: nat, loop: Loop, inLoop: bool)
    requires Faithful(g)
    ensures g.blockOk(ss, sc, fns, inLoop) == BlockOk(ss, sc, fns, inLoop) && g.block(ss, sc, fns, at, loop) == BlockCode(ss, sc, fns, at, loop)
    ensures g.afterBlock(ss, sc) == AfterBlock(ss, sc) && g.blockSites(ss, at) == BlockSites(ss, at) && |g.block(ss, sc, fns, at, loop)| == BlockSize(ss)
  {
  }

  lemma CodeOf(g: Spec, ss: seq<Stmt>, sc: Scope, fns: Index, at: nat, loop: Loop)
    requires Faithful(g)
    ensures g.block(ss, sc, fns, at, loop) == BlockCode(ss, sc, fns, at, loop) && |BlockCode(ss, sc, fns, at, loop)| == BlockSize(ss)
    ensures g.afterBlock(ss, sc) == AfterBlock(ss, sc)
  {
    BlockIs(g, ss, sc, fns, at, loop, true);
  }

  /** ... of a statement ... */
  lemma SpecOf(g: Spec, s: Stmt, sc: Scope, fns: Index, at: nat, loop: Loop, inLoop: bool)
    requires Faithful(g)
    ensures g.stmtOk(s, sc, fns, inLoop) == StmtOk(s, sc, fns, inLoop) && g.stmt(s, sc, fns, at, loop) == StmtCode(s, sc, fns, at, loop)
    ensures g.after(s, sc) == After(s, sc) && g.sites(s, at) == BreakSites(s, at) && |g.stmt(s, sc, fns, at, loop)| == StmtSize(s)
  {
  }

  /** ... and of a test, whose open target is the second last instruction. */
  lemma TestIs(g: Spec, c: Expr, sc: Scope, fns: Index, target: nat)
    requires Faithful(g)
    ensures g.testOk(c, sc, fns) == ExprOk(c, sc, fns) && g.testSize(c) == ExprSize(c) + 3 && g.test(c, sc, fns, target) == TestCode(c, sc, fns, target)
  {
    assert g.testSize(c) == ExprSize(c) + 3;
  }

  lemma TestSize(g: Spec, c: Expr, sc: Scope, fns: Index, target: nat)
    requires Faithful(g)
    ensures |g.test(c, sc, fns, target)| == g.testSize(c) >= 3
  {
    TestIs(g, c, sc, fns, target);
  }

  lemma TestPatch(g: Spec, c: Expr, sc: Scope, fns: Index, target: nat)
    requires Faithful(g)
    ensures var test := g.test(c, sc, fns, 0);
      |test| == g.testSize(c) >= 3 && test[|test| - 2].op == PUSH && test[|test| - 2 := Push(target)] == g.test(c, sc, fns, target)
  {
    TestIs(g, c, sc, fns, 0);
    TestIs(g, c, sc, fns, target);
  }

  lemma BlockSplit(g: Spec, ss: seq<Stmt>, sc: Scope, fns: Index, at: nat, loop: Loop, inLoop: bool)
    requires Faithful(g) && ss != []
    ensures var one := g.stmt(ss[0], sc, fns, at, loop);
      && g.blockOk(ss, sc, fns, inLoop) == (g.stmtOk(ss[0], sc, fns, inLoop) && g.blockOk(ss[1..], g.after(ss[0], sc), fns, inLoop))
      && g.block(ss, sc, fns, at, loop) == one + g.block(ss[1..], g.after(ss[0], sc), fns, at + |one|, loop)
      && g.blockSites(ss, at) == g.sites(ss[0], at) + g.blockSites(ss[1..], at + |one|)
      && g.afterBlock(ss, sc) == g.afterBlock(ss[1..], g.after(ss[0], sc))
  {
    BlockIs(g, ss, sc, fns, at, loop, inLoop);
    SpecOf(g, ss[0], sc, fns, at, loop, inLoop);
    BlockIs(g, ss[1..], After(ss[0], sc), fns, at + StmtSize(ss[0]), loop, inLoop);
  }

  lemma DefineFacts(g: Spec, im: Image, f: Function)
    requires Faithful(g) && f.name !in im.index
    ensures var ix, ps := im.index[f.name := |im.code|], ParamScope(f.params);
      && DefineOk(im, f) == g.blockOk(f.body, ps, ix, false)
      && var body := im.code + g.block(f.body, ps, ix, |im.code|, Loop(0, 0));
      Define(im, f) == Image(body + DefaultCode(body), ix) && WithBreaks([], g.blockSites(f.body, |im.code|)) == []
  {
    BlockIs(g, f.body, ParamScope(f.params), im.index[f.name := |im.code|], |im.code|, Loop(0, 0), false);
  }

  // ---------------------------------------------------------------- the parts of compound statements

  lemma IfScope(g: Spec, s: Stmt, sc: Scope, fns: Index, inLoop: bool)
    requires Faithful(g) && s.If?
    ensures var mid := g.afterBlock(s.thenBlock, sc);
      && g.stmtOk(s, sc, fns, inLoop) == (g.testOk(s.cond, sc, fns) && g.blockOk(s.thenBlock, sc, fns, inLoop)
                                          && (s.elseBlock.Else? ==> g.blockOk(s.elseBlock.block, mid, fns, inLoop)))
      && g.after(s, sc) == if s.elseBlock.NoElse? then mid else g.afterBlock(s.elseBlock.block, mid)
  {
    SpecOf(g, s, sc, fns, 0, Loop(0, 0), inLoop);
    TestIs(g, s.cond, sc, fns, 0);
    BlockIs(g, s.thenBlock, sc, fns, 0, Loop(0, 0), inLoop);
    if s.elseBlock.Else? { BlockIs(g, s.elseBlock.block, AfterBlock(s.thenBlock, sc), fns, 0, Loop(0, 0), inLoop); }
  }

  lemma IfBreaks(g: Spec, s: Stmt, sc: Scope, fns: Index, at: nat, loop: Loop, loops: seq<LoopContext>)
    requires Faithful(g) && s.If?
    ensures var body := at + g.testSize(s.cond);
      var n := |g.block(s.thenBlock, sc, fns, body, loop)|;
      var first := WithBreaks(loops, g.blockSites(s.thenBlock, body));
      WithBreaks(loops, g.sites(s, at)) ==
      if s.elseBlock.NoElse? then first else WithBreaks(first, g.blockSites(s.elseBlock.block, body + n + 2))
  {
    var body := at + g.testSize(s.cond);
    var sites, n := g.blockSites(s.thenBlock, body), |g.block(s.thenBlock, sc, fns, body, loop)|;
    ThenSize(g, s, sc, fns, body, loop);
    IfSites(g, s, at, n);
    if s.elseBlock.Else? { WithBreaksTwice(loops, sites, g.blockSites(s.elseBlock.block, body + n + 2)); }
  }

  lemma IfSites(g: Spec, s: Stmt, at: nat, n: nat)
    requires Faithful(g) && s.If? && n == BlockSize(s.thenBlock)
    ensures var body := at + g.testSize(s.cond);
      var sites := g.blockSites(s.thenBlock, body);
      g.sites(s, at) == if s.elseBlock.NoElse? then sites else sites + g.blockSites(s.elseBlock.block, body + n + 2)
  {
    assert g.testSize(s.cond) == ExprSize(s.cond) + 3;
    var body := at + ExprSize(s.cond) + 3;
    var sites := BlockSites(s.thenBlock, body);
    assert g.sites(s, at) == BreakSites(s, at) && g.blockSites(s.thenBlock, body) == sites;
    assert BreakSites(s, at) == sites + ElseSites(s.elseBlock, body + n);
    if s.elseBlock.NoElse? {
      assert sites + [] == sites;
    } else {
      assert g.blockSites(s.elseBlock.block, body + n + 2) == BlockSites(s.elseBlock.block, body + n + 2);
    }
  }

  lemma ThenSize(g: Spec, s: Stmt, sc: Scope, fns: Index, at: nat, loop: Loop)
    requires Faithful(g) && s.If?
    ensures |g.block(s.thenBlock, sc, fns, at, loop)| == BlockSize(s.thenBlock)
  {
    BlockIs(g, s.thenBlock, sc, fns, at, loop, true);
  }

  /** The code of a conditional, with its open test patched. */
  lemma IfFacts(g: Spec, s: Stmt, sc: Scope, fns: Index, at: nat, loop: Loop)
    requires Faithful(g) && s.If?
    ensures var test, thn := g.test(s.cond, sc, fns, 0), g.block(s.thenBlock, sc, fns, at + g.testSize(s.cond), loop);
      var end := at + |test| + |thn|;
      && |test| == g.testSize(s.cond) >= 3 && test[|test| - 2].op == PUSH
      && (s.elseBlock.NoElse? ==> g.stmt(s, sc, fns, at, loop) == test[|test| - 2 := Push(end)] + thn)
      && (s.elseBlock.Else? ==>
            var els := g.block(s.elseBlock.block, g.afterBlock(s.thenBlock, sc), fns, end + 2, loop);
            g.stmt(s, sc, fns, at, loop) == test[|test| - 2 := Push(end + 2)] + thn + (JumpCode(end + 2 + |els|) + els))
  {
    var rest := at + g.testSize(s.cond) + |g.block(s.thenBlock, sc, fns, at + g.testSize(s.cond), loop)|;
    if s.elseBlock.NoElse? {
      TestPatch(g, s.cond, sc, fns, rest);
      IfShape(g, s, sc, fns, at, loop);
    } else {
      TestPatch(g, s.cond, sc, fns, rest + 2);
      IfElseShape(g, s, sc, fns, at, loop, g.block(s.thenBlock, sc, fns, at + g.testSize(s.cond), loop), rest,
                  g.block(s.elseBlock.block, g.afterBlock(s.thenBlock, sc), fns, rest + 2, loop));
    }
  }

  lemma IfShape(g: Spec, s: Stmt, sc: Scope, fns: Index, at: nat, loop: Loop)
    requires Faithful(g) && s.If? && s.elseBlock.NoElse?
    ensures var thn := g.block(s.thenBlock, sc, fns, at + g.testSize(s.cond), loop);
      g.stmt(s, sc, fns, at, loop) == g.test(s.cond, sc, fns, at + g.testSize(s.cond) + |thn|) + thn
  {
    var body := at + ExprSize(s.cond) + 3;
    var rest := body + BlockSize(s.thenBlock);
    SpecOf(g, s, sc, fns, at, loop, true);
    BlockIs(g, s.thenBlock, sc, fns, body, loop, true);
    TestIs(g, s.cond, sc, fns, rest);
    NoElseCode(TestCode(s.cond, sc, fns, rest), BlockCode(s.thenBlock, sc, fns, body, loop));
    assert StmtCode(s, sc, fns, at, loop) == IfCode(s, sc, fns, at, loop);
  }

  lemma NoElseCode(test: Code, thn: Code)
    ensures test + thn + [] == test + thn
  {
  }

  lemma IfElseShape(g: Spec, s: Stmt, sc: Scope, fns: Index, at: nat, loop: Loop, thn: Code, rest: nat, els: Code)
    requires Faithful(g) && s.If? && s.elseBlock.Else?
    requires thn == g.block(s.thenBlock, sc, fns, at + g.testSize(s.cond), loop) && rest == at + g.testSize(s.cond) + |thn|
    requires els == g.block(s.elseBlock.block, g.afterBlock(s.thenBlock, sc), fns, rest + 2, loop)
    ensures g.stmt(s, sc, fns, at, loop) == g.test(s.cond, sc, fns, rest + 2) + thn + (JumpCode(rest + 2 + |els|) + els)
  {
    IfElseSpec(g, s, sc, fns, at, loop, rest);
    IfCodeIs(s, sc, fns, at, loop, rest, g.test(s.cond, sc, fns, rest + 2), thn, els);
  }

  lemma IfElseSpec(g: Spec, s: Stmt, sc: Scope, fns: Index, at: nat, loop: Loop, rest: nat)
    requires Faithful(g) && s.If? && s.elseBlock.Else?
    ensures g.testSize(s.cond) == ExprSize(s.cond) + 3 && g.test(s.cond, sc, fns, rest + 2) == TestCode(s.cond, sc, fns, rest + 2)
    ensures var body := at + g.testSize(s.cond);
      g.block(s.thenBlock, sc, fns, body, loop) == BlockCode(s.thenBlock, sc, fns, body, loop) && |g.block(s.thenBlock, sc, fns, body, loop)| == BlockSize(s.thenBlock)
    ensures var mid := AfterBlock(s.thenBlock, sc);
      g.afterBlock(s.thenBlock, sc) == mid && g.block(s.elseBlock.block, mid, fns, rest + 2, loop) == BlockCode(s.elseBlock.block, mid, fns, rest + 2, loop)
    ensures g.stmt(s, sc, fns, at, loop) == StmtCode(s, sc, fns, at, loop)
  {
    TestIs(g, s.cond, sc, fns, rest + 2);
    CodeOf(g, s.thenBlock, sc, fns, at + g.testSize(s.cond), loop);
    CodeOf(g, s.elseBlock.block, AfterBlock(s.thenBlock, sc), fns, rest + 2, loop);
    SpecOf(g, s, sc, fns, at, loop, true);
  }

  lemma IfCodeIs(s: Stmt, sc: Scope, fns: Index, at: nat, loop: Loop, rest: nat, test: Code, thn: Code, els: Code)
    requires s.If? && s.elseBlock.Else? && rest == at + ExprSize(s.cond) + 3 + BlockSize(s.thenBlock) && test == TestCode(s.cond, sc, fns, rest + 2)
    requires thn == BlockCode(s.thenBlock, sc, fns, at + ExprSize(s.cond) + 3, loop)
    requires els == BlockCode(s.elseBlock.block, AfterBlock(s.thenBlock, sc), fns, rest + 2, loop)
    ensures StmtCode(s, sc, fns, at, loop) == test + thn + (JumpCode(rest + 2 + |els|) + els)
  {
    var e := ElseCode(s.elseBlock, AfterBlock(s.thenBlock, sc), fns, rest, loop);
    assert e == JumpCode(rest + 2 + |els|) + els by { ElseCodeIs(s.elseBlock.block, AfterBlock(s.thenBlock, sc), fns, rest, loop); }
    IfCodeParts(s, sc, fns, at, loop, rest, test, thn);
  }

  lemma ElseCodeIs(b: seq<Stmt>, sc: Scope, fns: Index, at: nat, loop: Loop)
    ensures ElseCode(Else(b), sc, fns, at, loop) == JumpCode(at + 2 + BlockSize(b)) + BlockCode(b, sc, fns, at + 2, loop)
    ensures |BlockCode(b, sc, fns, at + 2, loop)| == BlockSize(b)
  {
  }

  lemma IfCodeParts(s: Stmt, sc: Scope, fns: Index, at: nat, loop: Loop, rest: nat, test: Code, thn: Code)
    requires s.If? && s.elseBlock.Else? && rest == at + ExprSize(s.cond) + 3 + BlockSize(s.thenBlock) && test == TestCode(s.cond, sc, fns, rest + 2)
    requires thn == BlockCode(s.thenBlock, sc, fns, at + ExprSize(s.cond) + 3, loop)
    ensures StmtCode(s, sc, fns, at, loop) == test + thn + ElseCode(s.elseBlock, AfterBlock(s.thenBlock, sc), fns, rest, loop)
  {
  }

  lemma WhileScope(g: Spec, s: Stmt, sc: Scope, fns: Index, inLoop: bool, at: nat)
    requires Faithful(g) && s.While?
    ensures g.stmtOk(s, sc, fns, inLoop) == (g.testOk(s.cond, sc, fns) && g.blockOk(s.body, sc, fns, true))
    ensures g.after(s, sc) == g.afterBlock(s.body, sc) && g.sites(s, at) == []
  {
    SpecOf(g, s, sc, fns, at, Loop(0, 0), inLoop);
    TestIs(g, s.cond, sc, fns, 0);
    BlockIs(g, s.body, sc, fns, 0, Loop(0, 0), true);
  }

  /** The code of a loop, with its open test patched. */
  lemma WhileFacts(g: Spec, s: Stmt, sc: Scope, fns: Index, at: nat, loop: Loop, exit: nat)
    requires Faithful(g) && s.While? && exit == at + g.testSize(s.cond) + |g.block(s.body, sc, fns, at + g.testSize(s.cond), Loop(0, at))| + 2
    ensures var test := g.test(s.cond, sc, fns, 0);
      && |test| == g.testSize(s.cond) >= 3 && test[|test| - 2].op == PUSH
      && g.stmt(s, sc, fns, at, loop) == test[|test| - 2 := Push(exit)] + g.block(s.body, sc, fns, at + g.testSize(s.cond), Loop(exit, at)) + JumpCode(at)
  {
    TestPatch(g, s.cond, sc, fns, exit);
    WhileShape(g, s, sc, fns, at, loop);
  }

  lemma WhileShape(g: Spec, s: Stmt, sc: Scope, fns: Index, at: nat, loop: Loop)
    requires Faithful(g) && s.While?
    ensures var body := at + g.testSize(s.cond);
      var exit := body + |g.block(s.body, sc, fns, body, Loop(0, at))| + 2;
      g.stmt(s, sc, fns, at, loop) == g.test(s.cond, sc, fns, exit) + g.block(s.body, sc, fns, body, Loop(exit, at)) + JumpCode(at)
  {
    var body := at + ExprSize(s.cond) + 3;
    var exit := body + BlockSize(s.body) + 2;
    SpecOf(g, s, sc, fns, at, loop, true);
    BlockIs(g, s.body, sc, fns, body, Loop(0, at), true);
    BlockIs(g, s.body, sc, fns, body, Loop(exit, at), true);
    TestIs(g, s.cond, sc, fns, exit);
    assert StmtCode(s, sc, fns, at, loop) == WhileCode(s, sc, fns, at);
  }

  lemma BreaksPatched(g: Spec, s: Stmt, sc: Scope, fns: Index, at: nat)
    requires Faithful(g) && s.While?
    ensures var body := at + g.testSize(s.cond);
      var raw := g.block(s.body, sc, fns, body, Loop(0, at));
      var exit := body + |raw| + 2;
      Patched(raw, g.block(s.body, sc, fns, body, Loop(exit, at)), body, g.blockSites(s.body, body), exit)
  {
    var body := at + g.testSize(s.cond);
    BlockIs(g, s.body, sc, fns, body, Loop(0, at), true);
    var exit := body + BlockSize(s.body) + 2;
    BlockIs(g, s.body, sc, fns, body, Loop(exit, at), true);
    PatchBlock(s.body, sc, fns, body, at, exit);
  }

  lemma Assembled(pre: Code, test: Code, thn: Code, jump: Code, els: Code, x: Code)
    requires x == test + thn + (jump + els)
    ensures pre + x == pre + test + thn + jump + els
  {
  }

  /** Code that ends in `jump`, with the open test in the middle patched. */
  lemma OpenTest(pre: Code, test: Code, raw: Code, jump: Code, k: nat, ins: Instruction, x: Code, y: Code)
    requires k < |test| && x == pre + test + raw && y == x + jump
    ensures |pre| + k < |y| && y[|pre| + k] == test[k] && y[|pre| + k := ins] == pre + test[k := ins] + raw + jump
  {
  }

  lemma Regroup(a: Code, b: Code, c: Code, d: Code)
    ensures a + (b + c + d) == a + b + c + d
  {
  }

  lemma Regroup2(a: Code, b: Code, c: Code)
    ensures a + (b + c) == a + b + c
  {
  }

  // ---------------------------------------------------------------- patches

  /** One instruction inside the middle of three pieces. */
  lemma PatchInside(pre: Code, mid: Code, k: nat, post: Code, ins: Instruction)
    requires k < |mid|
    ensures (pre + mid + post)[|pre| + k] == mid[k]
    ensures (pre + mid + post)[|pre| + k := ins] == pre + mid[k := ins] + post
  {
  }

  lemma ApplyPatch(pre: Code, raw: Code, done: Code, post: Code, x: Code, sites: seq<nat>, exit: nat)
    requires Patched(raw, done, |pre|, sites, exit) && |x| == |pre + raw + post|
    requires forall i :: 0 <= i < |x| ==>
      x[i] == if i in sites then Instruction((pre + raw + post)[i].op, Some(Hex(exit))) else (pre + raw + post)[i]
    ensures x == pre + done + post
  {
    var y := pre + done + post;
    forall i: nat | i < |x| ensures x[i] == y[i] {
      assert Site(sites, i) <==> i in sites;
      if |pre| <= i < |pre| + |raw| {
        assert Ins(done, i - |pre|) == done[i - |pre|] == y[i] && Ins(raw, i - |pre|) == raw[i - |pre|];
      }
    }
  }

  lemma SitesInside(raw: Code, done: Code, at: nat, sites: seq<nat>, exit: nat)
    requires Patched(raw, done, at, sites, exit)
    ensures forall a :: a in sites ==> at <= a < at + |raw|
  {
    forall a | a in sites ensures at <= a < at + |raw| { assert Site(sites, a); }
  }
}
