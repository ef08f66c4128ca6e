/** Compiled code in place. `ExprAt`, `StmtAt` and `BlockAt` say what the program memory looks like at an
    address, jump by jump, without mentioning code as a list; `PlacedBlock` shows that code the
    compiler emitted looks that way. */
module Layout {
  import opened Text
  import opened Bytecode
  import opened Ast
  import opened Names
  import opened Codegen

  predicate InsAt(p: Code, a: int, ins: Instruction) { 0 <= a < |p| && p[a] == ins }

  predicate JumpAt(p: Code, a: int, target: int) {
    InsAt(p, a, Push(if target >= 0 then target else 0)) && InsAt(p, a + 1, Op(JUMP)) && 0 <= target < |p|
  }

  /** Every path through the statements ends in a return. */
  predicate MustReturn(ss: seq<Stmt>)
    decreases ss, 0
  {
    ss != [] && MustReturnLast(ss[|ss| - 1])
  }

  predicate MustReturnLast(s: Stmt)
    decreases s, 1
  {
    match s
    case Return(_) => true
    case If(_, t, Else(e)) => MustReturn(t) && MustReturn(e)
    case _ => false
  }

  /** `full` gives the offset of every local of the function. */
  predicate ExprAt(p: Code, e: Expr, full: Scope, fns: Index, a: int)
    decreases e
  {
    match e
    case Number(n) => InsAt(p, a, PushLiteral(n))
    case Identifier(x) =>
      ContextOpcode(x).None? ==> x in full.offsets && InsAt(p, a, Push(full.offsets[x])) && InsAt(p, a + 1, Op(LOAD_LOCAL))
    case Binary(op, l, r) =>
      ExprAt(p, l, full, fns, a) && ExprAt(p, r, full, fns, a + ExprSize(l)) && OperatorAt(p, op, a + ExprSize(l) + ExprSize(r))
    case Unary(op, x) => ExprAt(p, x, full, fns, a) && UnaryAt(p, op, a + ExprSize(x))
    case Call(f, args) =>
      |args| > 0 ==> CallExprAt(p, f, args, full, fns, a)
    case _ => false
  }

  /** The parts of a call in place; what a built-in name compiles to is of no interest here. */
  predicate CallExprAt(p: Code, f: Callee, args: seq<Expr>, full: Scope, fns: Index, a: int)
    requires |args| > 0
    decreases args, 0
  {
    if f.EmitFn? && |args| == 1 then ExprAt(p, args[0], full, fns, a) && InsAt(p, a + ExprSize(args[0]), Op(EMIT))
    else |args| == 2 && !(f.Named? && !BuiltinOf(f.name).Ordinary?) ==>
      && ExprAt(p, args[0], full, fns, a) && ExprAt(p, args[1], full, fns, a + ExprSize(args[0]))
      && f.Named? && CallAt(p, f.name, fns, a + ExprSize(args[0]) + ExprSize(args[1]))
  }

  predicate CallAt(p: Code, f: string, fns: Index, a: int) {
    f in fns && InsAt(p, a, Push(fns[f])) && InsAt(p, a + 1, Op(CALL))
  }

  predicate OperatorAt(p: Code, op: BinaryOp, a: int) {
    var c := OperatorCode(op);
    c != [] && InsAt(p, a, c[0]) && (|c| > 1 ==> InsAt(p, a + 1, c[1]))
  }

  predicate UnaryAt(p: Code, op: UnaryOp, a: int) {
    if op.Not? then InsAt(p, a, Op(ISZERO))
    else InsAt(p, a, Push(0)) && InsAt(p, a + 1, Push(1)) && InsAt(p, a + 2, Op(SWAP)) && InsAt(p, a + 3, Op(SUB))
  }

  predicate TestAt(p: Code, c: Expr, full: Scope, fns: Index, a: int, target: int) {
    && ExprAt(p, c, full, fns, a) && 0 <= target < |p|
    && InsAt(p, a + ExprSize(c), Op(ISZERO)) && InsAt(p, a + ExprSize(c) + 1, Push(target)) && InsAt(p, a + ExprSize(c) + 2, Op(JUMPC))
  }

  predicate StmtAt(p: Code, s: Stmt, full: Scope, fns: Index, a: int, loop: Loop)
    decreases s, 2
  {
    match s
    case Assign(x, e) =>
      && ExprAt(p, e, full, fns, a) && x in full.offsets
      && InsAt(p, a + ExprSize(e), Push(full.offsets[x])) && InsAt(p, a + ExprSize(e) + 1, Op(STORE_LOCAL))
    case Return(e) =>
      if e.Nil? then InsAt(p, a, Push(0)) && InsAt(p, a + 1, Op(RETURN))
      else ExprAt(p, e, full, fns, a) && InsAt(p, a + ExprSize(e), Op(RETURN))
    case If(_, _, _) => IfAt(p, s, full, fns, a, loop)
    case While(_, _) => WhileAt(p, s, full, fns, a)
    case Break => JumpAt(p, a, loop.exit)
    case Continue => JumpAt(p, a, loop.head)
    case Evaluate(e) => ExprAt(p, e, full, fns, a) && InsAt(p, a + ExprSize(e), Op(POP))
  }

  predicate IfAt(p: Code, s: Stmt, full: Scope, fns: Index, a: int, loop: Loop)
    requires s.If?
    decreases s, 1
  {
    var body := a + ExprSize(s.cond) + 3;
    var rest := body + BlockSize(s.thenBlock);
    && TestAt(p, s.cond, full, fns, a, rest + (if s.elseBlock.NoElse? then 0 else 2))
    && BlockAt(p, s.thenBlock, full, fns, body, loop)
    && ElseAt(p, s.thenBlock, s.elseBlock, full, fns, rest, loop)
  }

  /** The jump over the else-block is never taken when the then-block always returns. */
  predicate ElseAt(p: Code, t: seq<Stmt>, e: ElseBlock, full: Scope, fns: Index, a: int, loop: Loop)
    decreases e, 0
  {
    match e
    case NoElse => true
    case Else(b) => (MustReturn(t) || JumpAt(p, a, a + 2 + BlockSize(b))) && BlockAt(p, b, full, fns, a + 2, loop)
  }

  predicate WhileAt(p: Code, s: Stmt, full: Scope, fns: Index, a: int)
    requires s.While?
    decreases s, 1
  {
    var body := a + ExprSize(s.cond) + 3;
    var exit := body + BlockSize(s.body) + 2;
    && a >= 0 && TestAt(p, s.cond, full, fns, a, exit)
    && BlockAt(p, s.body, full, fns, body, Loop(exit, a)) && JumpAt(p, exit - 2, a)
  }

  predicate BlockAt(p: Code, ss: seq<Stmt>, full: Scope, fns: Index, a: int, loop: Loop)
    decreases ss, 3
  {
    ss != [] ==> StmtAt(p, ss[0], full, fns, a, loop) && BlockAt(p, ss[1..], full, fns, a + StmtSize(ss[0]), loop)
  }

  // ---------------------------------------------------------------- scopes

  ghost predicate Within(sc: Scope, full: Scope) {
    sc.next <= full.next && forall x :: x in sc.offsets ==> x in full.offsets && full.offsets[x] == sc.offsets[x]
  }

  /** Distinct locals have distinct offsets below `next`. */
  ghost predicate WellScoped(sc: Scope) {
    && (forall x :: x in sc.offsets ==> sc.offsets[x] < sc.next)
    && (forall x, y :: x in sc.offsets && y in sc.offsets && x != y ==> sc.offsets[x] != sc.offsets[y])
  }

  lemma {:induction false} AfterGrows(s: Stmt, sc: Scope)
    requires WellScoped(sc)
    ensures WellScoped(After(s, sc)) && Within(sc, After(s, sc))
    decreases s, 0
  {
    match s
    case If(_, t, e) =>
      AfterBlockGrows(t, sc);
      if e.Else? { AfterBlockGrows(e.block, AfterBlock(t, sc)); }
    case While(_, b) => AfterBlockGrows(b, sc);
    case _ =>
  }

  lemma {:induction false} AfterBlockGrows(ss: seq<Stmt>, sc: Scope)
    requires WellScoped(sc)
    ensures WellScoped(AfterBlock(ss, sc)) && Within(sc, AfterBlock(ss, sc))
    decreases ss, 1
  {
    if ss != [] {
      AfterGrows(ss[0], sc);
      AfterBlockGrows(ss[1..], After(ss[0], sc));
    }
  }

  // ---------------------------------------------------------------- emitted code is in place

  ghost predicate Placed(p: Code, a: int, code: Code) {
    0 <= a && a + |code| <= |p| && forall i {:trigger code[i]} :: 0 <= i < |code| ==> p[a + i] == code[i]
  }

  lemma Split(p: Code, a: int, x: Code, y: Code)
    requires Placed(p, a, x + y)
    ensures Placed(p, a, x) && Placed(p, a + |x|, y)
  {
    forall i | 0 <= i < |x| ensures p[a + i] == x[i] { assert (x + y)[i] == x[i]; }
    forall i | 0 <= i < |y| ensures p[a + |x| + i] == y[i] { assert (x + y)[|x| + i] == y[i]; }
  }

  lemma Split3(p: Code, a: int, x: Code, y: Code, z: Code)
    requires Placed(p, a, x + y + z)
    ensures Placed(p, a, x) && Placed(p, a + |x|, y) && Placed(p, a + |x| + |y|, z)
  {
    Split(p, a, x + y, z);
    Split(p, a, x, y);
  }

  lemma Fetch(p: Code, a: int, code: Code, i: nat)
    requires Placed(p, a, code) && i < |code|
    ensures InsAt(p, a + i, code[i])
  {
  }

  lemma Fetch2(p: Code, a: int, code: Code)
    requires Placed(p, a, code) && |code| == 2
    ensures InsAt(p, a, code[0]) && InsAt(p, a + 1, code[1])
  {
    Fetch(p, a, code, 0);
    Fetch(p, a, code, 1);
  }

  lemma {:induction false} PlacedExpr(p: Code, e: Expr, sc: Scope, full: Scope, fns: Index, a: int)
    requires Placed(p, a, ExprCode(e, sc, fns)) && ExprOk(e, sc, fns) && Within(sc, full)
    ensures ExprAt(p, e, full, fns, a)
    decreases e, 2
  {
    if e.Number? {
      Fetch(p, a, ExprCode(e, sc, fns), 0);
    } else if e.Identifier? {
      if ContextOpcode(e.name).None? { Fetch2(p, a, ExprCode(e, sc, fns)); }
    } else if e.Binary? {
      PlacedBinary(p, e, sc, full, fns, a);
    } else if e.Unary? {
      Split(p, a, ExprCode(e.operand, sc, fns), UnaryCode(e.uop));
      PlacedExpr(p, e.operand, sc, full, fns, a);
      PlacedUnary(p, e.uop, a + ExprSize(e.operand));
    } else {
      Split(p, a, ArgsCode(e.args, sc, fns), CallCode(e.callee, fns));
      if e.callee.EmitFn? { PlacedEmit(p, e, sc, full, fns, a); } else if |e.args| == 2 && BuiltinOf(e.callee.name).Ordinary? { PlacedCall(p, e, sc, full, fns, a); }
    }
  }

  lemma {:induction false} PlacedBinary(p: Code, e: Expr, sc: Scope, full: Scope, fns: Index, a: int)
    requires e.Binary? && Placed(p, a, ExprCode(e, sc, fns)) && ExprOk(e, sc, fns) && Within(sc, full)
    ensures ExprAt(p, e, full, fns, a)
    decreases e, 1
  {
    var l, r := e.lhs, e.rhs;
    Split3(p, a, ExprCode(l, sc, fns), ExprCode(r, sc, fns), OperatorCode(e.op));
    assert OperatorAt(p, e.op, a + ExprSize(l) + ExprSize(r)) by { PlacedOperator(p, e.op, a + ExprSize(l) + ExprSize(r)); }
    PlacedExpr(p, l, sc, full, fns, a);
    PlacedExpr(p, r, sc, full, fns, a + ExprSize(l));
  }

  lemma PlacedOperator(p: Code, op: BinaryOp, a: int)
    requires Placed(p, a, OperatorCode(op)) && OperatorCode(op) != []
    ensures OperatorAt(p, op, a)
  {
    Fetch(p, a, OperatorCode(op), 0);
    if |OperatorCode(op)| > 1 { Fetch(p, a, OperatorCode(op), 1); }
  }

  lemma PlacedUnary(p: Code, op: UnaryOp, a: int)
    requires Placed(p, a, UnaryCode(op))
    ensures UnaryAt(p, op, a)
  {
    Fetch(p, a, UnaryCode(op), 0);
    if op.Negate? {
      Fetch(p, a, UnaryCode(op), 1);
      Fetch(p, a, UnaryCode(op), 2);
      Fetch(p, a, UnaryCode(op), 3);
    }
  }

  lemma OneArg(args: seq<Expr>, sc: Scope, fns: Index)
    requires |args| == 1
    ensures ArgsCode(args, sc, fns) == ExprCode(args[0], sc, fns) && ArgsSize(args) == ExprSize(args[0])
  {
    assert args[1..] == [];
  }

  lemma TwoArgs(args: seq<Expr>, sc: Scope, fns: Index)
    requires |args| == 2
    ensures ArgsCode(args, sc, fns) == ExprCode(args[0], sc, fns) + ExprCode(args[1], sc, fns)
    ensures ArgsSize(args) == ExprSize(args[0]) + ExprSize(args[1])
  {
    OneArg(args[1..], sc, fns);
  }

  lemma {:induction false} PlacedEmit(p: Code, e: Expr, sc: Scope, full: Scope, fns: Index, a: int)
    requires e.Call? && e.callee.EmitFn? && ExprOk(e, sc, fns) && Within(sc, full)
    requires Placed(p, a, ArgsCode(e.args, sc, fns)) && Placed(p, a + ArgsSize(e.args), CallCode(e.callee, fns))
    ensures ExprAt(p, e, full, fns, a)
    decreases e, 1
  {
    OneArg(e.args, sc, fns);
    PlacedExpr(p, e.args[0], sc, full, fns, a);
    Fetch(p, a + ArgsSize(e.args), CallCode(e.callee, fns), 0);
  }

  lemma {:induction false} PlacedCall(p: Code, e: Expr, sc: Scope, full: Scope, fns: Index, a: int)
    requires e.Call? && e.callee.Named? && BuiltinOf(e.callee.name).Ordinary? && |e.args| == 2 && ExprOk(e, sc, fns) && Within(sc, full)
    requires Placed(p, a, ArgsCode(e.args, sc, fns)) && Placed(p, a + ArgsSize(e.args), CallCode(e.callee, fns))
    ensures ExprAt(p, e, full, fns, a)
    decreases e, 1
  {
    var x, y := e.args[0], e.args[1];
    CallPlaces(p, e, sc, fns, a);
    PlacedExpr(p, x, sc, full, fns, a);
    PlacedExpr(p, y, sc, full, fns, a + ExprSize(x));
  }

  lemma CallPlaces(p: Code, e: Expr, sc: Scope, fns: Index, a: int)
    requires e.Call? && e.callee.Named? && BuiltinOf(e.callee.name).Ordinary? && |e.args| == 2 && e.callee.name in fns
    requires Placed(p, a, ArgsCode(e.args, sc, fns)) && Placed(p, a + ArgsSize(e.args), CallCode(e.callee, fns))
    ensures Placed(p, a, ExprCode(e.args[0], sc, fns)) && Placed(p, a + ExprSize(e.args[0]), ExprCode(e.args[1], sc, fns))
    ensures CallAt(p, e.callee.name, fns, a + ExprSize(e.args[0]) + ExprSize(e.args[1]))
  {
    TwoArgs(e.args, sc, fns);
    Split(p, a, ExprCode(e.args[0], sc, fns), ExprCode(e.args[1], sc, fns));
    Fetch2(p, a + ArgsSize(e.args), CallCode(e.callee, fns));
  }

  lemma PlacedTest(p: Code, c: Expr, sc: Scope, full: Scope, fns: Index, a: int, target: nat)
    requires Placed(p, a, TestCode(c, sc, fns, target)) && ExprOk(c, sc, fns) && Within(sc, full) && target < |p|
    ensures TestAt(p, c, full, fns, a, target)
  {
    PlacedExprThen(p, a, ExprCode(c, sc, fns), target);
    PlacedExpr(p, c, sc, full, fns, a);
  }

  lemma PlacedExprThen(p: Code, a: int, code: Code, target: nat)
    requires Placed(p, a, code + [Op(ISZERO), Push(target), Op(JUMPC)])
    ensures Placed(p, a, code) && InsAt(p, a + |code|, Op(ISZERO)) && InsAt(p, a + |code| + 1, Push(target)) && InsAt(p, a + |code| + 2, Op(JUMPC))
  {
    var tail := [Op(ISZERO), Push(target), Op(JUMPC)];
    Split(p, a, code, tail);
    Fetch(p, a + |code|, tail, 0);
    Fetch(p, a + |code|, tail, 1);
    Fetch(p, a + |code|, tail, 2);
  }

  /** There is an instruction to fall through to, or none is needed. */
  predicate Guarded(p: Code, end: int, must: bool) { end < |p| || must }

  lemma {:induction false} PlacedStmt(p: Code, s: Stmt, sc: Scope, full: Scope, fns: Index, a: nat, loop: Loop, inLoop: bool)
    requires Placed(p, a, StmtCode(s, sc, fns, a, loop)) && StmtOk(s, sc, fns, inLoop)
    requires WellScoped(sc) && Within(After(s, sc), full) && Guarded(p, a + StmtSize(s), MustReturnLast(s))
    requires inLoop ==> loop.exit < |p| && loop.head < |p|
    ensures StmtAt(p, s, full, fns, a, loop)
    decreases s, 2
  {
    AfterGrows(s, sc);
    if s.If? {
      PlacedIf(p, s, sc, full, fns, a, loop, inLoop);
    } else if s.While? {
      PlacedWhile(p, s, sc, full, fns, a);
    } else if s.Break? {
      Fetch2(p, a, JumpCode(loop.exit));
    } else if s.Continue? {
      Fetch2(p, a, JumpCode(loop.head));
    } else {
      PlacedSimple(p, s, sc, full, fns, a, loop);
    }
  }

  lemma PlacedSimple(p: Code, s: Stmt, sc: Scope, full: Scope, fns: Index, a: nat, loop: Loop)
    requires s.Assign? || s.Return? || s.Evaluate?
    requires Placed(p, a, StmtCode(s, sc, fns, a, loop)) && StmtOk(s, sc, fns, false) && Within(sc, full) && Within(After(s, sc), full)
    ensures StmtAt(p, s, full, fns, a, loop)
  {
    if s.Assign? {
      var tail := [Push(Declare(sc, s.target).offsets[s.target]), Op(STORE_LOCAL)];
      Split(p, a, ExprCode(s.value, sc, fns), tail);
      PlacedExpr(p, s.value, sc, full, fns, a);
      Fetch2(p, a + ExprSize(s.value), tail);
    } else if s.Return? && s.result.Nil? {
      Fetch2(p, a, StmtCode(s, sc, fns, a, loop));
    } else {
      var e, tail := if s.Return? then s.result else s.expr, [Op(if s.Return? then RETURN else POP)];
      Split(p, a, ExprCode(e, sc, fns), tail);
      PlacedExpr(p, e, sc, full, fns, a);
      Fetch(p, a + ExprSize(e), tail, 0);
    }
  }

  lemma {:induction false} PlacedIf(p: Code, s: Stmt, sc: Scope, full: Scope, fns: Index, a: nat, loop: Loop, inLoop: bool)
    requires s.If? && Placed(p, a, IfCode(s, sc, fns, a, loop)) && StmtOk(s, sc, fns, inLoop)
    requires WellScoped(sc) && Within(After(s, sc), full) && Guarded(p, a + StmtSize(s), MustReturnLast(s))
    requires inLoop ==> loop.exit < |p| && loop.head < |p|
    ensures IfAt(p, s, full, fns, a, loop)
    decreases s, 1
  {
    var t, els, mid := s.thenBlock, s.elseBlock, AfterBlock(s.thenBlock, sc);
    var body := a + ExprSize(s.cond) + 3;
    var rest := body + BlockSize(t);
    var target := rest + (if els.NoElse? then 0 else 2);
    IfTarget(p, s, a);
    IfPlaces(p, s, sc, fns, a, loop, body, rest, target);
    IfScopes(s, sc, full);
    assert ElseAt(p, t, els, full, fns, rest, loop) by {
      if els.Else? { PlacedElse(p, t, els.block, mid, full, fns, rest, loop, inLoop); }
    }
    assert TestAt(p, s.cond, full, fns, a, target) by { PlacedTest(p, s.cond, sc, full, fns, a, target); }
    assert BlockAt(p, t, full, fns, body, loop) by { PlacedBlock(p, t, sc, full, fns, body, loop, inLoop); }
  }

  lemma IfPlaces(p: Code, s: Stmt, sc: Scope, fns: Index, a: nat, loop: Loop, body: nat, rest: nat, target: nat)
    requires s.If? && Placed(p, a, IfCode(s, sc, fns, a, loop))
    requires body == a + ExprSize(s.cond) + 3 && rest == body + BlockSize(s.thenBlock) && target == rest + (if s.elseBlock.NoElse? then 0 else 2)
    ensures Placed(p, a, TestCode(s.cond, sc, fns, target)) && Placed(p, body, BlockCode(s.thenBlock, sc, fns, body, loop))
    ensures Placed(p, rest, ElseCode(s.elseBlock, AfterBlock(s.thenBlock, sc), fns, rest, loop))
  {
    Split3(p, a, TestCode(s.cond, sc, fns, target), BlockCode(s.thenBlock, sc, fns, body, loop),
           ElseCode(s.elseBlock, AfterBlock(s.thenBlock, sc), fns, rest, loop));
  }

  lemma IfScopes(s: Stmt, sc: Scope, full: Scope)
    requires s.If? && WellScoped(sc) && Within(After(s, sc), full)
    ensures Within(sc, full) && WellScoped(AfterBlock(s.thenBlock, sc)) && Within(AfterBlock(s.thenBlock, sc), full)
    ensures s.elseBlock.Else? ==> Within(AfterBlock(s.elseBlock.block, AfterBlock(s.thenBlock, sc)), full)
  {
    var mid := AfterBlock(s.thenBlock, sc);
    AfterBlockGrows(s.thenBlock, sc);
    assert After(s, sc) == AfterElse(s.elseBlock, mid);
    if s.elseBlock.Else? {
      AfterBlockGrows(s.elseBlock.block, mid);
      assert AfterElse(s.elseBlock, mid) == AfterBlock(s.elseBlock.block, mid);
    }
  }

  /** There is an instruction at the target of a conditional. */
  lemma IfTarget(p: Code, s: Stmt, a: nat)
    requires s.If? && a + StmtSize(s) <= |p| && Guarded(p, a + StmtSize(s), MustReturnLast(s))
    ensures var rest := a + ExprSize(s.cond) + 3 + BlockSize(s.thenBlock);
      && rest + (if s.elseBlock.NoElse? then 0 else 2) < |p|
      && rest + ElseSize(s.elseBlock) == a + StmtSize(s)
      && (s.elseBlock.Else? ==> rest < |p| && Guarded(p, a + StmtSize(s), MustReturn(s.thenBlock) && MustReturn(s.elseBlock.block)))
  {
    assert StmtSize(s) == ExprSize(s.cond) + 3 + BlockSize(s.thenBlock) + ElseSize(s.elseBlock);
    match s.elseBlock
    case NoElse =>
    case Else(b) =>
      assert ElseSize(s.elseBlock) == 2 + BlockSize(b);
      if b != [] { NonEmpty(b); }
  }

  lemma {:induction false} PlacedElse(p: Code, t: seq<Stmt>, b: seq<Stmt>, sc: Scope, full: Scope, fns: Index, a: nat, loop: Loop, inLoop: bool)
    requires Placed(p, a, ElseCode(Else(b), sc, fns, a, loop)) && BlockOk(b, sc, fns, inLoop)
    requires WellScoped(sc) && Within(AfterBlock(b, sc), full) && Guarded(p, a + 2 + BlockSize(b), MustReturn(t) && MustReturn(b))
    requires inLoop ==> loop.exit < |p| && loop.head < |p|
    ensures ElseAt(p, t, Else(b), full, fns, a, loop)
    decreases b, 4
  {
    var jump := JumpCode(a + 2 + BlockSize(b));
    Split(p, a, jump, BlockCode(b, sc, fns, a + 2, loop));
    Fetch2(p, a, jump);
    PlacedBlock(p, b, sc, full, fns, a + 2, loop, inLoop);
  }

  lemma NonEmpty(ss: seq<Stmt>)
    requires ss != []
    ensures BlockSize(ss) > 0
  {
  }

  lemma WhilePlaces(p: Code, s: Stmt, sc: Scope, fns: Index, a: nat, body: nat, exit: nat)
    requires s.While? && Placed(p, a, WhileCode(s, sc, fns, a)) && body == a + ExprSize(s.cond) + 3 && exit == body + BlockSize(s.body) + 2
    ensures Placed(p, a, TestCode(s.cond, sc, fns, exit)) && Placed(p, body, BlockCode(s.body, sc, fns, body, Loop(exit, a))) && JumpAt(p, exit - 2, a)
  {
    Split3(p, a, TestCode(s.cond, sc, fns, exit), BlockCode(s.body, sc, fns, body, Loop(exit, a)), JumpCode(a));
    Fetch2(p, exit - 2, JumpCode(a));
  }

  lemma {:induction false} PlacedWhile(p: Code, s: Stmt, sc: Scope, full: Scope, fns: Index, a: nat)
    requires s.While? && Placed(p, a, WhileCode(s, sc, fns, a)) && StmtOk(s, sc, fns, false)
    requires WellScoped(sc) && Within(After(s, sc), full) && a + StmtSize(s) < |p|
    ensures WhileAt(p, s, full, fns, a)
    decreases s, 1
  {
    var body := a + ExprSize(s.cond) + 3;
    var exit := body + BlockSize(s.body) + 2;
    WhilePlaces(p, s, sc, fns, a, body, exit);
    AfterBlockGrows(s.body, sc);
    assert TestAt(p, s.cond, full, fns, a, exit) by { PlacedTest(p, s.cond, sc, full, fns, a, exit); }
    PlacedBlock(p, s.body, sc, full, fns, body, Loop(exit, a), true);
  }

  /** Code emitted for a block, at the address it was emitted for, is in place. */
  lemma {:induction false} PlacedBlock(p: Code, ss: seq<Stmt>, sc: Scope, full: Scope, fns: Index, a: nat, loop: Loop, inLoop: bool)
    requires Placed(p, a, BlockCode(ss, sc, fns, a, loop)) && BlockOk(ss, sc, fns, inLoop)
    requires WellScoped(sc) && Within(AfterBlock(ss, sc), full) && Guarded(p, a + BlockSize(ss), MustReturn(ss))
    requires inLoop ==> loop.exit < |p| && loop.head < |p|
    ensures BlockAt(p, ss, full, fns, a, loop)
    decreases ss, 3
  {
    if ss != [] {
      var s, mid := After(ss[0], sc), a + StmtSize(ss[0]);
      BlockPlaces(p, ss, sc, fns, a, loop);
      AfterGrows(ss[0], sc);
      AfterBlockGrows(ss[1..], s);
      BlockGuards(p, ss, a);
      if |ss| > 1 { PlacedBlock(p, ss[1..], s, full, fns, mid, loop, inLoop); }
      PlacedStmt(p, ss[0], sc, full, fns, a, loop, inLoop);
    }
  }

  lemma BlockPlaces(p: Code, ss: seq<Stmt>, sc: Scope, fns: Index, a: nat, loop: Loop)
    requires ss != [] && Placed(p, a, BlockCode(ss, sc, fns, a, loop))
    ensures Placed(p, a, StmtCode(ss[0], sc, fns, a, loop)) && a + BlockSize(ss) <= |p|
    ensures Placed(p, a + StmtSize(ss[0]), BlockCode(ss[1..], After(ss[0], sc), fns, a + StmtSize(ss[0]), loop))
  {
    Split(p, a, StmtCode(ss[0], sc, fns, a, loop), BlockCode(ss[1..], After(ss[0], sc), fns, a + StmtSize(ss[0]), loop));
  }

  /** Each statement of a guarded block is guarded. */
  lemma BlockGuards(p: Code, ss: seq<Stmt>, a: nat)
    requires ss != [] && a + BlockSize(ss) <= |p| && Guarded(p, a + BlockSize(ss), MustReturn(ss))
    ensures Guarded(p, a + StmtSize(ss[0]), MustReturnLast(ss[0]))
    ensures |ss| > 1 ==> Guarded(p, a + StmtSize(ss[0]) + BlockSize(ss[1..]), MustReturn(ss[1..]))
  {
    if |ss| > 1 {
      assert ss[1..][|ss| - 2] == ss[|ss| - 1];
      NonEmpty(ss[1..]);
    } else {
      assert ss[1..] == [];
    }
  }
}
