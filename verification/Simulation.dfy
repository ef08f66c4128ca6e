/** Compiler correctness: the code of a statement, run from its first address with the variables on
    the frame, does what the statement means. Gas and the stack limit are absent here; module
    Metering puts them back. */
module Simulation {
  import opened Text
  import opened Bytecode
  import opened Ast
  import opened Names
  import opened Codegen
  import opened Layout
  import opened Semantics
  import opened Avm
  import opened Runs
  import opened Instructions
  import Transitions
  import Words

  // ---------------------------------------------------------------- linked programs

  /** A program in memory: its code, the functions it was compiled from and where each one starts. */
  datatype Link = Link(p: Codegen.Code, mem: Memory, fs: Program, fns: Index, step: Stepper)

  lemma {:induction false} ParamsWellScoped(ps: seq<string>, n: nat)
    requires n <= |ps|
    ensures WellScoped(Scope(ParamOffsets(ps, n), n))
  {
    if n > 0 {
      ParamsWellScoped(ps, n - 1);
    }
  }

  /** Function `f` is compiled at `a`, and the end of its code is guarded: by the default return, or
      because its body cannot fall off. */
  ghost predicate Installed(k: Link, f: Function, a: nat) {
    && FullScope(f).next <= TWO63
    && BlockAt(k.p, f.body, FullScope(f), k.fns, a, Loop(0, 0))
    && (MustReturn(f.body) || (InsAt(k.p, a + BlockSize(f.body), Push(0)) && InsAt(k.p, a + BlockSize(f.body) + 1, Op(RETURN))))
  }

  /** CALL and RETURN serve functions of two parameters and no further locals. */
  predicate Callable(f: Function) { |f.params| == 2 ==> FullScope(f).next == 2 }

  /** The condition is exact: when a function of two parameters returns with all its locals on the stack, the caller gets its own
      stack back if and only if there are none beyond the parameters. */
  lemma CallableExactly(f: Function, vm: Vm, c: Core, base: seq<int>, frame: seq<int>, v: int)
    requires Transitions.Fetches(vm, c, Op(RETURN)) && vm.limit == 0 && c.rets != [] && c.stack == base + frame + [v]
    requires |f.params| == 2 && |frame| == FullScope(f).next
    ensures vm.step(c).Next? && (vm.step(c).core.stack == base + [v] <==> Callable(f))
  {
    Transitions.ReturnRestoresExactly(vm, c, base, frame, v);
    ParamsWellScoped(f.params, |f.params|);
    AfterBlockGrows(f.body, ParamScope(f.params));
  }

  ghost predicate Callee(k: Link, f: string) { f in k.fs }

  ghost predicate Linked(k: Link) {
    && Drives(k.step, k.p, k.mem)
    && |k.p| <= TWO63
    && forall f {:trigger Callee(k, f)} :: Callee(k, f) ==>
         Callable(k.fs[f]) && f in k.fns && k.fns[f] < TWO63 && Installed(k, k.fs[f], k.fns[f])
  }

  // ---------------------------------------------------------------- frames

  /** The stack holds the value of every assigned variable at its offset above the frame pointer. */
  ghost predicate Holds(st: seq<int>, fp: int, full: Scope, env: Env) {
    0 <= fp && forall x :: x in env ==> x in full.offsets && fp + full.offsets[x] < |st| && st[fp + full.offsets[x]] == env[x]
  }

  /** ... and nothing else lies above the frame pointer. */
  ghost predicate Frame(st: seq<int>, fp: int, full: Scope, env: Env) {
    Holds(st, fp, full, env) && fp <= |st| <= fp + full.next
  }

  /** A variable stored at its offset: the frame grows when it has to, and only that variable changes. */
  lemma StoreKeepsFrame(st: seq<int>, fp: int, full: Scope, env: Env, x: string, v: int)
    requires Frame(st, fp, full, env) && WellScoped(full) && x in full.offsets
    ensures var st' := Padded(st, fp + full.offsets[x] + 1)[fp + full.offsets[x] := v];
      Frame(st', fp, full, env[x := v]) && |st'| >= |st| && st'[..fp] == st[..fp]
  {
  }

  // ---------------------------------------------------------------- what a run has to reach

  function Pushed(c: Core, end: int, r: Res<int>): Core
    requires r.Done?
  {
    c.(stack := c.stack + [r.value], ic := end, out := c.out + r.out)
  }

  ghost predicate ExprRun(k: Link, c: Core, n: nat, r: Res<int>, end: int, fuel: nat) {
    match r
    case Done(v, o) => Goes(k.step, c, n, Pushed(c, end, r))
    case OutOfFuel => Iterate(k.step, c, n).Next? && n >= fuel
    case Wrong => true
  }

  /** State `d` is where a statement started in `c` has to end: at the next address, the loop exit, the
      loop head or a RETURN, with exactly the updated variables on the frame and no temporaries. */
  ghost predicate Landed(k: Link, c: Core, d: Core, s: Stop, o: Output, full: Scope, end: int, loop: Loop) {
    && d == c.(stack := d.stack, ic := d.ic, out := c.out + o)
    && 0 <= c.fp <= |c.stack|
    && (s.how.Returned? ==> d.stack != [] && d.stack[|d.stack| - 1] == s.how.value && InsAt(k.p, d.ic, Op(RETURN)))
    && var st := if s.how.Returned? then d.stack[..|d.stack| - 1] else d.stack;
    && Frame(st, c.fp, full, s.env) && |st| >= |c.stack| && st[..c.fp] == c.stack[..c.fp]
    && (s.how.Normal? ==> d.ic == end)
    && (s.how.Broke? ==> d.ic == loop.exit)
    && (s.how.Continued? ==> d.ic == loop.head)
  }

  ghost predicate StmtRun(k: Link, c: Core, n: nat, d: Core, r: Res<Stop>, full: Scope, end: int, loop: Loop, fuel: nat) {
    match r
    case Done(s, o) => Goes(k.step, c, n, d) && Landed(k, c, d, s, o, full, end, loop)
    case OutOfFuel => Iterate(k.step, c, n).Next? && n >= fuel
    case Wrong => true
  }

  // ---------------------------------------------------------------- expressions

  ghost predicate Fit(k: Link, full: Scope, env: Env, c: Core) {
    Linked(k) && full.next <= TWO63 && WellScoped(full) && Holds(c.stack, c.fp, full, env) && c.mem == k.mem
  }

  /** The code of expression `e` at the current address pushes what `e` evaluates to. */
  lemma {:induction false} SimExpr(k: Link, e: Expr, full: Scope, env: Env, fuel: nat, c: Core) returns (n: nat)
    requires Fit(k, full, env, c) && ExprAt(k.p, e, full, k.fns, c.ic)
    ensures ExprRun(k, c, n, Eval(e, env, k.fs, fuel), c.ic + ExprSize(e), fuel)
    decreases fuel, e, 2
  {
    n := 0;
    if e.Number? {
      DoPush(k.step, k.p, k.mem, c, PushLiteral(e.value), e.value);
      assert c.out + [] == c.out;
      n := 1;
    } else if e.Identifier? {
      if e.name in env && ContextOpcode(e.name).None? { n := SimLoad(k, e.name, full, env, c); }
    } else if e.Binary? {
      n := SimBinary(k, e, full, env, fuel, c);
    } else if e.Unary? {
      n := SimExpr(k, e.operand, full, env, fuel, c);
      n := ThenUnary(k, e.uop, c, n, Eval(e.operand, env, k.fs, fuel), c.ic + ExprSize(e.operand), fuel);
    } else {
      n := SimInvocation(k, e, full, env, fuel, c);
    }
  }

  lemma SimLoad(k: Link, x: string, full: Scope, env: Env, c: Core) returns (n: nat)
    requires Fit(k, full, env, c) && ExprAt(k.p, Identifier(x), full, k.fns, c.ic) && x in env && ContextOpcode(x).None?
    ensures Goes(k.step, c, n, c.(stack := c.stack + [env[x]], ic := c.ic + 2, out := c.out + []))
  {
    var off := full.offsets[x];
    DoPush(k.step, k.p, k.mem, c, Push(off), off);
    var d := c.(stack := c.stack + [off], ic := c.ic + 1);
    DoLoad(k.step, k.p, k.mem, d, c.stack, off);
    assert c.out + [] == c.out;
    Join(k.step, c, 1, d, 1, c.(stack := c.stack + [env[x]], ic := c.ic + 2));
    n := 2;
  }

  lemma ThenUnary(k: Link, op: UnaryOp, c: Core, n: nat, r: Res<int>, mid: int, fuel: nat) returns (m: nat)
    requires Linked(k) && c.mem == k.mem && UnaryAt(k.p, op, mid) && ExprRun(k, c, n, r, mid, fuel)
    ensures ExprRun(k, c, m, One(op, r), mid + |UnaryCode(op)|, fuel)
  {
    m := n;
    if r.Done? {
      var d := Pushed(c, mid, r);
      var q := DoUnary(k, op, d, c.stack, r.value);
      Join(k.step, c, n, d, q, d.(stack := c.stack + [UnaryOperate(op, r.value)], ic := mid + |UnaryCode(op)|));
      m := n + q;
    }
  }

  /** `PUSH 0; PUSH 1; SWAP; SUB` negates; ISZERO is logical not. */
  lemma DoUnary(k: Link, op: UnaryOp, c: Core, st: seq<int>, a: int) returns (n: nat)
    requires Linked(k) && c.mem == k.mem && UnaryAt(k.p, op, c.ic) && c.stack == st + [a]
    ensures Goes(k.step, c, n, c.(stack := st + [UnaryOperate(op, a)], ic := c.ic + |UnaryCode(op)|))
  {
    if op == Not {
      DoIsZero(k.step, k.p, k.mem, c, st, a);
      n := 1;
    } else {
      DoPush(k.step, k.p, k.mem, c, Push(0), 0);
      var c1 := c.(stack := c.stack + [0], ic := c.ic + 1);
      DoPush(k.step, k.p, k.mem, c1, Push(1), 1);
      var c2 := c.(stack := st + [a, 0, 1], ic := c.ic + 2);
      assert c1.(stack := c1.stack + [1], ic := c1.ic + 1) == c2;
      Join(k.step, c, 1, c1, 1, c2);
      DoSwap(k.step, k.p, k.mem, c2, st, a, 0);
      var c3 := c.(stack := st + [0, a], ic := c.ic + 3);
      Join(k.step, c, 2, c2, 1, c3);
      DoArithmetic(k.step, k.p, k.mem, c3, SUB, st, 0, a);
      Join(k.step, c, 3, c3, 1, c.(stack := st + [Words.Sub(0, a)], ic := c.ic + 4));
      n := 4;
    }
  }

  /** The operator itself: one instruction, or a comparison followed by its negation. */
  lemma DoBinary(k: Link, op: BinaryOp, c: Core, st: seq<int>, a: int, b: int) returns (n: nat)
    requires Linked(k) && c.mem == k.mem && OperatorAt(k.p, op, c.ic) && c.stack == st + [a, b]
    ensures Goes(k.step, c, n, c.(stack := st + [Operate(op, a, b)], ic := c.ic + |OperatorCode(op)|))
  {
    var code := OperatorCode(op);
    var v := DoOperator(k, op, c, st, a, b);
    n := 1;
    if |code| == 2 {
      var d := c.(stack := st + [v], ic := c.ic + 1);
      DoIsZero(k.step, k.p, k.mem, d, st, v);
      Join(k.step, c, 1, d, 1, c.(stack := st + [Operate(op, a, b)], ic := c.ic + 2));
      n := 2;
    }
  }

  lemma DoOperator(k: Link, op: BinaryOp, c: Core, st: seq<int>, a: int, b: int) returns (v: int)
    requires Linked(k) && c.mem == k.mem && OperatorAt(k.p, op, c.ic) && c.stack == st + [a, b]
    ensures Goes(k.step, c, 1, c.(stack := st + [v], ic := c.ic + 1))
    ensures Operate(op, a, b) == if |OperatorCode(op)| == 2 then Words.Bit(v == 0) else v
  {
    var code := OperatorCode(op);
    if code[0].op == EQ {
      DoEquals(k.step, k.p, k.mem, c, st, a, b);
      v := Words.Bit(a == b);
    } else {
      DoArithmetic(k.step, k.p, k.mem, c, code[0].op, st, a, b);
      v := Arithmetic(code[0].op, a, b);
    }
  }

  /** The operand behind the value of another one. */
  lemma {:induction false} SimNext(k: Link, y: Expr, a: Res<int>, full: Scope, env: Env, fuel: nat, c: Core, mid: int) returns (m: nat)
    requires Fit(k, full, env, c) && ExprAt(k.p, y, full, k.fns, mid)
    ensures a.Done? ==> ExprRun(k, Pushed(c, mid, a), m, Eval(y, env, k.fs, fuel), mid + ExprSize(y), fuel)
    decreases fuel, y, 3
  {
    m := 0;
    if a.Done? {
      StillFit(k, full, env, c, mid, a);
      m := SimExpr(k, y, full, env, fuel, Pushed(c, mid, a));
    }
  }

  lemma {:induction false} SimBinary(k: Link, e: Expr, full: Scope, env: Env, fuel: nat, c: Core) returns (n: nat)
    requires Fit(k, full, env, c) && e.Binary? && ExprAt(k.p, e, full, k.fns, c.ic)
    ensures ExprRun(k, c, n, Both(e.op, Eval(e.lhs, env, k.fs, fuel), Eval(e.rhs, env, k.fs, fuel)), c.ic + ExprSize(e), fuel)
    decreases fuel, e, 0
  {
    var mid, end := c.ic + ExprSize(e.lhs), c.ic + ExprSize(e.lhs) + ExprSize(e.rhs);
    var a, b := Eval(e.lhs, env, k.fs, fuel), Eval(e.rhs, env, k.fs, fuel);
    n := SimExpr(k, e.lhs, full, env, fuel, c);
    var m := SimNext(k, e.rhs, a, full, env, fuel, c, mid);
    n := ThenBinary(k, e.op, c, n, a, mid, m, b, end, fuel);
  }

  lemma ThenBinary(k: Link, op: BinaryOp, c: Core, n: nat, a: Res<int>, mid: int, m: nat, b: Res<int>, end: int, fuel: nat) returns (q: nat)
    requires Linked(k) && c.mem == k.mem && OperatorAt(k.p, op, end)
    requires ExprRun(k, c, n, a, mid, fuel)
    requires a.Done? ==> ExprRun(k, Pushed(c, mid, a), m, b, end, fuel)
    ensures ExprRun(k, c, q, Both(op, a, b), end + |OperatorCode(op)|, fuel)
  {
    q := n;
    if a.Done? {
      q := ThenValue(k, c, n, a, mid, m, b, end, fuel);
      if b.Done? {
        var e := TwoPushed(c, end, a, b);
        var x := DoBinary(k, op, e, c.stack, a.value, b.value);
        Join(k.step, c, q, e, x, e.(stack := c.stack + [Operate(op, a.value, b.value)], ic := end + |OperatorCode(op)|));
        q := q + x;
      }
    }
  }

  function TwoPushed(c: Core, end: int, a: Res<int>, b: Res<int>): Core
    requires a.Done? && b.Done?
  {
    c.(stack := c.stack + [a.value, b.value], ic := end, out := c.out + (a.out + b.out))
  }

  /** Two expressions in a row leave two values. */
  lemma ThenValue(k: Link, c: Core, n: nat, a: Res<int>, mid: int, m: nat, b: Res<int>, end: int, fuel: nat) returns (q: nat)
    requires a.Done? && ExprRun(k, c, n, a, mid, fuel) && ExprRun(k, Pushed(c, mid, a), m, b, end, fuel)
    ensures b.Done? ==> Goes(k.step, c, q, TwoPushed(c, end, a, b))
    ensures b.OutOfFuel? ==> Iterate(k.step, c, q).Next? && q >= fuel
  {
    var d := Pushed(c, mid, a);
    Compose(k.step, c, n, d, m);
    q := n + m;
    if b.Done? {
      assert d.out + b.out == c.out + (a.out + b.out);
      assert d.stack + [b.value] == c.stack + [a.value, b.value];
    }
  }

  lemma {:induction false} SimInvocation(k: Link, e: Expr, full: Scope, env: Env, fuel: nat, c: Core) returns (n: nat)
    requires Fit(k, full, env, c) && !e.Number? && !e.Identifier? && !e.Binary? && !e.Unary? && ExprAt(k.p, e, full, k.fns, c.ic)
    ensures ExprRun(k, c, n, Eval(e, env, k.fs, fuel), c.ic + ExprSize(e), fuel)
    decreases fuel, e, 1
  {
    CallIs(e, env, k.fs, fuel);
    if e.Call? && e.callee.EmitFn? && |e.args| == 1 {
      n := SimEmission(k, e, full, env, fuel, c);
    } else if UserCall(e, k.fs) {
      n := SimUserCall(k, e, full, env, fuel, c);
    } else {
      n := 0;
    }
  }

  lemma {:induction false} SimEmission(k: Link, e: Expr, full: Scope, env: Env, fuel: nat, c: Core) returns (n: nat)
    requires Fit(k, full, env, c) && e.Call? && e.callee.EmitFn? && |e.args| == 1 && ExprAt(k.p, e, full, k.fns, c.ic)
    ensures ExprRun(k, c, n, Emitted(Eval(e.args[0], env, k.fs, fuel)), c.ic + ExprSize(e), fuel)
    decreases fuel, e, 0, 3
  {
    EmitParts(k, e, full, c.ic);
    n := SimEmit(k, e, e.args[0], full, env, fuel, c);
  }

  lemma {:induction false} SimUserCall(k: Link, e: Expr, full: Scope, env: Env, fuel: nat, c: Core) returns (n: nat)
    requires Fit(k, full, env, c) && UserCall(e, k.fs) && ExprAt(k.p, e, full, k.fns, c.ic)
    ensures ExprRun(k, c, n, EvalCall(k.fs[e.callee.name], Eval(e.args[0], env, k.fs, fuel), Eval(e.args[1], env, k.fs, fuel), e, k.fs, fuel),
                    c.ic + ExprSize(e), fuel)
    decreases fuel, e, 0, 3
  {
    CallParts(k, e, full, c.ic);
    n := SimCall(k, e, e.args[0], e.args[1], e.callee.name, full, env, fuel, c);
  }

  /** A call of a function of the contract, by a name that is free, with two arguments for two parameters. */
  predicate UserCall(e: Expr, fs: Program) {
    e.Call? && |e.args| == 2 && e.callee.Named? && BuiltinOf(e.callee.name).Ordinary? && e.callee.name in fs && |fs[e.callee.name].params| == 2
  }

  lemma CallIs(e: Expr, env: Env, fs: Program, fuel: nat)
    requires !e.Number? && !e.Identifier? && !e.Binary? && !e.Unary?
    ensures Eval(e, env, fs, fuel) ==
            if e.Call? && e.callee.EmitFn? && |e.args| == 1 then Emitted(Eval(e.args[0], env, fs, fuel))
            else if UserCall(e, fs) then EvalCall(fs[e.callee.name], Eval(e.args[0], env, fs, fuel), Eval(e.args[1], env, fs, fuel), e, fs, fuel)
            else Wrong
  {
  }

  lemma EmitParts(k: Link, e: Expr, full: Scope, a: int)
    requires e.Call? && |e.args| == 1 && e.callee.EmitFn? && ExprAt(k.p, e, full, k.fns, a)
    ensures ExprAt(k.p, e.args[0], full, k.fns, a) && InsAt(k.p, a + ExprSize(e.args[0]), Op(EMIT)) && ExprSize(e) == ExprSize(e.args[0]) + 1
  {
    OneArg(e.args, full, k.fns);
  }

  lemma {:induction false} SimEmit(k: Link, e: Expr, x: Expr, full: Scope, env: Env, fuel: nat, c: Core) returns (n: nat)
    requires Fit(k, full, env, c) && e.Call? && |e.args| == 1 && e.args[0] == x && ExprAt(k.p, x, full, k.fns, c.ic) && InsAt(k.p, c.ic + ExprSize(x), Op(EMIT))
    ensures ExprRun(k, c, n, Emitted(Eval(x, env, k.fs, fuel)), c.ic + ExprSize(x) + 1, fuel)
    decreases fuel, e, 0, 2
  {
    n := SimExpr(k, x, full, env, fuel, c);
    n := ThenEmit(k, c, n, Eval(x, env, k.fs, fuel), c.ic + ExprSize(x), fuel);
  }

  lemma CallParts(k: Link, e: Expr, full: Scope, a: int)
    requires e.Call? && |e.args| == 2 && e.callee.Named? && BuiltinOf(e.callee.name).Ordinary? && ExprAt(k.p, e, full, k.fns, a)
    ensures var mid := a + ExprSize(e.args[0]); var end := mid + ExprSize(e.args[1]);
      && ExprAt(k.p, e.args[0], full, k.fns, a) && ExprAt(k.p, e.args[1], full, k.fns, mid) && CallAt(k.p, e.callee.name, k.fns, end)
      && a + ExprSize(e) == end + 2
  {
    TwoArgs(e.args, full, k.fns);
  }

  lemma ThenEmit(k: Link, c: Core, n: nat, r: Res<int>, mid: int, fuel: nat) returns (q: nat)
    requires Linked(k) && c.mem == k.mem && InsAt(k.p, mid, Op(EMIT)) && ExprRun(k, c, n, r, mid, fuel)
    ensures ExprRun(k, c, q, Emitted(r), mid + 1, fuel)
  {
    q := n;
    if r.Done? && !Oversize(r.value) {
      var d := Pushed(c, mid, r);
      DoEmit(k.step, k.p, k.mem, d, c.stack, r.value);
      var o := [Avm.Number(Abs(r.value))];
      assert d.out + o == c.out + (r.out + o);
      Join(k.step, c, n, d, 1, d.(ic := mid + 1, out := d.out + o));
      q := n + 1;
    }
  }

  lemma {:induction false} SimCall(k: Link, e: Expr, x: Expr, y: Expr, f: string, full: Scope, env: Env, fuel: nat, c: Core) returns (n: nat)
    requires Fit(k, full, env, c) && e.Call? && |e.args| == 2 && e.args[0] == x && e.args[1] == y && f in k.fs && |k.fs[f].params| == 2
    requires var mid := c.ic + ExprSize(x);
      ExprAt(k.p, x, full, k.fns, c.ic) && ExprAt(k.p, y, full, k.fns, mid) && CallAt(k.p, f, k.fns, mid + ExprSize(y))
    ensures ExprRun(k, c, n, EvalCall(k.fs[f], Eval(x, env, k.fs, fuel), Eval(y, env, k.fs, fuel), e, k.fs, fuel), c.ic + ExprSize(x) + ExprSize(y) + 2, fuel)
    decreases fuel, e, 0, 2
  {
    var mid, end := c.ic + ExprSize(x), c.ic + ExprSize(x) + ExprSize(y);
    n := SimExpr(k, x, full, env, fuel, c);
    var a, b := Eval(x, env, k.fs, fuel), Eval(y, env, k.fs, fuel);
    var m := SimNext(k, y, a, full, env, fuel, c, mid);
    n := ThenCall(k, f, e, c, n, a, mid, m, b, end, fuel);
  }

  /** Two arguments and the call. */
  lemma {:induction false} ThenCall(k: Link, f: string, e: Expr, c: Core, n: nat, a: Res<int>, mid: int, m: nat, b: Res<int>, end: int, fuel: nat) returns (q: nat)
    requires Linked(k) && c.mem == k.mem && f in k.fs && |k.fs[f].params| == 2 && CallAt(k.p, f, k.fns, end)
    requires ExprRun(k, c, n, a, mid, fuel)
    requires a.Done? ==> ExprRun(k, Pushed(c, mid, a), m, b, end, fuel)
    ensures ExprRun(k, c, q, EvalCall(k.fs[f], a, b, e, k.fs, fuel), end + 2, fuel)
    decreases fuel, e, 0, 1
  {
    q := n;
    if a.Done? {
      q := ThenValue(k, c, n, a, mid, m, b, end, fuel);
      if b.Done? && fuel > 0 { q := SimBody(k, f, e, a, b, c, q, end, fuel); }
    }
  }

  /** Both arguments are on the stack: the call itself. */
  lemma {:induction false} SimBody(k: Link, f: string, e: Expr, a: Res<int>, b: Res<int>, c: Core, n: nat, end: int, fuel: nat) returns (m: nat)
    requires Linked(k) && c.mem == k.mem && f in k.fs && |k.fs[f].params| == 2 && a.Done? && b.Done? && fuel > 0
    requires CallAt(k.p, f, k.fns, end) && Goes(k.step, c, n, TwoPushed(c, end, a, b))
    ensures ExprRun(k, c, m, EvalCall(k.fs[f], a, b, e, k.fs, fuel), end + 2, fuel)
    decreases fuel, e, 0, 0
  {
    var g := TwoPushed(c, end, a, b);
    var q := SimInvoke(k, f, a.value, b.value, c.stack, fuel - 1, g);
    var r := ResultOf(ExecBlock(k.fs[f].body, Bind(k.fs[f], a.value, b.value), k.fs, fuel - 1));
    m := ThenResult(k, c, n, g, q, a.out + b.out, r, end + 2, fuel);
  }

  ghost predicate CallRun(k: Link, g: Core, st: seq<int>, q: nat, r: Res<int>, end: int, fuel: nat) {
    match r
    case Done(v, o) => Goes(k.step, g, q, g.(stack := st + [v], ic := end, out := g.out + o))
    case OutOfFuel => Iterate(k.step, g, q).Next? && q >= fuel
    case Wrong => true
  }

  lemma ThenResult(k: Link, c: Core, n: nat, g: Core, q: nat, o: Output, r: Res<int>, end: int, fuel: nat) returns (m: nat)
    requires Goes(k.step, c, n, g) && g == c.(stack := g.stack, ic := g.ic, out := c.out + o) && CallRun(k, g, c.stack, q, r, end, fuel)
    ensures ExprRun(k, c, m, Also(o, r), end, fuel)
  {
    Compose(k.step, c, n, g, q);
    m := n + q;
    if r.Done? {
      assert g.out + r.out == c.out + (o + r.out);
    }
  }

  /** From the arguments on the stack to the result in their place. */
  lemma {:induction false} SimInvoke(k: Link, f: string, a: int, b: int, st: seq<int>, fuel: nat, c: Core) returns (n: nat)
    requires Linked(k) && f in k.fs && |k.fs[f].params| == 2 && c.stack == st + [a, b] && c.mem == k.mem && CallAt(k.p, f, k.fns, c.ic)
    ensures CallRun(k, c, st, n, ResultOf(ExecBlock(k.fs[f].body, Bind(k.fs[f], a, b), k.fs, fuel)), c.ic + 2, fuel + 1)
    decreases fuel, k.fs[f].body, 5
  {
    assert Callee(k, f);
    var g, entry := k.fs[f], k.fns[f];
    var env, full := Bind(g, a, b), FullScope(g);
    var c2 := SimEntry(k, f, c, st);
    BoundFrame(g, a, b, st);
    var m, d := SimBlock(k, g.body, full, env, fuel, c2, Loop(0, 0));
    var r := ExecBlock(g.body, env, k.fs, fuel);
    if MustReturn(g.body) { MustReturnNotNormal(g.body, env, k.fs, fuel); }
    n := ThenFinish(k, st, c, c2, m, d, r, full, entry + BlockSize(g.body), fuel);
  }

  /** The two arguments are the callee's whole frame. */
  lemma BoundFrame(g: Function, a: int, b: int, st: seq<int>)
    requires |g.params| == 2 && FullScope(g).next == 2
    ensures Frame(st + [a, b], |st|, FullScope(g), Bind(g, a, b)) && WellScoped(FullScope(g))
  {
    ParamsWellScoped(g.params, 2);
    AfterBlockGrows(g.body, ParamScope(g.params));
    assert ParamOffsets(g.params, 1) == map[g.params[0] := 0];
  }

  lemma SimEntry(k: Link, f: string, c: Core, st: seq<int>) returns (d: Core)
    requires Linked(k) && Callee(k, f) && |c.stack| == |st| + 2 && c.mem == k.mem && CallAt(k.p, f, k.fns, c.ic)
    ensures d == c.(frames := c.frames + [c.fp], fp := |st|, rets := c.rets + [c.ic + 2], ic := k.fns[f])
    ensures Goes(k.step, c, 2, d)
  {
    var entry := k.fns[f];
    DoPush(k.step, k.p, k.mem, c, Push(entry), entry);
    var c1 := c.(stack := c.stack + [entry], ic := c.ic + 1);
    DoCall(k.step, k.p, k.mem, c1, c.stack, entry);
    d := c.(frames := c.frames + [c.fp], fp := |st|, rets := c.rets + [c.ic + 2], ic := entry);
    Join(k.step, c, 1, c1, 1, d);
  }

  ghost predicate DefaultReturn(k: Link, end: int) { InsAt(k.p, end, Push(0)) && InsAt(k.p, end + 1, Op(RETURN)) }

  lemma ThenFinish(k: Link, st: seq<int>, c: Core, c2: Core, m: nat, d: Core, r: Res<Stop>, full: Scope, end: int, fuel: nat) returns (n: nat)
    requires Linked(k) && |c.stack| == |st| + 2 && st == c.stack[..|st|] && c.mem == k.mem
    requires c2 == c.(frames := c.frames + [c.fp], fp := |st|, rets := c.rets + [c.ic + 2], ic := c2.ic) && Goes(k.step, c, 2, c2)
    requires full.next == 2 && StmtRun(k, c2, m, d, r, full, end, Loop(0, 0), fuel)
    requires r.Done? && r.value.how.Normal? ==> DefaultReturn(k, end)
    ensures CallRun(k, c, st, n, ResultOf(r), c.ic + 2, fuel + 1)
  {
    Compose(k.step, c, 2, c2, m);
    n := 2 + m;
    if r.Done? && (r.value.how.Returned? || r.value.how.Normal?) {
      var q := Finish(k, st, c, c2, d, r.value, r.out, full, end);
      Compose(k.step, c, n, d, q);
      n := n + q;
    }
  }

  /** The end of a call: at a RETURN, or at the default return. */
  lemma Finish(k: Link, st: seq<int>, c: Core, c2: Core, d: Core, s: Stop, o: Output, full: Scope, end: int) returns (n: nat)
    requires Linked(k) && |c.stack| == |st| + 2 && st == c.stack[..|st|] && c.mem == k.mem
    requires c2 == c.(frames := c.frames + [c.fp], fp := |st|, rets := c.rets + [c.ic + 2], ic := c2.ic)
    requires full.next == 2 && Landed(k, c2, d, s, o, full, end, Loop(0, 0))
    requires s.how.Returned? || (s.how.Normal? && DefaultReturn(k, end))
    ensures Goes(k.step, d, n, c.(stack := st + [if s.how.Returned? then s.how.value else 0], ic := c.ic + 2, out := c.out + o))
  {
    if s.how.Returned? {
      var v := s.how.value;
      var fr := d.stack[..|d.stack| - 1];
      assert d.stack == st + [fr[|st|], fr[|st| + 1], v] by {
        assert fr[..|st|] == st;
        assert d.stack == fr + [v];
      }
      DoReturn(k.step, k.p, k.mem, d, st, fr[|st|], fr[|st| + 1], v, c.frames, c.fp, c.rets, c.ic + 2);
      n := 1;
    } else {
      DoPush(k.step, k.p, k.mem, d, Push(0), 0);
      var d1 := d.(stack := d.stack + [0], ic := d.ic + 1);
      assert d1.stack == st + [d.stack[|st|], d.stack[|st| + 1], 0] by { assert d.stack[..|st|] == st; }
      DoReturn(k.step, k.p, k.mem, d1, st, d.stack[|st|], d.stack[|st| + 1], 0, c.frames, c.fp, c.rets, c.ic + 2);
      Join(k.step, d, 1, d1, 1, c.(stack := st + [0], ic := c.ic + 2, out := c.out + o));
      n := 2;
    }
  }

  lemma {:induction false} MustReturnNotNormal(ss: seq<Stmt>, env: Env, fs: Program, fuel: nat)
    requires MustReturn(ss)
    ensures var r := ExecBlock(ss, env, fs, fuel); r.Done? ==> !r.value.how.Normal?
    decreases ss, 1
  {
    var r := Exec(ss[0], env, fs, fuel);
    if |ss| == 1 {
      Single(ss, env, fs, fuel);
      MustReturnLastNotNormal(ss[0], env, fs, fuel);
    } else if r.Done? && r.value.how.Normal? {
      assert ss[1..][|ss| - 2] == ss[|ss| - 1];
      MustReturnNotNormal(ss[1..], r.value.env, fs, fuel);
    }
  }

  lemma {:induction false} MustReturnLastNotNormal(s: Stmt, env: Env, fs: Program, fuel: nat)
    requires MustReturnLast(s)
    ensures var r := Exec(s, env, fs, fuel); r.Done? ==> !r.value.how.Normal?
    decreases s, 0
  {
    if s.If? {
      MustReturnNotNormal(s.thenBlock, env, fs, fuel);
      MustReturnNotNormal(s.elseBlock.block, env, fs, fuel);
      assert Exec(s, env, fs, fuel) == ExecIf(s, env, fs, fuel);
      assert ExecElse(s.elseBlock, env, fs, fuel) == ExecBlock(s.elseBlock.block, env, fs, fuel);
    }
  }

  lemma Single(ss: seq<Stmt>, env: Env, fs: Program, fuel: nat)
    requires |ss| == 1
    ensures ExecBlock(ss, env, fs, fuel) == Exec(ss[0], env, fs, fuel) && BlockSize(ss) == StmtSize(ss[0])
  {
    assert ss[1..] == [];
    var r := Exec(ss[0], env, fs, fuel);
    if r.Done? { assert r.out + [] == r.out; }
  }

  // ---------------------------------------------------------------- statements

  ghost predicate Ready(k: Link, full: Scope, env: Env, c: Core) { Fit(k, full, env, c) && Frame(c.stack, c.fp, full, env) }

  /** Reaching a state with an unchanged frame. */
  lemma LandedHere(k: Link, c: Core, d: Core, env: Env, o: Output, full: Scope, end: int, loop: Loop, how: Control)
    requires Frame(c.stack, c.fp, full, env)
    requires d == c.(ic := d.ic, out := c.out + o)
    requires (how == Normal && d.ic == end) || (how == Broke && d.ic == loop.exit) || (how == Continued && d.ic == loop.head)
    ensures Landed(k, c, d, Stop(how, env), o, full, end, loop)
  {
  }

  lemma LandedThen(k: Link, c: Core, d: Core, e: Core, s: Stop, t: Stop, o: Output, o': Output, full: Scope,
                   mid: int, end: int, loop: Loop, loop': Loop)
    requires Landed(k, c, d, s, o, full, mid, loop') && !s.how.Returned?
    requires Landed(k, d, e, t, o', full, end, loop)
    ensures Landed(k, c, e, t, o + o', full, end, loop)
  {
    assert c.out + o + o' == c.out + (o + o');
  }

  /** A statement that runs after a test. */
  lemma ThenStmt(k: Link, c: Core, n: nat, c1: Core, env: Env, o: Output, m: nat, d: Core, r: Res<Stop>, full: Scope, end: int, loop: Loop, fuel: nat)
    requires Goes(k.step, c, n, c1) && c1 == c.(ic := c1.ic, out := c.out + o) && Frame(c.stack, c.fp, full, env)
    requires StmtRun(k, c1, m, d, r, full, end, loop, fuel)
    ensures StmtRun(k, c, n + m, d, Also(o, r), full, end, loop, fuel)
  {
    Compose(k.step, c, n, c1, m);
    if r.Done? {
      LandedHere(k, c, c1, env, o, full, c1.ic, loop, Normal);
      LandedThen(k, c, c1, d, Stop(Normal, env), r.value, o, r.out, full, c1.ic, end, loop, loop);
    }
  }

  lemma StillReady(k: Link, c: Core, d: Core, env: Env, r: Res<Stop>, full: Scope, mid: int, loop: Loop)
    requires Ready(k, full, env, c) && r.Done? && !r.value.how.Returned? && Landed(k, c, d, r.value, r.out, full, mid, loop)
    ensures Ready(k, full, r.value.env, d)
  {
  }

  /** A value on top of the stack leaves the variables in place. */
  lemma StillFit(k: Link, full: Scope, env: Env, c: Core, mid: int, a: Res<int>)
    requires Fit(k, full, env, c) && a.Done?
    ensures Fit(k, full, env, Pushed(c, mid, a))
  {
  }

  /** One statement after another. */
  lemma InOrder(k: Link, c: Core, n: nat, d: Core, r: Res<Stop>, m: nat, e: Core, q: Res<Stop>, full: Scope, mid: int, end: int, loop: Loop, fuel: nat)
    requires StmtRun(k, c, n, d, r, full, mid, loop, fuel) && r.Done? && r.value.how.Normal?
    requires StmtRun(k, d, m, e, q, full, end, loop, fuel)
    ensures StmtRun(k, c, n + m, e, Also(r.out, q), full, end, loop, fuel)
  {
    Compose(k.step, c, n, d, m);
    if q.Done? {
      LandedThen(k, c, d, e, r.value, q.value, r.out, q.out, full, mid, end, loop, loop);
    }
  }

  lemma SimJump(k: Link, c: Core, target: int)
    requires Linked(k) && c.mem == k.mem && JumpAt(k.p, c.ic, target)
    ensures Goes(k.step, c, 2, c.(ic := target))
  {
    DoPush(k.step, k.p, k.mem, c, Push(target), target);
    var d := c.(stack := c.stack + [target], ic := c.ic + 1);
    DoJump(k.step, k.p, k.mem, d, c.stack, target);
    Join(k.step, c, 1, d, 1, c.(ic := target));
  }

  ghost predicate TestRun(k: Link, c: Core, n: nat, r: Res<int>, yes: int, no: int, fuel: nat) {
    match r
    case Done(v, o) => n > 0 && Goes(k.step, c, n, c.(ic := if v != 0 then yes else no, out := c.out + o))
    case OutOfFuel => Iterate(k.step, c, n).Next? && n >= fuel
    case Wrong => true
  }

  /** Condition, ISZERO and JUMPC: fall through when it holds, jump to `target` otherwise. */
  lemma {:induction false} SimTest(k: Link, e: Expr, target: int, full: Scope, env: Env, fuel: nat, c: Core) returns (n: nat)
    requires Fit(k, full, env, c) && TestAt(k.p, e, full, k.fns, c.ic, target)
    ensures TestRun(k, c, n, Eval(e, env, k.fs, fuel), c.ic + ExprSize(e) + 3, target, fuel)
    decreases fuel, e, 3
  {
    var mid := c.ic + ExprSize(e);
    n := SimExpr(k, e, full, env, fuel, c);
    var r := Eval(e, env, k.fs, fuel);
    if r.Done? {
      DoTest(k, Pushed(c, mid, r), c.stack, r.value, target);
      Join(k.step, c, n, Pushed(c, mid, r), 3, c.(ic := if r.value != 0 then mid + 3 else target, out := c.out + r.out));
      n := n + 3;
    }
  }

  lemma DoTest(k: Link, c: Core, st: seq<int>, v: int, target: int)
    requires Linked(k) && c.mem == k.mem && c.stack == st + [v] && 0 <= target < |k.p|
    requires InsAt(k.p, c.ic, Op(ISZERO)) && InsAt(k.p, c.ic + 1, Push(target)) && InsAt(k.p, c.ic + 2, Op(JUMPC))
    ensures Goes(k.step, c, 3, c.(stack := st, ic := if v != 0 then c.ic + 3 else target))
  {
    var z := v == 0;
    DoIsZero(k.step, k.p, k.mem, c, st, v);
    var c2 := c.(stack := st + [Words.Bit(z)], ic := c.ic + 1);
    DoPush(k.step, k.p, k.mem, c2, Push(target), target);
    var c3 := c.(stack := st + [Words.Bit(z), target], ic := c.ic + 2);
    assert c2.(stack := c2.stack + [target], ic := c2.ic + 1) == c3;
    Join(k.step, c, 1, c2, 1, c3);
    DoJumpIf(k.step, k.p, k.mem, c3, st, z, target);
    Join(k.step, c, 2, c3, 1, c.(stack := st, ic := if v != 0 then c.ic + 3 else target));
  }

  /** The code of statement `s` at the current address does what `s` means. */
  lemma {:induction false} SimStmt(k: Link, s: Stmt, full: Scope, env: Env, fuel: nat, c: Core, loop: Loop) returns (n: nat, d: Core)
    requires Ready(k, full, env, c) && StmtAt(k.p, s, full, k.fns, c.ic, loop)
    ensures StmtRun(k, c, n, d, Exec(s, env, k.fs, fuel), full, c.ic + StmtSize(s), loop, fuel)
    decreases fuel, s, 2
  {
    if s.Assign? {
      n := SimExpr(k, s.value, full, env, fuel, c);
      n, d := ThenStore(k, c, n, Eval(s.value, env, k.fs, fuel), env, s.target, full, c.ic + ExprSize(s.value), loop, fuel);
    } else if s.Return? {
      n, d := SimReturn(k, s.result, full, env, fuel, c, loop);
    } else if s.If? {
      n, d := SimIf(k, s, full, env, fuel, c, loop);
    } else if s.While? {
      n, d := SimWhile(k, s, full, env, fuel, c, loop);
    } else if s.Evaluate? {
      n := SimExpr(k, s.expr, full, env, fuel, c);
      n, d := ThenPop(k, c, n, Eval(s.expr, env, k.fs, fuel), env, full, c.ic + ExprSize(s.expr), loop, fuel);
    } else {
      var target := if s.Break? then loop.exit else loop.head;
      SimJump(k, c, target);
      n, d := 2, c.(ic := target, out := c.out + []);
      assert c.out + [] == c.out;
      LandedHere(k, c, d, env, [], full, c.ic + 2, loop, if s.Break? then Broke else Continued);
    }
  }

  lemma ThenPop(k: Link, c: Core, n: nat, r: Res<int>, env: Env, full: Scope, mid: int, loop: Loop, fuel: nat) returns (m: nat, d: Core)
    requires Ready(k, full, env, c) && InsAt(k.p, mid, Op(POP)) && ExprRun(k, c, n, r, mid, fuel)
    ensures StmtRun(k, c, m, d, Discarded(env, r), full, mid + 1, loop, fuel)
  {
    m, d := n, c;
    if r.Done? {
      var c1 := Pushed(c, mid, r);
      DoPop(k.step, k.p, k.mem, c1, c.stack, r.value);
      d := c.(ic := mid + 1, out := c.out + r.out);
      Join(k.step, c, n, c1, 1, d);
      m := n + 1;
      LandedHere(k, c, d, env, r.out, full, mid + 1, loop, Normal);
    }
  }

  lemma ThenStore(k: Link, c: Core, n: nat, r: Res<int>, env: Env, x: string, full: Scope, mid: int, loop: Loop, fuel: nat)
    returns (m: nat, d: Core)
    requires Ready(k, full, env, c) && x in full.offsets && ExprRun(k, c, n, r, mid, fuel)
    requires InsAt(k.p, mid, Push(full.offsets[x])) && InsAt(k.p, mid + 1, Op(STORE_LOCAL))
    ensures StmtRun(k, c, m, d, Assigned(x, env, r), full, mid + 2, loop, fuel)
  {
    m, d := n, c;
    if r.Done? {
      var off := full.offsets[x];
      var c1 := Pushed(c, mid, r);
      DoPush(k.step, k.p, k.mem, c1, Push(off), off);
      var c2 := c1.(stack := c.stack + [r.value, off], ic := mid + 1);
      assert c1.(stack := c1.stack + [off], ic := mid + 1) == c2;
      Join(k.step, c, n, c1, 1, c2);
      DoStore(k.step, k.p, k.mem, c2, c.stack, r.value, off);
      d := c1.(stack := Padded(c.stack, c.fp + off + 1)[c.fp + off := r.value], ic := mid + 2);
      Join(k.step, c, n + 1, c2, 1, d);
      m := n + 2;
      StoreKeepsFrame(c.stack, c.fp, full, env, x, r.value);
    }
  }

  lemma {:induction false} SimReturn(k: Link, e: Expr, full: Scope, env: Env, fuel: nat, c: Core, loop: Loop) returns (n: nat, d: Core)
    requires Ready(k, full, env, c) && StmtAt(k.p, Return(e), full, k.fns, c.ic, loop)
    ensures StmtRun(k, c, n, d, Returning(env, if e.Nil? then Done(0, []) else Eval(e, env, k.fs, fuel)), full, c.ic + StmtSize(Return(e)), loop, fuel)
    decreases fuel, e, 3
  {
    var r: Res<int>, mid;
    if e.Nil? {
      DoPush(k.step, k.p, k.mem, c, Push(0), 0);
      n, r, mid := 1, Done(0, []), c.ic + 1;
      assert c.out + [] == c.out;
    } else {
      n := SimExpr(k, e, full, env, fuel, c);
      r, mid := Eval(e, env, k.fs, fuel), c.ic + ExprSize(e);
    }
    d := c;
    if r.Done? {
      d := Pushed(c, mid, r);
      assert d.stack[..|d.stack| - 1] == c.stack;
    }
  }

  lemma {:induction false} SimIf(k: Link, s: Stmt, full: Scope, env: Env, fuel: nat, c: Core, loop: Loop) returns (n: nat, d: Core)
    requires s.If? && Ready(k, full, env, c) && IfAt(k.p, s, full, k.fns, c.ic, loop)
    ensures StmtRun(k, c, n, d, ExecIf(s, env, k.fs, fuel), full, c.ic + StmtSize(s), loop, fuel)
    decreases fuel, s, 1
  {
    IfAtParts(k, s, full, c.ic, loop);
    var body := c.ic + ExprSize(s.cond) + 3;
    n, d := SimIfParts(k, s, full, env, fuel, c, loop, body, body + BlockSize(s.thenBlock));
  }

  lemma IfAtParts(k: Link, s: Stmt, full: Scope, a: int, loop: Loop)
    requires s.If? && IfAt(k.p, s, full, k.fns, a, loop)
    ensures var body := a + ExprSize(s.cond) + 3; var rest := body + BlockSize(s.thenBlock);
      && TestAt(k.p, s.cond, full, k.fns, a, rest + (if s.elseBlock.NoElse? then 0 else 2)) && BlockAt(k.p, s.thenBlock, full, k.fns, body, loop)
      && ElseAt(k.p, s.thenBlock, s.elseBlock, full, k.fns, rest, loop) && a + StmtSize(s) == rest + ElseSize(s.elseBlock)
  {
  }

  lemma {:induction false} SimIfParts(k: Link, s: Stmt, full: Scope, env: Env, fuel: nat, c: Core, loop: Loop, body: int, rest: int)
    returns (n: nat, d: Core)
    requires s.If? && Ready(k, full, env, c) && body == c.ic + ExprSize(s.cond) + 3 && rest == body + BlockSize(s.thenBlock)
    requires TestAt(k.p, s.cond, full, k.fns, c.ic, rest + (if s.elseBlock.NoElse? then 0 else 2)) && BlockAt(k.p, s.thenBlock, full, k.fns, body, loop)
    requires ElseAt(k.p, s.thenBlock, s.elseBlock, full, k.fns, rest, loop)
    ensures StmtRun(k, c, n, d, ExecIf(s, env, k.fs, fuel), full, rest + ElseSize(s.elseBlock), loop, fuel)
    decreases fuel, s, 0, 1
  {
    n := SimTest(k, s.cond, rest + (if s.elseBlock.NoElse? then 0 else 2), full, env, fuel, c);
    var r := Eval(s.cond, env, k.fs, fuel);
    IfIs(s, env, k.fs, fuel);
    d := c;
    if r.Done? { n, d := SimTaken(k, s, full, env, fuel, c, n, r, loop, body, rest); }
  }

  lemma IfIs(s: Stmt, env: Env, fs: Program, fuel: nat)
    requires s.If?
    ensures var r := Eval(s.cond, env, fs, fuel);
      ExecIf(s, env, fs, fuel) == if r.Done? then Also(r.out, Branch(s.thenBlock, s.elseBlock, env, fs, fuel, r.value != 0)) else Fail(r)
  {
  }

  /** The branch the condition selects. */
  lemma {:induction false} SimTaken(k: Link, s: Stmt, full: Scope, env: Env, fuel: nat, c: Core, n: nat, r: Res<int>, loop: Loop, body: int, rest: int)
    returns (q: nat, d: Core)
    requires s.If? && Ready(k, full, env, c) && rest == body + BlockSize(s.thenBlock) && r.Done?
    requires BlockAt(k.p, s.thenBlock, full, k.fns, body, loop) && ElseAt(k.p, s.thenBlock, s.elseBlock, full, k.fns, rest, loop)
    requires TestRun(k, c, n, r, body, rest + (if s.elseBlock.NoElse? then 0 else 2), fuel)
    ensures StmtRun(k, c, q, d, Also(r.out, Branch(s.thenBlock, s.elseBlock, env, k.fs, fuel, r.value != 0)), full, rest + ElseSize(s.elseBlock), loop, fuel)
    decreases fuel, s, 0, 0
  {
    var t, els, taken := s.thenBlock, s.elseBlock, r.value != 0;
    var c1 := c.(ic := if taken then body else rest + (if els.NoElse? then 0 else 2), out := c.out + r.out);
    var m;
    m, d := SimBranch(k, t, els, full, env, fuel, c1, loop, body, taken);
    ThenStmt(k, c, n, c1, env, r.out, m, d, Branch(t, els, env, k.fs, fuel, taken), full, rest + ElseSize(els), loop, fuel);
    q := n + m;
  }

  function Branch(t: seq<Stmt>, els: ElseBlock, env: Env, fs: Program, fuel: nat, taken: bool): Res<Stop> {
    if taken then ExecBlock(t, env, fs, fuel) else ExecElse(els, env, fs, fuel)
  }

  lemma {:induction false} SimBranch(k: Link, t: seq<Stmt>, els: ElseBlock, full: Scope, env: Env, fuel: nat, c: Core, loop: Loop, body: int, taken: bool)
    returns (n: nat, d: Core)
    requires Ready(k, full, env, c) && BlockAt(k.p, t, full, k.fns, body, loop) && ElseAt(k.p, t, els, full, k.fns, body + BlockSize(t), loop)
    requires c.ic == if taken then body else body + BlockSize(t) + (if els.NoElse? then 0 else 2)
    ensures StmtRun(k, c, n, d, Branch(t, els, env, k.fs, fuel, taken), full, body + BlockSize(t) + ElseSize(els), loop, fuel)
    decreases fuel, if taken || els.NoElse? then t else els.block, 6
  {
    if taken {
      n, d := SimThen(k, t, els, full, env, fuel, c, loop);
    } else {
      n, d := SimElse(k, t, els, full, env, fuel, c, loop, body + BlockSize(t));
    }
  }

  /** The then-block, with the jump over the else-block. */
  lemma {:induction false} SimThen(k: Link, t: seq<Stmt>, els: ElseBlock, full: Scope, env: Env, fuel: nat, c: Core, loop: Loop) returns (n: nat, d: Core)
    requires Ready(k, full, env, c) && BlockAt(k.p, t, full, k.fns, c.ic, loop) && ElseAt(k.p, t, els, full, k.fns, c.ic + BlockSize(t), loop)
    ensures StmtRun(k, c, n, d, ExecBlock(t, env, k.fs, fuel), full, c.ic + BlockSize(t) + ElseSize(els), loop, fuel)
    decreases fuel, t, 5
  {
    n, d := SimBlock(k, t, full, env, fuel, c, loop);
    if els.Else? {
      var rest := c.ic + BlockSize(t);
      JumpsOver(k, t, els, full, env, fuel, rest, loop);
      n, d := ThenOver(k, c, n, d, ExecBlock(t, env, k.fs, fuel), full, rest, rest + ElseSize(els), loop, fuel);
    }
  }

  lemma JumpsOver(k: Link, t: seq<Stmt>, els: ElseBlock, full: Scope, env: Env, fuel: nat, rest: int, loop: Loop)
    requires els.Else? && ElseAt(k.p, t, els, full, k.fns, rest, loop)
    ensures var r := ExecBlock(t, env, k.fs, fuel); r.Done? && r.value.how.Normal? ==> JumpAt(k.p, rest, rest + ElseSize(els))
  {
    if MustReturn(t) { MustReturnNotNormal(t, env, k.fs, fuel); }
  }

  /** A block that ends normally jumps over what follows. */
  lemma ThenOver(k: Link, c: Core, n: nat, d: Core, r: Res<Stop>, full: Scope, rest: int, end: int, loop: Loop, fuel: nat) returns (m: nat, e: Core)
    requires Linked(k) && c.mem == k.mem && StmtRun(k, c, n, d, r, full, rest, loop, fuel)
    requires r.Done? && r.value.how.Normal? ==> JumpAt(k.p, rest, end)
    ensures StmtRun(k, c, m, e, r, full, end, loop, fuel)
  {
    m, e := n, d;
    if r.Done? && r.value.how.Normal? {
      SimJump(k, d, end);
      Join(k.step, c, n, d, 2, d.(ic := end));
      m, e := n + 2, d.(ic := end);
    }
  }

  lemma {:induction false} SimElse(k: Link, t: seq<Stmt>, els: ElseBlock, full: Scope, env: Env, fuel: nat, c: Core, loop: Loop, rest: int)
    returns (n: nat, d: Core)
    requires Ready(k, full, env, c) && ElseAt(k.p, t, els, full, k.fns, rest, loop) && c.ic == rest + (if els.NoElse? then 0 else 2)
    ensures StmtRun(k, c, n, d, ExecElse(els, env, k.fs, fuel), full, rest + ElseSize(els), loop, fuel)
    decreases fuel, if els.NoElse? then t else els.block, 5
  {
    if els.NoElse? {
      n, d := 0, c.(out := c.out + []);
      assert c.out + [] == c.out;
      LandedHere(k, c, d, env, [], full, c.ic, loop, Normal);
    } else {
      n, d := SimBlock(k, els.block, full, env, fuel, c, loop);
    }
  }

  lemma {:induction false} SimWhile(k: Link, s: Stmt, full: Scope, env: Env, fuel: nat, c: Core, loop: Loop) returns (n: nat, d: Core)
    requires s.While? && Ready(k, full, env, c) && WhileAt(k.p, s, full, k.fns, c.ic)
    ensures StmtRun(k, c, n, d, ExecWhile(s, env, k.fs, fuel), full, c.ic + StmtSize(s), loop, fuel)
    decreases fuel, s, 1
  {
    var e, b := s.cond, s.body;
    var body := c.ic + ExprSize(e) + 3;
    var exit := body + BlockSize(b) + 2;
    n := SimTest(k, e, exit, full, env, fuel, c);
    var r := Eval(e, env, k.fs, fuel);
    d := c;
    if r.Done? && r.value == 0 {
      d := c.(ic := exit, out := c.out + r.out);
      LandedHere(k, c, d, env, r.out, full, exit, loop, Normal);
    } else if r.Done? && fuel > 0 {
      var c1 := c.(ic := body, out := c.out + r.out);
      var x, y := SimRound(k, s, full, env, fuel, c.ic, c1, loop);
      ThenLoop(k, c, n, c1, env, r.out, x, y, Again(s, ExecBlock(b, env, k.fs, fuel - 1), k.fs, fuel), full, exit, loop, fuel);
      n, d := n + x, y;
    }
  }

  /** The loop body and whatever follows it. */
  lemma {:induction false} SimRound(k: Link, s: Stmt, full: Scope, env: Env, fuel: nat, head: int, c1: Core, loop: Loop) returns (n: nat, d: Core)
    requires s.While? && fuel > 0 && head >= 0 && Ready(k, full, env, c1) && WhileAt(k.p, s, full, k.fns, head)
    requires c1.ic == head + ExprSize(s.cond) + 3
    ensures StmtRun(k, c1, n, d, Again(s, ExecBlock(s.body, env, k.fs, fuel - 1), k.fs, fuel), full, head + StmtSize(s), loop, fuel - 1)
    decreases fuel, s, 0, 1
  {
    var m, e := SimBlock(k, s.body, full, env, fuel - 1, c1, Loop(head + StmtSize(s), head));
    n, d := SimAgain(k, s, full, fuel, head, c1, m, e, ExecBlock(s.body, env, k.fs, fuel - 1), loop);
  }

  /** One more iteration costs at least one step. */
  lemma ThenLoop(k: Link, c: Core, n: nat, c1: Core, env: Env, o: Output, m: nat, d: Core, r: Res<Stop>, full: Scope, end: int, loop: Loop, fuel: nat)
    requires n > 0 && fuel > 0 && Goes(k.step, c, n, c1) && c1 == c.(ic := c1.ic, out := c.out + o) && Frame(c.stack, c.fp, full, env)
    requires StmtRun(k, c1, m, d, r, full, end, loop, fuel - 1)
    ensures StmtRun(k, c, n + m, d, Also(o, r), full, end, loop, fuel)
  {
    ThenStmt(k, c, n, c1, env, o, m, d, r, full, end, loop, fuel - 1);
    Compose(k.step, c, n, c1, m);
  }

  /** After the loop body: leave the loop, or go round again from its head. */
  lemma {:induction false} SimAgain(k: Link, s: Stmt, full: Scope, fuel: nat, head: int, c1: Core, m: nat, d: Core, q: Res<Stop>, loop: Loop)
    returns (n: nat, e: Core)
    requires s.While? && fuel > 0 && head >= 0 && Linked(k) && WellScoped(full) && full.next <= TWO63 && c1.mem == k.mem
    requires WhileAt(k.p, s, full, k.fns, head)
    requires StmtRun(k, c1, m, d, q, full, head + StmtSize(s) - 2, Loop(head + StmtSize(s), head), fuel - 1)
    ensures StmtRun(k, c1, n, e, Again(s, q, k.fs, fuel), full, head + StmtSize(s), loop, fuel - 1)
    decreases fuel, s, 0, 0
  {
    n, e := m, d;
    if q.Done? && (q.value.how.Normal? || q.value.how.Continued?) {
      n := ToHead(k, s, full, head, c1, m, d, q);
      var h := d.(ic := head);
      var x, y := SimWhile(k, s, full, q.value.env, fuel - 1, h, loop);
      ThenAgain(k, s, full, fuel, head, c1, n, h, q, x, y, ExecWhile(s, q.value.env, k.fs, fuel - 1), loop);
      n, e := n + x, y;
    }
  }

  /** Round again: what the iterations from the head do, behind what the body did. */
  lemma ThenAgain(k: Link, s: Stmt, full: Scope, fuel: nat, head: int, c: Core, n: nat, h: Core, q: Res<Stop>, x: nat, e: Core, w: Res<Stop>, loop: Loop)
    requires q.Done? && fuel > 0 && head >= 0 && Goes(k.step, c, n, h)
    requires Landed(k, c, h, Stop(Continued, q.value.env), q.out, full, head, Loop(head + StmtSize(s), head))
    requires StmtRun(k, h, x, e, w, full, head + StmtSize(s), loop, fuel - 1)
    ensures StmtRun(k, c, n + x, e, Also(q.out, w), full, head + StmtSize(s), loop, fuel - 1)
  {
    Compose(k.step, c, n, h, x);
    if w.Done? {
      LandedThen(k, c, h, e, Stop(Continued, q.value.env), w.value, q.out, w.out, full, head, head + StmtSize(s), loop,
                 Loop(head + StmtSize(s), head));
    }
  }

  lemma ToHead(k: Link, s: Stmt, full: Scope, head: int, c1: Core, m: nat, d: Core, q: Res<Stop>) returns (n: nat)
    requires s.While? && head >= 0 && Linked(k) && c1.mem == k.mem && WhileAt(k.p, s, full, k.fns, head)
    requires q.Done? && (q.value.how.Normal? || q.value.how.Continued?)
    requires Goes(k.step, c1, m, d)
    requires Landed(k, c1, d, q.value, q.out, full, head + StmtSize(s) - 2, Loop(head + StmtSize(s), head))
    ensures Goes(k.step, c1, n, d.(ic := head))
    ensures Landed(k, c1, d.(ic := head), Stop(Continued, q.value.env), q.out, full, head, Loop(head + StmtSize(s), head))
  {
    n := m;
    if q.value.how.Normal? {
      SimJump(k, d, head);
      Join(k.step, c1, m, d, 2, d.(ic := head));
      n := m + 2;
    }
  }

  /** The same for a list of statements. */
  lemma {:induction false} SimBlock(k: Link, ss: seq<Stmt>, full: Scope, env: Env, fuel: nat, c: Core, loop: Loop) returns (n: nat, d: Core)
    requires Ready(k, full, env, c) && BlockAt(k.p, ss, full, k.fns, c.ic, loop)
    ensures StmtRun(k, c, n, d, ExecBlock(ss, env, k.fs, fuel), full, c.ic + BlockSize(ss), loop, fuel)
    decreases fuel, ss, 3
  {
    if ss == [] {
      n, d := 0, c.(out := c.out + []);
      assert c.out + [] == c.out;
      LandedHere(k, c, d, env, [], full, c.ic, loop, Normal);
    } else {
      n, d := SimStmt(k, ss[0], full, env, fuel, c, loop);
      n, d := SimTail(k, ss[1..], full, env, fuel, c, loop, c.ic + StmtSize(ss[0]), n, d, Exec(ss[0], env, k.fs, fuel));
    }
  }

  /** What the rest of a block makes of the end `r` of its first statement. */
  function Onward(r: Res<Stop>, ss: seq<Stmt>, fs: Program, fuel: nat): Res<Stop> {
    if r.Done? && r.value.how.Normal? then Also(r.out, ExecBlock(ss, r.value.env, fs, fuel)) else r
  }

  lemma {:induction false} SimTail(k: Link, ss: seq<Stmt>, full: Scope, env: Env, fuel: nat, c: Core, loop: Loop, mid: int, n: nat, d: Core, r: Res<Stop>)
    returns (m: nat, e: Core)
    requires Ready(k, full, env, c) && BlockAt(k.p, ss, full, k.fns, mid, loop) && StmtRun(k, c, n, d, r, full, mid, loop, fuel)
    ensures StmtRun(k, c, m, e, Onward(r, ss, k.fs, fuel), full, mid + BlockSize(ss), loop, fuel)
    decreases fuel, ss, 4
  {
    m, e := n, d;
    if r.Done? && r.value.how.Normal? {
      StillReady(k, c, d, env, r, full, mid, loop);
      m, e := SimBlock(k, ss, full, r.value.env, fuel, d, loop);
      InOrder(k, c, n, d, r, m, e, ExecBlock(ss, r.value.env, k.fs, fuel), full, mid, mid + BlockSize(ss), loop, fuel);
      m := n + m;
    }
  }
}
