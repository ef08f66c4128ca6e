/** What a Marigold program of the integer fragment means, with no machine in sight: a big-step
    evaluator over named variables. Loop iterations and calls consume fuel. */
module Semantics {
  import opened Text
  import opened Bytecode
  import opened Ast
  import opened Names
  import Words
  import Avm

  type Env = map<string, int>
  type Output = seq<Avm.Event>
  type Program = map<string, Function>

  /** `Wrong` is a run the fragment gives no meaning: reading an unassigned variable or one whose name belongs to the block
      context, a call of a built-in name or one the machine's two-parameter convention cannot serve, emitting a value of
      more than 32 bytes. */
  datatype Res<+T> = Done(value: T, out: Output) | Wrong | OutOfFuel

  datatype Control = Normal | Broke | Continued | Returned(value: int)

  datatype Stop = Stop(how: Control, env: Env)

  function Operate(op: BinaryOp, a: int, b: int): int {
    match op
    case Plus => Words.Add(a, b)
    case Minus => Words.Sub(a, b)
    case Multiply => Words.Mul(a, b)
    case Divide => Words.Div(a, b)
    case Modulo => Words.Rem(a, b)
    case Equal => Words.Bit(a == b)
    case NotEqual => Words.Bit(a != b)
    case LessThan => Words.Bit(Words.Less(a, b))
    case GreaterThan => Words.Bit(Words.Less(b, a))
    case LessEqual => Words.Bit(!Words.Less(b, a))
    case GreaterEqual => Words.Bit(!Words.Less(a, b))
    case LogicalAnd | LogicalOr | Exponent => 0
  }

  function UnaryOperate(op: UnaryOp, a: int): int {
    match op
    case Negate => Words.Sub(0, a)
    case Not => Words.Bit(a == 0)
  }

  /** Output of `r` after output `o`. */
  function Also<T>(o: Output, r: Res<T>): Res<T> {
    if r.Done? then Done(r.value, o + r.out) else r
  }

  function Fail<T, U>(r: Res<T>): Res<U>
    requires !r.Done?
  {
    if r.Wrong? then Wrong else OutOfFuel
  }

  function Both(op: BinaryOp, a: Res<int>, b: Res<int>): Res<int> {
    if !a.Done? then a else if !b.Done? then b else Done(Operate(op, a.value, b.value), a.out + b.out)
  }

  function One(op: UnaryOp, a: Res<int>): Res<int> {
    if a.Done? then Done(UnaryOperate(op, a.value), a.out) else a
  }

  function Emitted(a: Res<int>): Res<int> {
    if !a.Done? then a
    else if Avm.Oversize(a.value) then Wrong
    else Done(a.value, a.out + [Avm.Number(Abs(a.value))])
  }

  function Eval(e: Expr, env: Env, fs: Program, fuel: nat): Res<int>
    decreases fuel, e, 2
  {
    match e
    case Number(n) => Done(n, [])
    case Identifier(x) => if x in env && ContextOpcode(x).None? then Done(env[x], []) else Wrong
    case Binary(op, l, r) => Both(op, Eval(l, env, fs, fuel), Eval(r, env, fs, fuel))
    case Unary(op, x) => One(op, Eval(x, env, fs, fuel))
    case Call(f, args) =>
      if f.EmitFn? && |args| == 1 then Emitted(Eval(args[0], env, fs, fuel))
      else if |args| == 2 && f.Named? && BuiltinOf(f.name).Ordinary? && f.name in fs && |fs[f.name].params| == 2 then
        EvalCall(fs[f.name], Eval(args[0], env, fs, fuel), Eval(args[1], env, fs, fuel), e, fs, fuel)
      else Wrong
    case _ => Wrong
  }

  /** The body of a called function, once its arguments `a` and `b` are known. */
  function EvalCall(f: Function, a: Res<int>, b: Res<int>, e: Expr, fs: Program, fuel: nat): Res<int>
    requires |f.params| == 2
    decreases fuel, e, 1
  {
    if !a.Done? then a
    else if !b.Done? then b
    else if fuel == 0 then OutOfFuel
    else Also(a.out + b.out, ResultOf(ExecBlock(f.body, Bind(f, a.value, b.value), fs, fuel - 1)))
  }

  function Bind(f: Function, a: int, b: int): Env
    requires |f.params| == 2
  {
    map[f.params[0] := a][f.params[1] := b]
  }

  /** A body that ends without `return` yields 0. */
  function ResultOf(r: Res<Stop>): Res<int> {
    if !r.Done? then Fail(r)
    else match r.value.how
         case Returned(v) => Done(v, r.out)
         case Normal => Done(0, r.out)
         case _ => Wrong
  }

  function Exec(s: Stmt, env: Env, fs: Program, fuel: nat): Res<Stop>
    decreases fuel, s, 3
  {
    match s
    case Assign(x, e) => Assigned(x, env, Eval(e, env, fs, fuel))
    case Return(e) => Returning(env, if e.Nil? then Done(0, []) else Eval(e, env, fs, fuel))
    case If(c, t, e) => ExecIf(s, env, fs, fuel)
    case While(c, b) => ExecWhile(s, env, fs, fuel)
    case Break => Done(Stop(Broke, env), [])
    case Continue => Done(Stop(Continued, env), [])
    case Evaluate(e) => Discarded(env, Eval(e, env, fs, fuel))
  }

  function Assigned(x: string, env: Env, r: Res<int>): Res<Stop> {
    if r.Done? then Done(Stop(Normal, env[x := r.value]), r.out) else Fail(r)
  }

  function Returning(env: Env, r: Res<int>): Res<Stop> {
    if r.Done? then Done(Stop(Returned(r.value), env), r.out) else Fail(r)
  }

  function Discarded(env: Env, r: Res<int>): Res<Stop> {
    if r.Done? then Done(Stop(Normal, env), r.out) else Fail(r)
  }

  function ExecIf(s: Stmt, env: Env, fs: Program, fuel: nat): Res<Stop>
    requires s.If?
    decreases fuel, s, 2
  {
    var r := Eval(s.cond, env, fs, fuel);
    if !r.Done? then Fail(r)
    else Also(r.out, if r.value != 0 then ExecBlock(s.thenBlock, env, fs, fuel) else ExecElse(s.elseBlock, env, fs, fuel))
  }

  function ExecWhile(s: Stmt, env: Env, fs: Program, fuel: nat): Res<Stop>
    requires s.While?
    decreases fuel, s, 2
  {
    var r := Eval(s.cond, env, fs, fuel);
    if !r.Done? then Fail(r)
    else if r.value == 0 then Done(Stop(Normal, env), r.out)
    else if fuel == 0 then OutOfFuel
    else Also(r.out, Again(s, ExecBlock(s.body, env, fs, fuel - 1), fs, fuel))
  }

  /** What follows one execution of a loop body. */
  function Again(loop: Stmt, r: Res<Stop>, fs: Program, fuel: nat): Res<Stop>
    requires fuel > 0 && loop.While?
    decreases fuel, loop, 1
  {
    if !r.Done? then r
    else match r.value.how
         case Broke => Done(Stop(Normal, r.value.env), r.out)
         case Returned(_) => r
         case _ => Also(r.out, ExecWhile(loop, r.value.env, fs, fuel - 1))
  }

  function ExecElse(e: ElseBlock, env: Env, fs: Program, fuel: nat): Res<Stop>
    decreases fuel, e, 2
  {
    match e case NoElse => Done(Stop(Normal, env), []) case Else(b) => ExecBlock(b, env, fs, fuel)
  }

  function ExecBlock(ss: seq<Stmt>, env: Env, fs: Program, fuel: nat): Res<Stop>
    decreases fuel, ss, 4
  {
    if ss == [] then Done(Stop(Normal, env), [])
    else
      var r := Exec(ss[0], env, fs, fuel);
      if r.Done? && r.value.how.Normal? then Also(r.out, ExecBlock(ss[1..], r.value.env, fs, fuel)) else r
  }

  /** The meaning of an entry point: `init` or `call`, which take no arguments. */
  function RunFunction(f: Function, fs: Program, fuel: nat): Res<int> {
    ResultOf(ExecBlock(f.body, map[], fs, fuel))
  }
}
