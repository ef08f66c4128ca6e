/** A contract of the fragment that calls, loops, breaks and emits, and what the compiler theorem says about it. */
module Sample {
  import opened Text
  import opened Bytecode
  import opened Ast
  import opened Names
  import opened Codegen
  import opened Semantics
  import Avm
  import Linker
  import Metering

  const ADD := Function("add", ["a", "b"], [Return(Binary(Plus, Identifier("a"), Identifier("b")))])

  const START := Assign("i", Number(0))
  const STEP := Assign("i", Call(Named("add"), [Identifier("i"), Number(2)]))
  const LEAVE := If(Binary(Equal, Identifier("i"), Number(4)), [Break], NoElse)
  const LOOP := While(Number(1), [STEP] + [LEAVE])
  const SHOW := Evaluate(Call(EmitFn, [Identifier("i")]))
  const FINISH := Return(Identifier("i"))

  const COUNT := Function("call", [], [START] + ([LOOP] + ([SHOW] + [FINISH])))

  const COUNTER := Contract(Function("init", [], []), [ADD], COUNT)

  const NO_LITERALS := Table(map[], [], 0)

  // ---------------------------------------------------------------- it is of the fragment

  lemma FreeNames()
    ensures ContextOpcode("i") == ContextOpcode("a") == ContextOpcode("b") == None && BuiltinOf("add") == Ordinary
  {
  }

  lemma BlockThen(s: Stmt, rest: seq<Stmt>, sc: Scope, fns: Index, inLoop: bool)
    ensures BlockOk([s] + rest, sc, fns, inLoop) == (StmtOk(s, sc, fns, inLoop) && BlockOk(rest, After(s, sc), fns, inLoop))
    ensures AfterBlock([s] + rest, sc) == AfterBlock(rest, After(s, sc)) && BlockSize([s] + rest) == StmtSize(s) + BlockSize(rest)
  {
    assert ([s] + rest)[1..] == rest;
  }

  lemma BlockOfOne(s: Stmt, sc: Scope, fns: Index, inLoop: bool)
    ensures BlockOk([s], sc, fns, inLoop) == StmtOk(s, sc, fns, inLoop) && AfterBlock([s], sc) == After(s, sc) && BlockSize([s]) == StmtSize(s)
  {
    BlockThen(s, [], sc, fns, inLoop);
    assert [s] + [] == [s];
  }

  lemma LeaveFits(sc: Scope, fns: Index)
    requires "i" in sc.offsets
    ensures StmtOk(LEAVE, sc, fns, true) && After(LEAVE, sc) == sc && StmtSize(LEAVE) < 20
  {
    FreeNames();
    BlockOfOne(Break, sc, fns, true);
    assert OperatorCode(Equal) != [];
    assert ExprOk(Identifier("i"), sc, fns) && ExprOk(Number(4), sc, fns);
    assert LEAVE.cond.op == Equal && ExprOk(LEAVE.cond, sc, fns);
    assert ElseOk(NoElse, sc, fns, true);
  }

  lemma StepFits(sc: Scope, fns: Index)
    requires "add" in fns && "i" in sc.offsets
    ensures StmtOk(STEP, sc, fns, true) && After(STEP, sc) == sc && StmtSize(STEP) < 20
  {
    FreeNames();
    assert ArgsSize([Identifier("i"), Number(2)]) < 10;
  }

  lemma LoopFits(sc: Scope, fns: Index)
    requires "add" in fns && "i" in sc.offsets
    ensures StmtOk(LOOP, sc, fns, false) && After(LOOP, sc) == sc && StmtSize(LOOP) < 50
  {
    StepFits(sc, fns);
    LeaveFits(sc, fns);
    BlockOfOne(LEAVE, sc, fns, true);
    BlockThen(STEP, [LEAVE], sc, fns, true);
  }

  lemma CountFits(fns: Index)
    requires "add" in fns
    ensures BlockOk(COUNT.body, ParamScope([]), fns, false) && FullScope(COUNT).next == 1 && BlockSize(COUNT.body) < 100
  {
    FreeNames();
    var sc := Declare(ParamScope([]), "i");
    LoopFits(sc, fns);
    BlockOfOne(FINISH, sc, fns, false);
    BlockThen(SHOW, [FINISH], sc, fns, false);
    BlockThen(LOOP, [SHOW] + [FINISH], sc, fns, false);
    BlockThen(START, [LOOP] + ([SHOW] + [FINISH]), ParamScope([]), fns, false);
    assert ArgsSize([Identifier("i")]) < 10;
  }

  lemma AddFits(fns: Index)
    ensures BlockOk(ADD.body, ParamScope(ADD.params), fns, false) && FullScope(ADD).next == 2 && BlockSize(ADD.body) < 10
  {
    FreeNames();
    var sc := ParamScope(ADD.params);
    assert ParamOffsets(ADD.params, 1) == map["a" := 0];
    assert "a" in sc.offsets && "b" in sc.offsets && OperatorCode(Plus) != [];
    BlockOfOne(ADD.body[0], sc, fns, false);
    assert [ADD.body[0]] == ADD.body && ExprSize(ADD.body[0].result) < 8;
    assert ExprOk(Identifier("a"), sc, fns) && ExprOk(Identifier("b"), sc, fns);
    assert ExprOk(ADD.body[0].result, sc, fns);
  }

  lemma DefineAllThen(im: Image, f: Function, rest: seq<Function>)
    ensures DefineAllOk(im, [f] + rest) == (DefineOk(im, f) && DefineAllOk(Define(im, f), rest))
    ensures DefineAll(im, [f] + rest) == DefineAll(Define(im, f), rest)
    ensures |Define(im, f).code| <= |im.code| + BlockSize(f.body) + 2
  {
    assert ([f] + rest)[1..] == rest;
  }

  lemma CounterAccepted()
    ensures CompiledOk(NO_LITERALS, COUNTER) && |Compiled(NO_LITERALS, COUNTER).code| < 200
  {
    var raw := Image(RawHeader([]), map[]);
    var one := Define(raw, COUNTER.init);
    var two := Define(one, ADD);
    AddFits(one.index[ADD.name := |one.code|]);
    CountFits(two.index[COUNT.name := |two.code|]);
    assert [COUNT] + [] == [COUNT];
    DefineAllThen(two, COUNT, []);
    DefineAllThen(one, ADD, [COUNT]);
    DefineAllThen(raw, COUNTER.init, [ADD] + [COUNT]);
    assert [COUNTER.init] + ([ADD] + [COUNT]) == AllFunctions(COUNTER);
  }

  lemma CounterInFragment()
    ensures Metering.InFragment(NO_LITERALS, COUNTER)
  {
    CounterAccepted();
    assert AllFunctions(COUNTER) == [COUNTER.init, ADD, COUNT];
    assert Linker.Serviceable(ADD, false) by { AddFits(map[]); }
    assert Linker.Serviceable(COUNT, false) by { CountFits(map["add" := 0]); }
    assert Linker.Serviceable(COUNTER.init, true);
  }

  // ---------------------------------------------------------------- what it means, and what it does

  lemma Reads(x: string, env: Env, fs: Program, fuel: nat)
    requires x in env && ContextOpcode(x).None?
    ensures Eval(Identifier(x), env, fs, fuel) == Done(env[x], [])
  {
  }

  lemma AddBodyMeans(n: nat, fs: Program, fuel: nat)
    requires n < 100
    ensures ResultOf(ExecBlock(ADD.body, Bind(ADD, n, 2), fs, fuel)) == Done(n + 2, [])
  {
    FreeNames();
    var env := Bind(ADD, n, 2);
    assert env["a"] == n && env["b"] == 2;
    Reads("a", env, fs, fuel);
    Reads("b", env, fs, fuel);
    assert Eval(ADD.body[0].result, env, fs, fuel) == Done(n + 2, []);
    assert ExecBlock(ADD.body, env, fs, fuel) == Done(Stop(Returned(n + 2), env), []);
  }

  lemma AddMeans(n: nat, fs: Program, fuel: nat)
    requires n < 100 && "add" in fs && fs["add"] == ADD && fuel > 0
    ensures Exec(STEP, map["i" := n], fs, fuel) == Done(Stop(Normal, map["i" := n + 2]), [])
  {
    FreeNames();
    var env: Env := map["i" := n];
    Reads("i", env, fs, fuel);
    AddBodyMeans(n, fs, fuel - 1);
    assert Eval(STEP.value.args[0], env, fs, fuel) == Done(n, []) && Eval(STEP.value.args[1], env, fs, fuel) == Done(2, []);
    assert Eval(STEP.value, env, fs, fuel) == Done(n + 2, []);
    assert env["i" := n + 2] == map["i" := n + 2];
  }

  lemma ExecThen(s: Stmt, rest: seq<Stmt>, env: Env, fs: Program, fuel: nat)
    ensures ExecBlock([s] + rest, env, fs, fuel) ==
            var r := Exec(s, env, fs, fuel);
            if r.Done? && r.value.how.Normal? then Also(r.out, ExecBlock(rest, r.value.env, fs, fuel)) else r
  {
    assert ([s] + rest)[1..] == rest;
  }

  lemma ExecOne(s: Stmt, env: Env, fs: Program, fuel: nat)
    ensures ExecBlock([s], env, fs, fuel) == Exec(s, env, fs, fuel)
  {
    ExecThen(s, [], env, fs, fuel);
    assert [s] + [] == [s];
    var r := Exec(s, env, fs, fuel);
    if r.Done? { assert r.out + [] == r.out; }
  }

  lemma LeaveMeans(n: nat, fs: Program, fuel: nat)
    ensures Exec(LEAVE, map["i" := n], fs, fuel) == Done(Stop(if n == 4 then Broke else Normal, map["i" := n]), [])
  {
    FreeNames();
    var env: Env := map["i" := n];
    Reads("i", env, fs, fuel);
    ExecOne(Break, env, fs, fuel);
    assert Eval(LEAVE.cond.lhs, env, fs, fuel) == Done(n, []) && Eval(LEAVE.cond.rhs, env, fs, fuel) == Done(4, []);
    assert Eval(LEAVE.cond, env, fs, fuel) == Done(if n == 4 then 1 else 0, []);
    assert ExecElse(NoElse, env, fs, fuel) == Done(Stop(Normal, env), []);
    assert Exec(LEAVE, env, fs, fuel) == ExecIf(LEAVE, env, fs, fuel);
    assert LEAVE.thenBlock == [Break] && LEAVE.elseBlock == NoElse;
    assert ExecIf(LEAVE, env, fs, fuel) == Done(Stop(if n == 4 then Broke else Normal, env), []);
  }

  lemma RoundMeans(n: nat, fs: Program, fuel: nat)
    requires n < 100 && "add" in fs && fs["add"] == ADD && fuel > 0
    ensures ExecBlock(LOOP.body, map["i" := n], fs, fuel) == Done(Stop(if n == 2 then Broke else Normal, map["i" := n + 2]), [])
  {
    AddMeans(n, fs, fuel);
    LeaveMeans(n + 2, fs, fuel);
    ExecOne(LEAVE, map["i" := n + 2], fs, fuel);
    ExecThen(STEP, [LEAVE], map["i" := n], fs, fuel);
  }

  lemma LoopMeans(fs: Program, fuel: nat)
    requires "add" in fs && fs["add"] == ADD && fuel > 3
    ensures Exec(LOOP, map["i" := 0], fs, fuel) == Done(Stop(Normal, map["i" := 4]), [])
  {
    RoundMeans(2, fs, fuel - 2);
    assert ExecWhile(LOOP, map["i" := 2], fs, fuel - 1) == Done(Stop(Normal, map["i" := 4]), []);
    RoundMeans(0, fs, fuel - 1);
    var first := ExecBlock(LOOP.body, map["i" := 0], fs, fuel - 1);
    assert Again(LOOP, first, fs, fuel) == Done(Stop(Normal, map["i" := 4]), []);
    assert Eval(LOOP.cond, map["i" := 0], fs, fuel) == Done(1, []);
    assert Exec(LOOP, map["i" := 0], fs, fuel) == ExecWhile(LOOP, map["i" := 0], fs, fuel);
  }

  lemma ShowMeans(fs: Program, fuel: nat)
    ensures ExecBlock([SHOW] + [FINISH], map["i" := 4], fs, fuel) == Done(Stop(Returned(4), map["i" := 4]), [Avm.Number(4)])
  {
    FreeNames();
    var env: Env := map["i" := 4];
    Reads("i", env, fs, fuel);
    assert SHOW.expr.args[0] == Identifier("i");
    assert Exec(SHOW, env, fs, fuel) == Done(Stop(Normal, env), [Avm.Number(4)]);
    ExecOne(FINISH, env, fs, fuel);
    ExecThen(SHOW, [FINISH], env, fs, fuel);
  }

  lemma CountMeans(fs: Program, fuel: nat)
    requires "add" in fs && fs["add"] == ADD && fuel > 3
    ensures RunFunction(COUNT, fs, fuel) == Done(4, [Avm.Number(4)])
  {
    LoopMeans(fs, fuel);
    ShowMeans(fs, fuel);
    ExecThen(LOOP, [SHOW] + [FINISH], map["i" := 0], fs, fuel);
    ExecThen(START, [LOOP] + ([SHOW] + [FINISH]), map[], fs, fuel);
  }

  /** Compiled and run from its call entry, with any gas and any stack limit, the contract emits and returns 4, or is cut off. */
  lemma CounterRuns(cx: Avm.Context, gas: nat, store: Avm.Storage, limit: nat)
    ensures var r := Avm.Execute(Compiled(NO_LITERALS, COUNTER).code, cx, Avm.Fresh(gas, 2, store), limit);
      Metering.CutOff(r) || Metering.Delivers(r, 4, [Avm.Number(4)], store)
  {
    CounterInFragment();
    Metering.CompiledRuns(NO_LITERALS, COUNTER, cx, gas, store, 2, limit, 4);
    var fs := Metering.ProgramOf(COUNTER);
    CounterProgram();
    CountMeans(fs, 4);
  }

  /** With enough gas and no stack limit it does emit and return 4. */
  lemma CounterDelivers(cx: Avm.Context, store: Avm.Storage) returns (price: nat)
    ensures forall gas: nat {:trigger Avm.Fresh(gas, 2, store)} ::
        var r := Avm.Execute(Compiled(NO_LITERALS, COUNTER).code, cx, Avm.Fresh(gas, 2, store), 0);
        if gas >= price then Metering.Delivers(r, 4, [Avm.Number(4)], store) else Metering.CutOff(r)
  {
    CounterInFragment();
    CounterProgram();
    CountMeans(Metering.ProgramOf(COUNTER), 4);
    price := Metering.PriceOfRun(NO_LITERALS, COUNTER, cx, store, 2, 4);
  }

  lemma CounterProgram()
    ensures var fs := Metering.ProgramOf(COUNTER); "add" in fs && fs["add"] == ADD && "call" in fs && fs["call"] == COUNT
  {
    var names := {"init"};
    assert Linker.Program([COUNT], names + {"add"})["call"] == COUNT;
    ProgramThen(ADD, [COUNT], names);
    ProgramThen(COUNTER.init, [ADD] + [COUNT], {});
    assert [COUNTER.init] + ([ADD] + [COUNT]) == AllFunctions(COUNTER) && {} + {"init"} == names;
  }

  lemma ProgramThen(f: Function, rest: seq<Function>, known: set<string>)
    requires f.name !in known
    ensures Linker.Program([f] + rest, known) == Linker.Program(rest, known + {f.name})[f.name := f]
  {
    assert ([f] + rest)[1..] == rest;
  }
}
